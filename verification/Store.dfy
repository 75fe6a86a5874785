/**
 * The catalog store as the program uses it: a catalog is a set of tables
 * that changes in place; a write transaction stages inserts against a copy
 * of the destination's tables and either commits the copy or drops it.
 *
 * `SELECT last_insert_rowid()` is modelled by a per-table key counter: every
 * insert into `img_history_states` or `resources` takes the counter's value
 * as its key and advances it. A store that rejects a statement is modelled
 * by `failAt`, the ordinal (from 0) of the first statement of the
 * transaction that fails; every statement before it succeeds.
 */
module Store {
  import opened Rows

  /** Every key in the two generated-key tables is below its counter, so a
      key the counter hands out is new. */
  ghost predicate KeysBelow(t: Tables) {
    (forall s :: s in t.states ==> s.id < t.nextStateKey) &&
    (forall x :: x in t.resources ==> x.id < t.nextResourceKey)
  }

  /** Lines 108-120: a new `img_history_states` row with the given attributes. */
  function AddState(t: Tables, attrs: StateAttrs): (t': Tables)
  {
    t.(states := t.states + [StateRow(t.nextStateKey, attrs)], nextStateKey := t.nextStateKey + 1)
  }

  /** Lines 123-130: a new `image_history_state_proxy` row. */
  function AddProxy(t: Tables, p: ProxyRow): (t': Tables)
  {
    t.(proxies := t.proxies + [p])
  }

  /** Lines 140-145: a new `resources` row. */
  function AddResource(t: Tables, markedToDelete: int, path: string): (t': Tables)
  {
    t.(resources := t.resources + [ResourceRow(t.nextResourceKey, markedToDelete, path)],
       nextResourceKey := t.nextResourceKey + 1)
  }

  /** Lines 148-154: a new `img_history_states_resources` row. */
  function AddLink(t: Tables, key: int, val: int): (t': Tables)
  {
    t.(links := t.links + [LinkRow(key, val)])
  }

  /** The key a state insert takes is new, and the counter stays ahead of every key. */
  lemma AddStateFresh(t: Tables, attrs: StateAttrs)
    requires KeysBelow(t)
    ensures forall s :: s in t.states ==> s.id != t.nextStateKey
    ensures KeysBelow(AddState(t, attrs))
  {
  }

  /** The key a resource insert takes is new, and the counter stays ahead of every key. */
  lemma AddResourceFresh(t: Tables, markedToDelete: int, path: string)
    requires KeysBelow(t)
    ensures forall x :: x in t.resources ==> x.id != t.nextResourceKey
    ensures KeysBelow(AddResource(t, markedToDelete, path))
  {
  }

  /** How the write transaction ends when nothing failed: the program as
      written rolls back (line 162, marked TESTING); the commented-out line
      161 would commit. */
  datatype Ending = Commit | Rollback

  /** A catalog database. */
  class Catalog {
    var tables: Tables

    constructor (t: Tables)
      ensures tables == t
    {
      tables := t;
    }
  }

  /** Line 95: `destinationConnection.BeginTransaction()`. */
  class Transaction {
    const catalog: Catalog
    const failAt: Option<nat>
    var staged: Tables
    var issued: nat

    constructor Begin(c: Catalog, failAt: Option<nat>)
      ensures catalog == c && this.failAt == failAt
      ensures staged == c.tables && issued == 0
    {
      catalog := c;
      this.failAt := failAt;
      staged := c.tables;
      issued := 0;
    }

    /** The next statement is the one the store rejects. */
    predicate Rejects()
      reads this
    {
      failAt == Some(issued)
    }

    /** `INSERT INTO img_history_states ...; SELECT last_insert_rowid()` */
    method InsertState(attrs: StateAttrs) returns (r: Result<int>)
      modifies this
      ensures issued == old(issued) + 1
      ensures old(Rejects()) ==> r == Err(StoreFailure(old(issued))) && staged == old(staged)
      ensures !old(Rejects()) ==> r == Ok(old(staged).nextStateKey) && staged == AddState(old(staged), attrs)
    {
      if Rejects() {
        r := Err(StoreFailure(issued));
      } else {
        r := Ok(staged.nextStateKey);
        staged := AddState(staged, attrs);
      }
      issued := issued + 1;
    }

    /** `INSERT INTO image_history_state_proxy ...` */
    method InsertProxy(p: ProxyRow) returns (r: Status)
      modifies this
      ensures issued == old(issued) + 1
      ensures old(Rejects()) ==> r == Failed(StoreFailure(old(issued))) && staged == old(staged)
      ensures !old(Rejects()) ==> r == Done && staged == AddProxy(old(staged), p)
    {
      if Rejects() {
        r := Failed(StoreFailure(issued));
      } else {
        r := Done;
        staged := AddProxy(staged, p);
      }
      issued := issued + 1;
    }

    /** `INSERT INTO resources ...; SELECT last_insert_rowid()` */
    method InsertResource(markedToDelete: int, path: string) returns (r: Result<int>)
      modifies this
      ensures issued == old(issued) + 1
      ensures old(Rejects()) ==> r == Err(StoreFailure(old(issued))) && staged == old(staged)
      ensures !old(Rejects()) ==> r == Ok(old(staged).nextResourceKey) &&
                                  staged == AddResource(old(staged), markedToDelete, path)
    {
      if Rejects() {
        r := Err(StoreFailure(issued));
      } else {
        r := Ok(staged.nextResourceKey);
        staged := AddResource(staged, markedToDelete, path);
      }
      issued := issued + 1;
    }

    /** `INSERT INTO img_history_states_resources ...` */
    method InsertLink(key: int, val: int) returns (r: Status)
      modifies this
      ensures issued == old(issued) + 1
      ensures old(Rejects()) ==> r == Failed(StoreFailure(old(issued))) && staged == old(staged)
      ensures !old(Rejects()) ==> r == Done && staged == AddLink(old(staged), key, val)
    {
      if Rejects() {
        r := Failed(StoreFailure(issued));
      } else {
        r := Done;
        staged := AddLink(staged, key, val);
      }
      issued := issued + 1;
    }

    /** `CommitAsync()`: the staged tables become the catalog's. */
    method Commit()
      modifies catalog
      ensures catalog.tables == staged
    {
      catalog.tables := staged;
    }

    /** `RollbackAsync()`: the staged tables are dropped and the catalog keeps
        the tables it had. */
    method Rollback()
      ensures catalog.tables == old(catalog.tables)
    {
    }
  }
}
