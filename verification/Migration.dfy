/**
 * One run of the program: load the source catalog's histories, attach the
 * source image paths, re-key them by destination image, then write them all
 * in one transaction on the destination and end it.
 *
 * Loading, path attaching and re-keying throw on a missing row before any
 * transaction exists, which ends the run (`Aborted`). A failing insert is
 * caught (lines 164-168) and the transaction rolled back. The program as
 * written then always rolls back (line 162); `ending` says whether the run
 * commits instead, as the commented-out line 161 would.
 */
module Migration {
  import opened Rows
  import opened Dictionary
  import opened Store
  import opened Loader
  import opened Resolver
  import opened Writer

  datatype Outcome =
    | Aborted(error: Error)                // an exception before the transaction
    | RolledBack(failure: Option<Error>)   // the transaction was rolled back, after a failed insert or not
    | Committed

  /** Lines 31-93: the histories to write, keyed by destination image id, or
      the first missing row. */
  function Plan(src: Tables, destinationImages: seq<ImageRow>): (r: Result<Dict>)
    ensures r.Ok? ==> r.value.Valid()
  {
    match Group(src, src.proxies)
    case Err(e) => Err(e)
    case Ok(g) =>
      GroupValid(src, src.proxies);
      match WithPaths(src.images, g)
      case Err(e) => Err(e)
      case Ok(w) =>
        match Rekey(destinationImages, w.Items())
        case Err(e) => Err(e)
        case Ok(p) =>
          RekeyValid(destinationImages, w.Items());
          Ok(p)
  }

  /** The whole program on catalogs `src` and `dst`. The destination changes
      only when the run commits, and then by exactly the rows `WriteJobs`
      appends; the source is never written. */
  method Migrate(src: Catalog, dst: Catalog, ending: Ending, failAt: Option<nat>) returns (outcome: Outcome)
    modifies dst
    ensures src != dst ==> src.tables == old(src.tables)
    ensures var plan := Plan(old(src.tables), old(dst.tables).images);
            plan.Err? ==> outcome == Aborted(plan.error) && dst.tables == old(dst.tables)
    ensures var plan := Plan(old(src.tables), old(dst.tables).images);
            plan.Ok? && Hits(failAt, 0, Statements(AllJobs(plan.value))) ==>
              outcome == RolledBack(Some(StoreFailure(failAt.value))) && dst.tables == old(dst.tables)
    ensures var plan := Plan(old(src.tables), old(dst.tables).images);
            plan.Ok? && !Hits(failAt, 0, Statements(AllJobs(plan.value))) && ending == Rollback ==>
              outcome == RolledBack(None) && dst.tables == old(dst.tables)
    ensures var plan := Plan(old(src.tables), old(dst.tables).images);
            plan.Ok? && !Hits(failAt, 0, Statements(AllJobs(plan.value))) && ending == Commit ==>
              outcome == Committed && dst.tables == WriteJobs(old(dst.tables), AllJobs(plan.value))
  {
    var source := src.tables;
    var d, st := LoadHistories(source);
    if st.Failed? {
      return Aborted(st.error);
    }
    GroupValid(source, source.proxies);
    st := AttachPaths(source.images, d);
    if st.Failed? {
      return Aborted(st.error);
    }
    var destinationImages := dst.tables.images;
    ghost var withPaths := d.Contents();
    st := Resolve(destinationImages, d);
    if st.Failed? {
      return Aborted(st.error);
    }
    RekeyValid(destinationImages, withPaths.Items());
    var tx := new Transaction.Begin(dst, failAt);
    st := WriteHistories(tx, d);
    if st.Failed? {
      tx.Rollback();
      return RolledBack(Some(st.error));
    }
    match ending {
      case Commit =>
        tx.Commit();
        outcome := Committed;
      case Rollback =>
        tx.Rollback();
        outcome := RolledBack(None);
    }
  }
}
