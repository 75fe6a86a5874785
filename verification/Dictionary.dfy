/**
 * The program's `Dictionary<long, ImageHistory>`. The .NET documentation
 * leaves enumeration order unspecified; the implementation enumerates a
 * dictionary from which no key has been removed in insertion order, and
 * `Clear()` resets its entry array so that insertion order starts over.
 * Assigning to a key already present replaces its value in place. The model
 * follows the implementation: `Dict` is that value, `HistoryDictionary` the
 * object the program creates once and reuses after clearing it (line 86).
 */
module Dictionary {
  import opened Rows

  predicate Distinct(s: seq<int>) {
    forall i, j :: 0 <= i < j < |s| ==> s[i] != s[j]
  }

  datatype Dict = Dict(keys: seq<int>, values: map<int, ImageHistory>) {

    /** Keys listed once each, and exactly the keys of the map. */
    ghost predicate Valid() {
      Distinct(keys) && forall k :: k in values <==> k in keys
    }

    /** `dict[k] = v` */
    function Put(k: int, v: ImageHistory): (d: Dict)
      ensures Valid() ==> d.Valid()
    {
      if k in values then Dict(keys, values[k := v]) else Dict(keys + [k], values[k := v])
    }

    /** `dict.Select(x => x.Value).ToList()`: the values in enumeration order
        (every key has a value when the dictionary is Valid). */
    function Items(): (items: seq<ImageHistory>)
      ensures |items| == |keys|
    {
      seq(|keys|, i requires 0 <= i < |keys| => if keys[i] in values then values[keys[i]] else NewImageHistory)
    }
  }

  const EmptyDict := Dict([], map[])

  /** The values come out in key order, one per key. */
  lemma ItemsInKeyOrder(d: Dict)
    requires d.Valid()
    ensures |d.Items()| == |d.keys|
    ensures forall i :: 0 <= i < |d.keys| ==> d.keys[i] in d.values && d.Items()[i] == d.values[d.keys[i]]
  {
    forall i | 0 <= i < |d.keys|
      ensures d.keys[i] in d.values
    {
      var k := d.keys[i];
      assert k in d.keys;
      assert k in d.values <==> k in d.keys;
    }
  }

  /** The distinct elements of `s`, each where it first occurs: the key order
      of a dictionary into which `s` is written key by key. */
  function Dedupe(s: seq<int>): (r: seq<int>)
    ensures Distinct(r)
    ensures forall x :: x in r <==> x in s
    decreases |s|
  {
    if s == [] then []
    else
      var d := Dedupe(s[..|s| - 1]);
      if s[|s| - 1] in d then d else d + [s[|s| - 1]]
  }

  /** One more element is kept exactly when it is new. */
  lemma DedupeSnoc(s: seq<int>, x: int)
    ensures Dedupe(s + [x]) == if x in Dedupe(s) then Dedupe(s) else Dedupe(s) + [x]
  {
    assert (s + [x])[..|s|] == s;
  }

  /** Writing the same key twice leaves the position of the first write and
      the value of the second. */
  lemma PutPut(d: Dict, k: int, v: ImageHistory, w: ImageHistory)
    ensures d.Put(k, v).Put(k, w) == d.Put(k, w)
  {
  }

  /** The dictionary object. */
  class HistoryDictionary {
    var keys: seq<int>
    var values: map<int, ImageHistory>

    function Contents(): Dict
      reads this
    {
      Dict(keys, values)
    }

    /** `new Dictionary<long, ImageHistory>()` */
    constructor ()
      ensures Contents() == EmptyDict
    {
      keys, values := [], map[];
    }

    /** `ContainsKey(k)` */
    function ContainsKey(k: int): (b: bool)
      reads this
      ensures Contents().Valid() ==> (b <==> k in keys)
    {
      k in values
    }

    /** `this[k] = v` */
    method Set(k: int, v: ImageHistory)
      modifies this
      ensures Contents() == old(Contents()).Put(k, v)
    {
      if k !in values {
        keys := keys + [k];
      }
      values := values[k := v];
    }

    /** `Clear()` */
    method Clear()
      modifies this
      ensures Contents() == EmptyDict
    {
      keys, values := [], map[];
    }
  }
}
