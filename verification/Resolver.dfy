/**
 * The resolver: the loaded histories are keyed by source image id, which
 * means nothing in the destination catalog. Lines 85-93 take the histories
 * out of the dictionary in enumeration order, clear it, and put each one
 * back under the id of the first destination image whose path equals the
 * history's path.
 */
module Resolver {
  import opened Rows
  import opened Dictionary

  // ---------------------------------------------------------------------
  // Specification
  // ---------------------------------------------------------------------

  /** Lines 89-93 over `items`: the re-keyed dictionary, or the first path
      without a destination image. */
  function Rekey(images: seq<ImageRow>, items: seq<ImageHistory>): (r: Result<Dict>)
    decreases |items|
  {
    if items == [] then Ok(EmptyDict)
    else
      var item := items[|items| - 1];
      match Rekey(images, items[..|items| - 1])
      case Err(e) => Err(e)
      case Ok(d) =>
        match MatchId(images, item.path)
        case None => Err(UnresolvedImage(item.path))
        case Some(id) => Ok(d.Put(id, item))
  }

  /** The destination ids the items' paths match, in item order. */
  function MatchedIds(images: seq<ImageRow>, items: seq<ImageHistory>): (ids: seq<int>)
    decreases |items|
  {
    if items == [] then []
    else
      var item := items[|items| - 1];
      MatchedIds(images, items[..|items| - 1]) +
        (match MatchId(images, item.path) case None => [] case Some(id) => [id])
  }

  /** The last item whose path matches destination image `k`, if any. */
  function LastMatch(images: seq<ImageRow>, items: seq<ImageHistory>, k: int): (r: Option<ImageHistory>)
    ensures r.Some? ==> exists j :: 0 <= j < |items| && items[j] == r.value && MatchId(images, items[j].path) == Some(k) &&
                                    forall j' :: j < j' < |items| ==> MatchId(images, items[j'].path) != Some(k)
    ensures r.None? <==> forall j :: 0 <= j < |items| ==> MatchId(images, items[j].path) != Some(k)
    decreases |items|
  {
    if items == [] then None
    else if MatchId(images, items[|items| - 1].path) == Some(k) then Some(items[|items| - 1])
    else
      var r := LastMatch(images, items[..|items| - 1], k);
      assert forall j :: 0 <= j < |items| - 1 ==> items[..|items| - 1][j] == items[j];
      r
  }

  // ---------------------------------------------------------------------
  // Properties
  // ---------------------------------------------------------------------

  lemma RekeyAppend(images: seq<ImageRow>, items: seq<ImageHistory>, item: ImageHistory)
    ensures Rekey(images, items + [item]) ==
              match Rekey(images, items)
              case Err(e) => Err(e)
              case Ok(d) =>
                match MatchId(images, item.path)
                case None => Err(UnresolvedImage(item.path))
                case Some(id) => Ok(d.Put(id, item))
  {
    assert (items + [item])[..|items|] == items;
  }

  /** The dictionary is always well formed. */
  lemma {:induction false} RekeyValid(images: seq<ImageRow>, items: seq<ImageHistory>)
    requires Rekey(images, items).Ok?
    ensures Rekey(images, items).value.Valid()
    decreases |items|
  {
    if items != [] {
      RekeyValid(images, items[..|items| - 1]);
    }
  }

  /** Re-keying succeeds exactly when every item's path is the path of some
      destination image (MatchId says when that is). */
  lemma {:induction false} RekeySucceeds(images: seq<ImageRow>, items: seq<ImageHistory>)
    ensures Rekey(images, items).Ok? <==> forall j :: 0 <= j < |items| ==> MatchId(images, items[j].path).Some?
    decreases |items|
  {
    if items != [] {
      var init := items[..|items| - 1];
      var item := items[|items| - 1];
      RekeySucceeds(images, init);
      assert items == init + [item];
      RekeyAppend(images, init, item);
      assert forall j :: 0 <= j < |init| ==> init[j] == items[j];
    }
  }

  /** A failed re-keying names the path of the first item without a destination image. */
  lemma {:induction false} RekeyFailsAtFirst(images: seq<ImageRow>, items: seq<ImageHistory>)
    requires Rekey(images, items).Err?
    ensures exists i :: 0 <= i < |items| && Rekey(images, items).error == UnresolvedImage(items[i].path) &&
                        MatchId(images, items[i].path).None? &&
                        forall j :: 0 <= j < i ==> MatchId(images, items[j].path).Some?
    decreases |items|
  {
    var init := items[..|items| - 1];
    var item := items[|items| - 1];
    assert items == init + [item];
    RekeyAppend(images, init, item);
    assert forall j :: 0 <= j < |init| ==> init[j] == items[j];
    if Rekey(images, init).Err? {
      RekeyFailsAtFirst(images, init);
    } else {
      RekeySucceeds(images, init);
      assert Rekey(images, items).error == UnresolvedImage(items[|init|].path);
    }
  }

  /** The dictionary's keys are the matched destination ids, each once, in
      the order they are first matched. */
  lemma {:induction false} RekeyKeys(images: seq<ImageRow>, items: seq<ImageHistory>)
    requires Rekey(images, items).Ok?
    ensures Rekey(images, items).value.keys == Dedupe(MatchedIds(images, items))
    decreases |items|
  {
    if items != [] {
      var init := items[..|items| - 1];
      var item := items[|items| - 1];
      assert items == init + [item];
      RekeyAppend(images, init, item);
      RekeyKeys(images, init);
      RekeyValid(images, init);
      var id := MatchId(images, item.path).value;
      assert MatchedIds(images, items) == MatchedIds(images, init) + [id];
      DedupeSnoc(MatchedIds(images, init), id);
    }
  }

  /** Every destination image holds the LAST item matched to it: a later item
      with the same destination image replaces an earlier one. */
  lemma {:induction false} RekeyValues(images: seq<ImageRow>, items: seq<ImageHistory>, k: int)
    requires Rekey(images, items).Ok?
    ensures k in Rekey(images, items).value.values <==> LastMatch(images, items, k).Some?
    ensures k in Rekey(images, items).value.values ==>
              Rekey(images, items).value.values[k] == LastMatch(images, items, k).value
    decreases |items|
  {
    if items != [] {
      var init := items[..|items| - 1];
      var item := items[|items| - 1];
      assert items == init + [item];
      RekeyAppend(images, init, item);
      RekeyValues(images, init, k);
    }
  }

  lemma {:induction false} RekeyFailureSticks(images: seq<ImageRow>, items: seq<ImageHistory>, n: nat)
    requires n <= |items| && Rekey(images, items[..n]).Err?
    ensures Rekey(images, items) == Rekey(images, items[..n])
    decreases |items| - n
  {
    if n < |items| {
      assert items[..n + 1] == items[..n] + [items[n]];
      RekeyAppend(images, items[..n], items[n]);
      RekeyFailureSticks(images, items, n + 1);
    } else {
      assert items[..n] == items;
    }
  }

  // ---------------------------------------------------------------------
  // The loop
  // ---------------------------------------------------------------------

  /** Lines 85-93: empties the dictionary and refills it under destination ids. */
  method Resolve(images: seq<ImageRow>, d: HistoryDictionary) returns (r: Status)
    modifies d
    ensures r.Done? <==> Rekey(images, old(d.Contents()).Items()).Ok?
    ensures r.Done? ==> d.Contents() == Rekey(images, old(d.Contents()).Items()).value
    ensures r.Failed? ==> Rekey(images, old(d.Contents()).Items()) == Err(r.error)
  {
    var list := d.Contents().Items();
    d.Clear();
    for i := 0 to |list|
      invariant Rekey(images, list[..i]) == Ok(d.Contents())
    {
      var item := list[i];
      assert list[..i + 1] == list[..i] + [item];
      RekeyAppend(images, list[..i], item);
      var matched := MatchId(images, item.path);
      if matched.None? {
        RekeyFailureSticks(images, list, i + 1);
        return Failed(UnresolvedImage(item.path));
      }
      d.Set(matched.value, item);
    }
    assert list[..|list|] == list;
    r := Done;
  }
}
