/**
 * The graph loader: joins the bulk-loaded `image_history_state_proxy`,
 * `img_history_states`, `img_history_states_resources` and `resources`
 * rows of the source catalog into one ImageHistory per source image id,
 * then looks up each image's path in the source `images` table.
 *
 * The specification functions (LinkedIds, LookupResources, LoadEntry,
 * Group, WithPaths) say what the loops compute; the lemmas say what that
 * means; the methods are the loops, proved to compute exactly that.
 */
module Loader {
  import opened Rows
  import opened Dictionary

  // ---------------------------------------------------------------------
  // Specification
  // ---------------------------------------------------------------------

  /** The `_val_id_int_64` of every link row whose `_key_id_int_64` is `stateId`, in row order. */
  function LinkedIds(links: seq<LinkRow>, stateId: int): (ids: seq<int>)
    decreases |links|
  {
    if links == [] then []
    else
      var last := links[|links| - 1];
      LinkedIds(links[..|links| - 1], stateId) + (if last.key == stateId then [last.val] else [])
  }

  /** Looks each id up with `resources.First`; the first id without a resource fails. */
  function LookupResources(resources: seq<ResourceRow>, ids: seq<int>): (r: Result<seq<ResourceRow>>)
    ensures r.Ok? ==> |r.value| == |ids| &&
                      forall j :: 0 <= j < |ids| ==> FindResource(resources, ids[j]) == Some(r.value[j])
    ensures r.Err? ==> exists j :: 0 <= j < |ids| && r.error == MissingResource(ids[j]) &&
                                   FindResource(resources, ids[j]).None?
    decreases |ids|
  {
    if ids == [] then Ok([])
    else
      var last := ids[|ids| - 1];
      match LookupResources(resources, ids[..|ids| - 1])
      case Err(e) => Err(e)
      case Ok(rs) =>
        match FindResource(resources, last)
        case None => Err(MissingResource(last))
        case Some(x) => Ok(rs + [x])
  }

  /** Lines 46-57 for one proxy row: its state and the resources linked to that state. */
  function LoadEntry(src: Tables, p: ProxyRow): (r: Result<HistoryResource>)
    ensures r.Ok? ==> r.value.state.id == p.stateId
  {
    match FindState(src.states, p.stateId)
    case None => Err(MissingState(p.stateId))
    case Some(st) =>
      match LookupResources(src.resources, LinkedIds(src.links, st.id))
      case Err(e) => Err(e)
      case Ok(rs) => Ok(HistoryResource(st, rs))
  }

  /** Lines 34-59 once the entry is loaded: the image's history gains the
      entry, and a proxy flagged current makes its state the current one. */
  function AddEntry(d: Dict, p: ProxyRow, hr: HistoryResource): Dict {
    var item := if p.imageId in d.values then d.values[p.imageId] else NewImageHistory;
    var current := if p.current == 1 then p.stateId else item.currentId;
    d.Put(p.imageId, item.(currentId := current, history := item.history + [hr]))
  }

  /** Lines 31-62: the dictionary after the proxy rows `ps`, or the first failure. */
  function Group(src: Tables, ps: seq<ProxyRow>): (r: Result<Dict>)
    decreases |ps|
  {
    if ps == [] then Ok(EmptyDict)
    else
      var last := ps[|ps| - 1];
      match Group(src, ps[..|ps| - 1])
      case Err(e) => Err(e)
      case Ok(d) =>
        match LoadEntry(src, last)
        case Err(e) => Err(e)
        case Ok(hr) => Ok(AddEntry(d, last, hr))
  }

  /** The image ids of the proxy rows, in row order. */
  function ImageIds(ps: seq<ProxyRow>): (ids: seq<int>)
    decreases |ps|
  {
    if ps == [] then [] else ImageIds(ps[..|ps| - 1]) + [ps[|ps| - 1].imageId]
  }

  /** The proxy rows of image `k`, in row order. */
  function ProxiesFor(ps: seq<ProxyRow>, k: int): (qs: seq<ProxyRow>)
    decreases |ps|
  {
    if ps == [] then []
    else ProxiesFor(ps[..|ps| - 1], k) + (if ps[|ps| - 1].imageId == k then [ps[|ps| - 1]] else [])
  }

  /** The state of the last proxy row of image `k` flagged current, or 0 if none is. */
  function LastCurrent(ps: seq<ProxyRow>, k: int): (id: int)
    decreases |ps|
  {
    if ps == [] then 0
    else if ps[|ps| - 1].imageId == k && ps[|ps| - 1].current == 1 then ps[|ps| - 1].stateId
    else LastCurrent(ps[..|ps| - 1], k)
  }

  /** Lines 67-75 for the images `ks`, in order: each gets the path of its
      row in the source `images` table; the first image without one fails. */
  function AttachPathsTo(images: seq<ImageRow>, d: Dict, ks: seq<int>): (r: Result<Dict>)
    requires forall k :: k in ks ==> k in d.values
    ensures r.Ok? ==> r.value.keys == d.keys && r.value.values.Keys == d.values.Keys
    decreases |ks|
  {
    if ks == [] then Ok(d)
    else
      var k := ks[|ks| - 1];
      match AttachPathsTo(images, d, ks[..|ks| - 1])
      case Err(e) => Err(e)
      case Ok(d') =>
        match FindImageById(images, k)
        case None => Err(MissingImage(k))
        case Some(image) => Ok(d'.Put(k, d'.values[k].(path := image.path)))
  }

  /** Lines 67-75: every image of the dictionary, in enumeration order. */
  function WithPaths(images: seq<ImageRow>, d: Dict): (r: Result<Dict>)
    requires d.Valid()
    ensures r.Ok? ==> r.value.Valid() && r.value.keys == d.keys
  {
    AttachPathsTo(images, d, d.keys)
  }

  // ---------------------------------------------------------------------
  // Properties
  // ---------------------------------------------------------------------

  /** An entry loads exactly when its state exists and every resource linked
      to that state exists; it then holds that state (which carries the proxy
      row's state id) and exactly the linked resources, in link-row order. */
  lemma LoadEntryMeaning(src: Tables, p: ProxyRow)
    ensures LoadEntry(src, p).Ok? <==>
              FindState(src.states, p.stateId).Some? &&
              forall j :: 0 <= j < |LinkedIds(src.links, p.stateId)| ==>
                FindResource(src.resources, LinkedIds(src.links, p.stateId)[j]).Some?
    ensures LoadEntry(src, p).Ok? ==>
              var hr := LoadEntry(src, p).value;
              hr.state in src.states && hr.state.id == p.stateId &&
              |hr.resources| == |LinkedIds(src.links, p.stateId)| &&
              forall j :: 0 <= j < |hr.resources| ==>
                hr.resources[j] in src.resources && hr.resources[j].id == LinkedIds(src.links, p.stateId)[j]
  {
    var ids := LinkedIds(src.links, p.stateId);
    match FindState(src.states, p.stateId)
    case None =>
    case Some(st) =>
      assert st.id == p.stateId;
      match LookupResources(src.resources, ids)
      case Ok(rs) =>
        forall j | 0 <= j < |rs|
          ensures rs[j] in src.resources && rs[j].id == ids[j]
        {
          assert FindResource(src.resources, ids[j]) == Some(rs[j]);
        }
      case Err(_) =>
  }

  /** One more proxy row whose entry loads adds that entry to the dictionary. */
  lemma GroupAppend(src: Tables, ps: seq<ProxyRow>, p: ProxyRow)
    requires Group(src, ps).Ok? && LoadEntry(src, p).Ok?
    ensures Group(src, ps + [p]) == Ok(AddEntry(Group(src, ps).value, p, LoadEntry(src, p).value))
  {
    assert (ps + [p])[..|ps|] == ps;
  }

  /** One more proxy row whose entry does not load makes the load fail with its error. */
  lemma GroupAppendFails(src: Tables, ps: seq<ProxyRow>, p: ProxyRow)
    requires Group(src, ps).Ok? && LoadEntry(src, p).Err?
    ensures Group(src, ps + [p]) == Err(LoadEntry(src, p).error)
  {
    assert (ps + [p])[..|ps|] == ps;
  }

  /** A dictionary built from proxy rows was built from their prefix first. */
  lemma GroupLast(src: Tables, ps: seq<ProxyRow>)
    requires ps != [] && Group(src, ps).Ok?
    ensures Group(src, ps[..|ps| - 1]).Ok? && LoadEntry(src, ps[|ps| - 1]).Ok?
    ensures Group(src, ps).value ==
              AddEntry(Group(src, ps[..|ps| - 1]).value, ps[|ps| - 1], LoadEntry(src, ps[|ps| - 1]).value)
  {
  }

  /** Attaching paths succeeds exactly when every image has a row in the
      source `images` table; each image then carries that row's path and
      nothing else changes. Otherwise the first image without a row fails. */
  lemma {:induction false} AttachPathsMeaning(images: seq<ImageRow>, d: Dict, ks: seq<int>)
    requires forall k :: k in ks ==> k in d.values
    ensures AttachPathsTo(images, d, ks).Ok? <==> forall j :: 0 <= j < |ks| ==> FindImageById(images, ks[j]).Some?
    ensures AttachPathsTo(images, d, ks).Ok? ==>
              forall k :: k in d.values ==>
                AttachPathsTo(images, d, ks).value.values[k] ==
                  if k in ks then d.values[k].(path := FindImageById(images, k).value.path) else d.values[k]
    ensures AttachPathsTo(images, d, ks).Err? ==>
              exists i :: 0 <= i < |ks| && AttachPathsTo(images, d, ks).error == MissingImage(ks[i]) &&
                          FindImageById(images, ks[i]).None? &&
                          forall j :: 0 <= j < i ==> FindImageById(images, ks[j]).Some?
    decreases |ks|
  {
    if ks != [] {
      var init := ks[..|ks| - 1];
      var k := ks[|ks| - 1];
      assert forall j :: 0 <= j < |init| ==> init[j] == ks[j];
      assert forall x :: x in ks <==> x in init || x == k;
      AttachPathsMeaning(images, d, init);
    }
  }

  /** The path step of the whole dictionary, in its own terms. */
  lemma WithPathsMeaning(images: seq<ImageRow>, d: Dict)
    requires d.Valid()
    ensures WithPaths(images, d).Ok? <==> forall k :: k in d.values ==> FindImageById(images, k).Some?
    ensures WithPaths(images, d).Ok? ==>
              forall k :: k in d.values ==>
                WithPaths(images, d).value.values[k] == d.values[k].(path := FindImageById(images, k).value.path)
  {
    AttachPathsMeaning(images, d, d.keys);
    forall k | k in d.values
      ensures exists j :: 0 <= j < |d.keys| && d.keys[j] == k
    {
      assert k in d.keys;
    }
  }

  /** The loaded dictionary lists each of its keys once. */
  lemma {:induction false} GroupValid(src: Tables, ps: seq<ProxyRow>)
    requires Group(src, ps).Ok?
    ensures Group(src, ps).value.Valid()
    decreases |ps|
  {
    if ps != [] {
      GroupLast(src, ps);
      GroupValid(src, ps[..|ps| - 1]);
    }
  }

  /** Loading succeeds exactly when every proxy row's entry loads. */
  lemma {:induction false} GroupSucceeds(src: Tables, ps: seq<ProxyRow>)
    ensures Group(src, ps).Ok? <==> forall i :: 0 <= i < |ps| ==> LoadEntry(src, ps[i]).Ok?
    decreases |ps|
  {
    if ps != [] {
      var init := ps[..|ps| - 1];
      var p := ps[|ps| - 1];
      GroupSucceeds(src, init);
      assert ps == init + [p];
      if Group(src, init).Err? {
        GroupFailureSticks(src, ps, |init|);
      } else if LoadEntry(src, p).Err? {
        GroupAppendFails(src, init, p);
      } else {
        GroupAppend(src, init, p);
      }
    }
  }

  /** A failed load reports the failure of the first proxy row whose entry does not load. */
  lemma {:induction false} GroupFailsAtFirst(src: Tables, ps: seq<ProxyRow>)
    requires Group(src, ps).Err?
    ensures exists i :: 0 <= i < |ps| && LoadEntry(src, ps[i]) == Err(Group(src, ps).error) &&
                        forall j :: 0 <= j < i ==> LoadEntry(src, ps[j]).Ok?
    decreases |ps|
  {
    var init := ps[..|ps| - 1];
    assert forall i :: 0 <= i < |init| ==> init[i] == ps[i];
    if Group(src, init).Err? {
      GroupFailsAtFirst(src, init);
    } else {
      GroupSucceeds(src, init);
    }
  }

  /** A failure in a prefix of the proxy rows is the failure of the whole load. */
  lemma {:induction false} GroupFailureSticks(src: Tables, ps: seq<ProxyRow>, n: nat)
    requires n <= |ps| && Group(src, ps[..n]).Err?
    ensures Group(src, ps) == Group(src, ps[..n])
    decreases |ps| - n
  {
    if n < |ps| {
      assert ps[..n + 1][..n] == ps[..n];
      GroupFailureSticks(src, ps, n + 1);
    } else {
      assert ps[..n] == ps;
    }
  }

  /** The dictionary holds one entry per distinct image id of the proxy rows,
      in the order the ids first occur. */
  lemma {:induction false} GroupKeys(src: Tables, ps: seq<ProxyRow>)
    requires Group(src, ps).Ok?
    ensures Group(src, ps).value.keys == Dedupe(ImageIds(ps))
    decreases |ps|
  {
    if ps != [] {
      var init := ps[..|ps| - 1];
      var p := ps[|ps| - 1];
      GroupLast(src, ps);
      GroupKeys(src, init);
      GroupValid(src, init);
      var d := Group(src, init).value;
      AddEntryKeys(d, p, LoadEntry(src, p).value);
      DedupeSnoc(ImageIds(init), p.imageId);
      assert ImageIds(ps) == ImageIds(init) + [p.imageId];
    }
  }

  /** A new image id goes to the end of the key order; a known one stays put. */
  lemma AddEntryKeys(d: Dict, p: ProxyRow, hr: HistoryResource)
    requires d.Valid()
    ensures AddEntry(d, p, hr).keys == if p.imageId in d.keys then d.keys else d.keys + [p.imageId]
  {
  }

  /** Each proxy row adds exactly one entry, to its own image's history, in
      row order: an image's history is the entries of its proxy rows. */
  lemma {:induction false} GroupHistory(src: Tables, ps: seq<ProxyRow>, k: int)
    requires Group(src, ps).Ok?
    ensures k in Group(src, ps).value.values <==> ProxiesFor(ps, k) != []
    ensures k in Group(src, ps).value.values ==>
              var h := Group(src, ps).value.values[k].history;
              |h| == |ProxiesFor(ps, k)| &&
              forall j :: 0 <= j < |h| ==> LoadEntry(src, ProxiesFor(ps, k)[j]) == Ok(h[j])
    decreases |ps|
  {
    if ps != [] {
      var init := ps[..|ps| - 1];
      GroupHistory(src, init, k);
      var d := Group(src, init).value;
      var p := ps[|ps| - 1];
      if p.imageId == k {
        var old_h := if k in d.values then d.values[k].history else [];
        var h := Group(src, ps).value.values[k].history;
        assert h == old_h + [LoadEntry(src, p).value];
        assert ProxiesFor(ps, k) == ProxiesFor(init, k) + [p];
      }
    }
  }

  /** `CurrentId` is the state of the image's last proxy row flagged current, else 0. */
  lemma {:induction false} GroupCurrent(src: Tables, ps: seq<ProxyRow>, k: int)
    requires Group(src, ps).Ok? && k in Group(src, ps).value.values
    ensures Group(src, ps).value.values[k].currentId == LastCurrent(ps, k)
    decreases |ps|
  {
    var init := ps[..|ps| - 1];
    var p := ps[|ps| - 1];
    var d := Group(src, init).value;
    if k in d.values {
      GroupCurrent(src, init, k);
    } else {
      GroupHistory(src, init, k);
      LastCurrentWithoutRows(init, k);
    }
  }

  lemma {:induction false} LastCurrentWithoutRows(ps: seq<ProxyRow>, k: int)
    requires ProxiesFor(ps, k) == []
    ensures LastCurrent(ps, k) == 0
    decreases |ps|
  {
    if ps != [] {
      LastCurrentWithoutRows(ps[..|ps| - 1], k);
    }
  }

  lemma {:induction false} LastCurrentNone(ps: seq<ProxyRow>, k: int)
    requires forall i :: 0 <= i < |ps| && ps[i].imageId == k ==> ps[i].current != 1
    ensures LastCurrent(ps, k) == 0
    decreases |ps|
  {
    if ps != [] {
      var init := ps[..|ps| - 1];
      assert forall i :: 0 <= i < |init| ==> init[i] == ps[i];
      LastCurrentNone(init, k);
    }
  }

  /** An image none of whose proxy rows is flagged current keeps the default
      CurrentId 0. */
  lemma GroupNoCurrent(src: Tables, ps: seq<ProxyRow>, k: int)
    requires Group(src, ps).Ok? && k in Group(src, ps).value.values
    requires forall i :: 0 <= i < |ps| && ps[i].imageId == k ==> ps[i].current != 1
    ensures Group(src, ps).value.values[k].currentId == 0
  {
    GroupCurrent(src, ps, k);
    LastCurrentNone(ps, k);
  }

  /** The image's current state is one of the states in its history. */
  ghost predicate CurrentListed(item: ImageHistory) {
    exists j :: 0 <= j < |item.history| && item.history[j].state.id == item.currentId
  }

  /** When some proxy row of the image is flagged current, `CurrentId` names
      a state that is in the image's history. */
  lemma {:induction false} CurrentInHistory(src: Tables, ps: seq<ProxyRow>, k: int, i: nat)
    requires Group(src, ps).Ok? && i < |ps| && ps[i].imageId == k && ps[i].current == 1
    ensures k in Group(src, ps).value.values
    ensures CurrentListed(Group(src, ps).value.values[k])
    decreases |ps|
  {
    var init := ps[..|ps| - 1];
    var p := ps[|ps| - 1];
    GroupLast(src, ps);
    var d := Group(src, init).value;
    var hr := LoadEntry(src, p).value;
    if !(p.imageId == k && p.current == 1) {
      assert i < |init| && init[i] == ps[i];
      CurrentInHistory(src, init, k, i);
    }
    AddEntryCurrent(d, p, hr, k);
  }

  /** Adding an entry keeps the current state listed, and a current proxy
      row lists its own state. */
  lemma AddEntryCurrent(d: Dict, p: ProxyRow, hr: HistoryResource, k: int)
    requires hr.state.id == p.stateId
    requires (p.imageId == k && p.current == 1) || (k in d.values && CurrentListed(d.values[k]))
    ensures k in AddEntry(d, p, hr).values && CurrentListed(AddEntry(d, p, hr).values[k])
  {
    var e := AddEntry(d, p, hr);
    if p.imageId == k {
      var h := e.values[k].history;
      if p.current == 1 {
        assert h[|h| - 1] == hr;
      } else {
        var j :| 0 <= j < |d.values[k].history| && d.values[k].history[j].state.id == d.values[k].currentId;
        assert h[j] == d.values[k].history[j];
      }
    }
  }

  // ---------------------------------------------------------------------
  // The loops
  // ---------------------------------------------------------------------

  lemma {:induction false} AttachFailureSticks(images: seq<ImageRow>, d: Dict, ks: seq<int>, n: nat)
    requires forall k :: k in ks ==> k in d.values
    requires n <= |ks| && AttachPathsTo(images, d, ks[..n]).Err?
    ensures AttachPathsTo(images, d, ks) == AttachPathsTo(images, d, ks[..n])
    decreases |ks| - n
  {
    if n < |ks| {
      assert ks[..n + 1][..n] == ks[..n];
      AttachFailureSticks(images, d, ks, n + 1);
    } else {
      assert ks[..n] == ks;
    }
  }

  lemma {:induction false} LinkedIdsPrefix(links: seq<LinkRow>, stateId: int, i: nat)
    requires i < |links|
    ensures LinkedIds(links[..i + 1], stateId) ==
            LinkedIds(links[..i], stateId) + (if links[i].key == stateId then [links[i].val] else [])
  {
    assert links[..i + 1][..i] == links[..i];
  }

  lemma {:induction false} LinkedIdsSuffix(links: seq<LinkRow>, stateId: int, i: nat)
    requires i <= |links|
    ensures exists rest :: LinkedIds(links, stateId) == LinkedIds(links[..i], stateId) + rest
    decreases |links| - i
  {
    if i == |links| {
      assert links[..i] == links;
      assert LinkedIds(links, stateId) == LinkedIds(links[..i], stateId) + [];
    } else {
      LinkedIdsSuffix(links, stateId, i + 1);
      LinkedIdsPrefix(links, stateId, i);
      var rest :| LinkedIds(links, stateId) == LinkedIds(links[..i + 1], stateId) + rest;
      var extra := if links[i].key == stateId then [links[i].val] else [];
      assert LinkedIds(links, stateId) == LinkedIds(links[..i], stateId) + (extra + rest);
    }
  }

  /** Once an id fails to resolve, later ids do not change the failure. */
  lemma {:induction false} LookupFailureSticks(resources: seq<ResourceRow>, ids: seq<int>, rest: seq<int>)
    requires LookupResources(resources, ids).Err?
    ensures LookupResources(resources, ids + rest) == LookupResources(resources, ids)
    decreases |rest|
  {
    if rest == [] {
      assert ids + rest == ids;
    } else {
      var rest' := rest[..|rest| - 1];
      LookupFailureSticks(resources, ids, rest');
      assert (ids + rest)[..|ids + rest| - 1] == ids + rest';
    }
  }

  /** Lines 53-57: the resources linked to state `stateId`, in link-row order. */
  method CollectResources(src: Tables, stateId: int) returns (r: Result<seq<ResourceRow>>)
    ensures r == LookupResources(src.resources, LinkedIds(src.links, stateId))
  {
    var found: seq<ResourceRow> := [];
    for i := 0 to |src.links|
      invariant LookupResources(src.resources, LinkedIds(src.links[..i], stateId)) == Ok(found)
    {
      var link := src.links[i];
      LinkedIdsPrefix(src.links, stateId, i);
      if link.key == stateId {
        var resource := FindResource(src.resources, link.val);
        if resource.None? {
          var ids := LinkedIds(src.links[..i + 1], stateId);
          assert ids[..|ids| - 1] == LinkedIds(src.links[..i], stateId);
          LinkedIdsSuffix(src.links, stateId, i + 1);
          var rest :| LinkedIds(src.links, stateId) == ids + rest;
          LookupFailureSticks(src.resources, ids, rest);
          return Err(MissingResource(link.val));
        }
        var ids := LinkedIds(src.links[..i + 1], stateId);
        assert ids[..|ids| - 1] == LinkedIds(src.links[..i], stateId);
        found := found + [resource.value];
      } else {
        assert LinkedIds(src.links[..i + 1], stateId) == LinkedIds(src.links[..i], stateId);
      }
    }
    assert src.links[..|src.links|] == src.links;
    r := Ok(found);
  }

  /** Lines 28-62: builds the dictionary from the proxy rows, in row order. */
  method LoadHistories(src: Tables) returns (d: HistoryDictionary, r: Status)
    ensures fresh(d)
    ensures r.Done? <==> Group(src, src.proxies).Ok?
    ensures r.Done? ==> d.Contents() == Group(src, src.proxies).value
    ensures r.Failed? ==> Group(src, src.proxies) == Err(r.error)
  {
    d := new HistoryDictionary();
    var ps := src.proxies;
    for i := 0 to |ps|
      invariant Group(src, ps[..i]) == Ok(d.Contents())
    {
      var proxy := ps[i];
      var k := proxy.imageId;
      assert ps[..i + 1] == ps[..i] + [proxy];
      ghost var before := d.Contents();
      var present := d.ContainsKey(k);
      if !present {
        d.Set(k, NewImageHistory);
      }
      var item := d.values[k];
      if proxy.current == 1 {
        item := item.(currentId := proxy.stateId);
      }
      var state := FindState(src.states, proxy.stateId);
      if state.None? {
        GroupAppendFails(src, ps[..i], proxy);
        GroupFailureSticks(src, ps, i + 1);
        return d, Failed(MissingState(proxy.stateId));
      }
      var resources := CollectResources(src, state.value.id);
      if resources.Err? {
        GroupAppendFails(src, ps[..i], proxy);
        GroupFailureSticks(src, ps, i + 1);
        return d, Failed(resources.error);
      }
      var entry := HistoryResource(state.value, resources.value);
      var updated := item.(history := item.history + [entry]);
      d.Set(k, updated);
      if !present {
        PutPut(before, k, NewImageHistory, updated);
      }
      assert d.Contents() == AddEntry(before, proxy, entry);
      GroupAppend(src, ps[..i], proxy);
    }
    assert ps[..|ps|] == ps;
    r := Done;
  }

  lemma AttachPathsStep(images: seq<ImageRow>, d: Dict, ks: seq<int>, i: nat)
    requires d.Valid() && ks == d.keys && i < |ks|
    ensures ks[i] in d.values
    ensures AttachPathsTo(images, d, ks[..i + 1]) ==
              match AttachPathsTo(images, d, ks[..i])
              case Err(e) => Err(e)
              case Ok(d') =>
                match FindImageById(images, ks[i])
                case None => Err(MissingImage(ks[i]))
                case Some(image) => Ok(d'.Put(ks[i], d'.values[ks[i]].(path := image.path)))
  {
    assert ks[i] in d.keys;
    assert ks[..i + 1][..i] == ks[..i];
  }

  /** Lines 67-75: sets every image's path from the source `images` table. */
  method AttachPaths(images: seq<ImageRow>, d: HistoryDictionary) returns (r: Status)
    requires d.Contents().Valid()
    modifies d
    ensures r.Done? <==> WithPaths(images, old(d.Contents())).Ok?
    ensures r.Done? ==> d.Contents() == WithPaths(images, old(d.Contents())).value
    ensures r.Failed? ==> WithPaths(images, old(d.Contents())) == Err(r.error)
  {
    var keys := d.keys;
    ghost var initial := d.Contents();
    for i := 0 to |keys|
      invariant d.keys == keys && d.values.Keys == initial.values.Keys
      invariant AttachPathsTo(images, initial, keys[..i]) == Ok(d.Contents())
    {
      var k := keys[i];
      AttachPathsStep(images, initial, keys, i);
      var image := FindImageById(images, k);
      if image.None? {
        AttachFailureSticks(images, initial, keys, i + 1);
        return Failed(MissingImage(k));
      }
      var item := d.values[k];
      d.Set(k, item.(path := image.value.path));
    }
    assert keys[..|keys|] == keys;
    r := Done;
  }
}
