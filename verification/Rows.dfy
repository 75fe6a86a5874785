/**
 * The typed rows of a Luminar catalog, the in-memory working model built
 * from them (ImageHistory, HistoryResource), the failures a migration run
 * can end in, and the LINQ `First` lookup the program uses on row lists.
 *
 * Keys (`_id_int_64` and friends) are unbounded integers; SQLite's 64-bit
 * range is never reached by a catalog and is not modelled.
 */
module Rows {

  datatype Option<+T> = None | Some(value: T)

  /** Why a run stops. The first four are exceptions thrown before any
      transaction exists; StoreFailure is an insert the destination rejects. */
  datatype Error =
    | MissingState(stateId: int)        // `First` on img_history_states finds nothing
    | MissingResource(resourceId: int)  // `First` on resources finds nothing
    | MissingImage(imageId: int)        // `QueryFirstAsync` on source images returns no row
    | UnresolvedImage(path: string)     // `First` on destination images finds nothing
    | StoreFailure(statement: nat)      // the n-th statement of the transaction fails

  datatype Result<+T> = Ok(value: T) | Err(error: Error)

  /** How a step that changes state in place ended. */
  datatype Status = Done | Failed(error: Error)

  /** The eight attribute columns of `img_history_states` that are copied verbatim. */
  datatype StateAttrs = StateAttrs(
    markedToDelete: int,
    name: string,
    data: string,
    guid: string,
    cropInfo: string,
    orientation: int,
    hash: string,
    original: int)

  /** A row of `img_history_states`. */
  datatype StateRow = StateRow(id: int, attrs: StateAttrs)

  /** A row of `image_history_state_proxy`: image -> state, with the `current` flag. */
  datatype ProxyRow = ProxyRow(imageId: int, stateId: int, current: int)

  /** A row of `resources`. */
  datatype ResourceRow = ResourceRow(id: int, markedToDelete: int, path: string)

  /** A row of `img_history_states_resources`: state (`key`) -> resource (`val`). */
  datatype LinkRow = LinkRow(key: int, val: int)

  /** A row of `images`. */
  datatype ImageRow = ImageRow(id: int, path: string)

  /** A whole catalog: its five tables, plus the rowid counters of the two
      tables whose generated keys the program reads back. */
  datatype Tables = Tables(
    images: seq<ImageRow>,
    states: seq<StateRow>,
    proxies: seq<ProxyRow>,
    resources: seq<ResourceRow>,
    links: seq<LinkRow>,
    nextStateKey: int,
    nextResourceKey: int)

  /** One state of an image together with the resources linked to it. */
  datatype HistoryResource = HistoryResource(state: StateRow, resources: seq<ResourceRow>)

  /** Everything the program knows about one image. */
  datatype ImageHistory = ImageHistory(currentId: int, path: string, history: seq<HistoryResource>)

  /** `new ImageHistory()`: CurrentId defaults to 0, Path is not yet set, History is empty. */
  const NewImageHistory := ImageHistory(0, "", [])

  /** Index of the first element satisfying `p`, as LINQ's `First` searches. */
  function FirstIndex<T>(s: seq<T>, p: T -> bool): (r: Option<nat>)
    ensures r.Some? ==> r.value < |s| && p(s[r.value])
    ensures r.Some? ==> forall j :: 0 <= j < r.value ==> !p(s[j])
    ensures r.None? <==> forall j :: 0 <= j < |s| ==> !p(s[j])
  {
    if s == [] then None
    else if p(s[0]) then Some(0)
    else match FirstIndex(s[1..], p)
      case None => None
      case Some(i) => Some(i + 1)
  }

  /** LINQ's `First`: the first element satisfying `p`, or None where `First` throws. */
  function First<T>(s: seq<T>, p: T -> bool): (r: Option<T>)
    ensures r.Some? ==> r.value in s && p(r.value)
    ensures r.None? <==> forall x :: x in s ==> !p(x)
  {
    match FirstIndex(s, p)
    case None => None
    case Some(i) => Some(s[i])
  }

  /** What `First` returns is the earliest element satisfying `p`. */
  lemma FirstIsEarliest<T>(s: seq<T>, p: T -> bool)
    requires First(s, p).Some?
    ensures exists j :: 0 <= j < |s| && s[j] == First(s, p).value && forall i :: 0 <= i < j ==> !p(s[i])
  {
    var j := FirstIndex(s, p).value;
    assert s[j] == First(s, p).value;
  }

  /** `imageHistoryStates.First(x => x._id_int_64 == id)` */
  function FindState(states: seq<StateRow>, id: int): (r: Option<StateRow>)
    ensures r.Some? ==> r.value in states && r.value.id == id
    ensures r.None? <==> forall s :: s in states ==> s.id != id
  {
    First(states, (s: StateRow) => s.id == id)
  }

  /** `resources.First(x => x._id_int_64 == id)` */
  function FindResource(resources: seq<ResourceRow>, id: int): (r: Option<ResourceRow>)
    ensures r.Some? ==> r.value in resources && r.value.id == id
    ensures r.None? <==> forall x :: x in resources ==> x.id != id
  {
    First(resources, (x: ResourceRow) => x.id == id)
  }

  /** `SELECT * FROM images WHERE _id_int_64 = @id` read with `QueryFirstAsync`. */
  function FindImageById(images: seq<ImageRow>, id: int): (r: Option<ImageRow>)
    ensures r.Some? ==> r.value in images && r.value.id == id
    ensures r.None? <==> forall x :: x in images ==> x.id != id
  {
    First(images, (x: ImageRow) => x.id == id)
  }

  /** `destinationImages.First(x => x.path_wide_ch == path)._id_int_64` */
  function MatchId(images: seq<ImageRow>, path: string): (r: Option<int>)
    ensures r.Some? ==> exists x :: x in images && x.path == path && x.id == r.value
    ensures r.None? <==> forall x :: x in images ==> x.path != path
  {
    match First(images, (x: ImageRow) => x.path == path)
    case None => None
    case Some(x) => Some(x.id)
  }

  /** When several destination images share the path, the earliest one's id is taken. */
  lemma MatchIdEarliest(images: seq<ImageRow>, path: string)
    requires MatchId(images, path).Some?
    ensures exists j :: 0 <= j < |images| && images[j].path == path && images[j].id == MatchId(images, path).value &&
                        forall i :: 0 <= i < j ==> images[i].path != path
  {
    FirstIsEarliest(images, (x: ImageRow) => x.path == path);
  }
}
