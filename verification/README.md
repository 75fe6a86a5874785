# Luminar catalog history transfer, modelled in Dafny

`Program.cs` copies the edit history of images from one Luminar catalog (a
SQLite database) to another catalog that holds the same images under other
keys. The program runs in four steps:

1. **Loader (lines 31-75).** It joins the source tables
   `image_history_state_proxy`, `img_history_states`,
   `img_history_states_resources` and `resources` into one `ImageHistory` per
   source image id. Each `ImageHistory` holds a `CurrentId`, the ordered list
   of `HistoryResource` entries (a state plus its resources) and the image's
   `Path`.
2. **Resolver (lines 85-93).** It empties that same dictionary and refills it
   under the id of the first destination image whose path equals the
   history's path.
3. **Path normaliser (lines 136-137).** It splits a resource path on `/` and
   `\` and keeps the last piece.
4. **Writer (lines 95-168).** Inside one transaction on the destination, for
   every image and every history entry, it inserts:
   - a copy of the state;
   - a proxy row flagged current exactly when the original state is the
     image's `CurrentId`;
   - per resource, a resource row with the normalised path and a link row
     joining the two new keys.

   A failing insert rolls the transaction back.

The model is split into these modules:

- `Rows`: row types, catalog tables, errors and LINQ `First`.
- `Paths`: the normaliser.
- `Dictionary`: `Dictionary<long, ImageHistory>`, with its insertion-ordered
  enumeration, as the class `HistoryDictionary` and its value `Dict`.
- `Loader` and `Resolver`: the loops as methods over `HistoryDictionary`.
  Each loop is proved against a snoc-recursive specification function
  (`Group`, `WithPaths`, `Rekey`).
- `Store`: the classes `Catalog` and `Transaction`.
  - The transaction stages inserts on a copy of the destination tables.
  - A key generated by an insert (`last_insert_rowid()`) is taken from a
    counter that only increases.
  - `failAt` names the ordinal of the first statement the store rejects.
- `Writer`: the nested writer loops as methods, specified by `WriteJobs` over
  the list of `Job`s they visit.
- `Migration`: the whole run.

The program as written always rolls back, even when every insert succeeded
(line 162, marked TESTING; the commit on line 161 is commented out). The
model takes the ending (`Commit` or `Rollback`) as a parameter of
`Migration.Migrate`, so both endings are stated.

## Model

| member | source | states |
|---|---|---|
| Rows.First | Program.cs:46 | LINQ `First`: a returned element is in the sequence and satisfies the predicate; None exactly when no element does, which is where `First` throws. |
| Rows.FirstIndex | Program.cs:46 | The index found satisfies the predicate and every earlier element fails it. None exactly when no element satisfies it, which is where `First` throws. |
| Rows.FirstIsEarliest | Program.cs:46 | What `First` returns is the earliest element satisfying the predicate. |
| Rows.FindState | Program.cs:46 | Some state row with the proxy's state id; None exactly when no state row has that id. |
| Rows.FindResource | Program.cs:55 | Some resource row with the linked id; None exactly when no resource row has it. |
| Rows.FindImageById | Program.cs:69-72 | Some source image row with the id; None exactly when no row has it (`QueryFirstAsync` throws). |
| Rows.MatchId | Program.cs:91 | Some id of a destination image with the path; None exactly when no destination image has the path. |
| Rows.MatchIdEarliest | Program.cs:91 | With several images on the path, the id is that of the first one in destination order. |
| Paths.FileName | Program.cs:136-137 | Defined as the last piece of `Split`. `FileNameIsLastSegment`, `FileNameAfterLastSeparator` and the lemmas below state what it returns. |
| Paths.Split | Program.cs:136 | `Split('/', '\\')` always yields at least one piece. |
| Paths.SplitPieces | Program.cs:136 | There is one more piece than there are separators, and no piece holds a separator. |
| Paths.SplitJoin | Program.cs:136 | Joining the pieces back with the separators gives the input. |
| Paths.FileNameIsLastSegment | Program.cs:136-137 | The result is a suffix of the path, holds neither `/` nor `\`, and is preceded by a separator unless it is the whole path. |
| Paths.FileNameOfPlainName | Program.cs:136-137 | A path without separators is returned unchanged. |
| Paths.FileNameAfterLastSeparator | Program.cs:136-137 | The result is everything after the last separator. |
| Paths.FileNameIdempotent | Program.cs:136-137 | Normalising twice equals normalising once. |
| Paths.FileNameMixedSeparators | Program.cs:136-137 | `"a/b\\c/d.jpg"` gives `"d.jpg"`. |
| Paths.FileNameTrailingSeparator | Program.cs:136-137 | A path ending in a separator, `/` or `\`, gives the empty name. |
| Dictionary.Dict.Put | Program.cs:92 | `dict[k] = v` keeps the dictionary well formed: every key is listed once, and the listed keys are exactly the map's. |
| Dictionary.Dict.Items | Program.cs:85 | Enumeration yields one value per key. |
| Dictionary.ItemsInKeyOrder | Program.cs:85 | The i-th enumerated value is the value of the i-th key in insertion order. |
| Dictionary.Dedupe | Program.cs:34-35 | The first occurrences of a key sequence: distinct, and exactly the keys it contains. |
| Dictionary.DedupeSnoc | Program.cs:34-35 | A new key goes to the end; a known key keeps its place. |
| Dictionary.PutPut | Program.cs:92 | Setting a key twice keeps the second value, so a later item overwrites an earlier one. |
| Dictionary.HistoryDictionary.constructor | Program.cs:28 | A new dictionary is empty. |
| Dictionary.HistoryDictionary.ContainsKey | Program.cs:34 | True exactly when the key is present. |
| Dictionary.HistoryDictionary.Set | Program.cs:35 | The new contents are the old with the key set, an old key keeping its place. |
| Dictionary.HistoryDictionary.Clear | Program.cs:86 | The dictionary is empty afterwards. |
| Loader.LinkedIds | Program.cs:53 | Defined as the `val` of every link row whose `key` is the state id, in link-row order (the `Where` filter). `LoadEntryMeaning` ties an entry's resources to it. |
| Loader.LookupResources | Program.cs:53-57 | On success, one resource per linked id, in link-row order, each the row `First` finds. On failure, a linked id that names no resource. |
| Loader.LoadEntry | Program.cs:46-57 | A loaded entry holds the proxy's own state. |
| Loader.LoadEntryMeaning | Program.cs:46-57 | An entry loads iff its state exists and every linked resource exists. It then holds that state and exactly the resources linked to it, in link-row order. |
| Loader.CollectResources | Program.cs:53-57 | The loop's result equals the lookup of every linked id, failing at the first missing resource. |
| Loader.AddEntry | Program.cs:34-59 | Defined as one proxy row's update. It creates the image's history if absent, sets CurrentId to the row's state when flagged current, and appends the entry. `AddEntryKeys` and `AddEntryCurrent` state its effect. |
| Loader.Group | Program.cs:31-62 | Defined as `AddEntry` over the proxy rows in order, failing at the first row whose entry does not load. `GroupSucceeds`, `GroupKeys`, `GroupHistory` and `GroupCurrent` state its result. |
| Loader.LastCurrent | Program.cs:40-43 | Defined as the state of the image's last proxy row flagged current, or 0. `GroupCurrent` equates CurrentId with it. |
| Loader.GroupSucceeds | Program.cs:31-62 | Loading succeeds iff every proxy row's entry loads. |
| Loader.GroupFailsAtFirst | Program.cs:31-62 | A failed load reports the failure of the first proxy row whose entry does not load. |
| Loader.GroupFailureSticks | Program.cs:31-62 | Once a proxy row fails, the rows after it change nothing: the exception ends the loop. |
| Loader.LookupFailureSticks | Program.cs:53-57 | Once a linked resource is missing, later link rows change nothing. |
| Loader.GroupValid | Program.cs:31-62 | The loaded dictionary is well formed. |
| Loader.GroupKeys | Program.cs:33-35 | The dictionary's images are those of the proxy rows, each once, in order of first appearance. |
| Loader.AddEntryKeys | Program.cs:33-35 | One proxy row adds its image at the end when the image is new and keeps the key order otherwise. |
| Loader.GroupHistory | Program.cs:31-62 | An image has an entry iff it has a proxy row. Its history has one entry per proxy row of that image, in proxy-row order, each loaded from that row. |
| Loader.GroupCurrent | Program.cs:40-43 | An image's CurrentId is the state id of its last proxy row flagged current, or 0. |
| Loader.GroupNoCurrent | Program.cs:40-43 | An image none of whose proxy rows is flagged current keeps the default CurrentId 0 (line 172). |
| Loader.LastCurrentNone | Program.cs:40-43 | With no proxy row of the image flagged current, `LastCurrent` is 0. |
| Loader.CurrentInHistory | Program.cs:40-59 | When some proxy row of the image is flagged current, CurrentId is the state id of an entry of its history. |
| Loader.AddEntryCurrent | Program.cs:37-59 | Adding an entry keeps the current state listed, and a current proxy row lists its own state. |
| Loader.LoadHistories | Program.cs:31-62 | The loop leaves the dictionary `Group` describes, or fails with `Group`'s error. |
| Loader.AttachPathsTo | Program.cs:67-75 | Attaching paths keeps the dictionary's keys and key order. |
| Loader.WithPaths | Program.cs:67-75 | Attaching paths keeps the dictionary well formed and in the same key order. |
| Loader.AttachPathsMeaning | Program.cs:67-75 | It succeeds iff every visited key names a source image. Each visited history then takes that image's path and nothing else changes. A failure names the first key without an image. |
| Loader.WithPathsMeaning | Program.cs:67-75 | Over all keys: success iff every image exists, and then each history carries its image's path. |
| Loader.AttachFailureSticks | Program.cs:67-75 | Once an image is missing, the later keys change nothing. |
| Loader.AttachPaths | Program.cs:67-75 | The loop leaves the dictionary `WithPaths` describes, or fails with its error. |
| Resolver.Rekey | Program.cs:89-93 | Defined as `Put` of each item under `MatchId` of its path, in order, failing at the first unmatched path. `RekeySucceeds`, `RekeyKeys` and `RekeyValues` state its result. |
| Resolver.LastMatch | Program.cs:89-93 | The last item whose path matches destination image k; None iff no item matches k. |
| Resolver.RekeyValid | Program.cs:89-93 | The re-keyed dictionary is well formed. |
| Resolver.RekeySucceeds | Program.cs:89-93 | Re-keying succeeds iff every item's path is the path of some destination image. |
| Resolver.RekeyFailsAtFirst | Program.cs:91 | A failure names the path of the first unmatched item, and every earlier item matched. |
| Resolver.RekeyFailureSticks | Program.cs:89-93 | Once an item is unmatched, the later items change nothing. |
| Resolver.RekeyKeys | Program.cs:89-93 | The keys are the matched destination ids, each once, in order of first match. |
| Resolver.RekeyValues | Program.cs:92 | Destination image k is a key iff some item matches it, and then holds the last such item (later overwrites earlier). |
| Resolver.Resolve | Program.cs:85-93 | Clearing and refilling the dictionary leaves exactly `Rekey` of its old enumeration, or fails with `Rekey`'s error. |
| Store.AddState | Program.cs:108-120 | Defined as appending a state row under the state counter's key and advancing the counter. `WriteJobState` and `AddStateFresh` state its effect. |
| Store.AddProxy | Program.cs:123-130 | Defined as appending the proxy row. |
| Store.AddResource | Program.cs:140-145 | Defined as appending a resource row under the resource counter's key and advancing the counter. |
| Store.AddLink | Program.cs:148-154 | Defined as appending the link row. |
| Store.Catalog.constructor | Program.cs:79-80 | A catalog holds the given tables. |
| Store.AddStateFresh | Program.cs:108-120 | The key a state insert takes is held by no existing state, and the counter stays above every key. |
| Store.AddResourceFresh | Program.cs:140-145 | The key a resource insert takes is held by no existing resource, and the counter stays above every key. |
| Store.Transaction.Begin | Program.cs:95 | The transaction stages a copy of the destination's tables and has issued nothing. |
| Store.Transaction.InsertState | Program.cs:108-120 | A rejected statement fails with its ordinal and stages nothing. Otherwise the state row is appended under the counter's key, which is returned. |
| Store.Transaction.InsertProxy | Program.cs:123-130 | A rejected statement fails and stages nothing; otherwise the proxy row is appended. |
| Store.Transaction.InsertResource | Program.cs:140-145 | A rejected statement fails and stages nothing. Otherwise the resource row is appended under the counter's key, which is returned. |
| Store.Transaction.InsertLink | Program.cs:148-154 | A rejected statement fails and stages nothing; otherwise the link row is appended. |
| Store.Transaction.Commit | Program.cs:161 | The destination's tables become the staged ones. |
| Store.Transaction.Rollback | Program.cs:162 | The destination keeps the tables it had. |
| Writer.Jobs | Program.cs:100-102 | Defined as the jobs of the images listed, image after image, each image's jobs in history order. `JobsForImage` states what each image gets. |
| Writer.AllJobs | Program.cs:100-102 | Defined as the jobs of every key, in enumeration order. `AllJobsFor` states what each image gets. |
| Writer.JobsOf | Program.cs:102-130 | One job per history entry, in order, for image k. A job's `current` is 1 iff the entry's original state id is CurrentId, else 0. |
| Writer.WriteResources | Program.cs:133-155 | Defined as `AddResource` with the file name, then `AddLink` from the state's key to the new resource key, per resource in order. `WriteResourcesForm` gives its closed form. |
| Writer.WriteJob | Program.cs:108-155 | Defined as `AddState`, then `AddProxy` with the new key and the job's flag, then `WriteResources`. `WriteJobState`, `WriteJobProxy` and `WriteJobResources` state its effect. |
| Writer.WriteJobs | Program.cs:100-159 | Defined as `WriteJob` for each job in order. `WriteJobsForm` gives the rows it appends. |
| Writer.WriteResourcesForm | Program.cs:133-155 | The resources of one state append their copies (new keys from the counter, normalised paths) and one link per resource from the state's new key. |
| Writer.WriteResourcesKeeps | Program.cs:133-155 | The resource loop leaves the images, states and proxies untouched. |
| Writer.WriteJobState | Program.cs:108-120 | One entry appends exactly one state row: the counter's key and the original attributes. |
| Writer.WriteJobProxy | Program.cs:123-130 | One entry appends exactly one proxy row: its image, the new state key, and its current flag. |
| Writer.WriteJobResources | Program.cs:133-155 | One entry appends one resource row and one link row per resource. |
| Writer.WriteJobsStates | Program.cs:100-159 | The whole write appends exactly the state copies, in job order, after the old rows, and leaves the images untouched. |
| Writer.WriteJobsProxies | Program.cs:100-159 | The whole write appends exactly the proxy copies, in job order. |
| Writer.WriteJobsResources | Program.cs:100-159 | The whole write appends exactly the resource copies, in insertion order. |
| Writer.WriteJobsLinks | Program.cs:100-159 | The whole write appends exactly the link copies, in insertion order. |
| Writer.WriteJobsForm | Program.cs:100-159 | All tables together: each gains exactly its copies, and the counters advance by the keys taken. |
| Writer.StateCopiesAt | Program.cs:108-120 | The i-th new state row has key k0+i and the i-th entry's original attributes. |
| Writer.ProxyCopiesAt | Program.cs:123-130 | The i-th new proxy row has the i-th job's image, key k0+i and the i-th job's flag. |
| Writer.OwnedCopiesAt | Program.cs:136-145 | The m-th new resource row has key r0+m, the original `marked_to_delete_bool` and the normalised path. |
| Writer.OwnedLinksAt | Program.cs:148-154 | The m-th new link row joins the owning job's new state key to the m-th new resource key. |
| Writer.OwnedByAt | Program.cs:133 | Every resource of an entry is owned by that entry's job. |
| Writer.OwnersAt | Program.cs:133 | Every copied resource belongs to a job and is one of that job's resources. |
| Writer.ProxyReferences | Program.cs:123-130 | Every new proxy row references the new state row of its own entry. |
| Writer.LinkReferences | Program.cs:148-154 | Every new link row references the new state row of the entry owning the resource, and that resource's new row. |
| Writer.WriteJobsFresh | Program.cs:108-145 | On a catalog whose keys are below the counters, new state and resource keys clash with no old row, the new state keys are pairwise distinct, and so are the new resource keys. The keys stay below the counters. |
| Writer.JobsForConcat | Program.cs:100-102 | Image k's jobs in two runs are its jobs in the first, then in the second. |
| Writer.JobsForUniform | Program.cs:100-102 | A run of jobs all of image k is kept whole; a run with none of image k contributes nothing. |
| Writer.JobsForImage | Program.cs:100-130 | Over distinct images, image k's rows are exactly its history entries, in history order, and none when k is not visited. |
| Writer.AllJobsFor | Program.cs:100-130 | Over the whole dictionary: image k gets one proxy row per history entry, in order, iff it is a key. |
| Writer.CurrentRows | Program.cs:129 | An image gets as many rows flagged current as its history has entries whose original state is CurrentId. |
| Writer.CurrentCountPrefix | Program.cs:129 | With distinct state ids, a prefix of an image's jobs holds at most one current row. It holds one iff the prefix holds CurrentId's entry. |
| Writer.CurrentCountOne | Program.cs:129 | With distinct state ids, at most one current row per image. Exactly one iff CurrentId names a history entry. |
| Writer.CurrentProxiesConcat | Program.cs:123-130 | The current rows of an image in two runs of proxy rows add up. |
| Writer.CurrentProxiesOfCopies | Program.cs:123-130 | The new proxy rows of image k flagged current are one per job of image k flagged current. |
| Writer.TableCurrentRows | Program.cs:100-130 | After the write, image k keeps all its old current proxy rows and gains one per history entry whose original state is CurrentId. With distinct state ids it gains at most one. |
| Writer.WriteJobsConcat | Program.cs:100-159 | Writing two runs of jobs is writing the first, then the second. |
| Writer.StatementsConcat | Program.cs:100-159 | The statements of two runs add up. |
| Writer.StatementsPrefix | Program.cs:100-159 | A prefix of the jobs issues no more statements than the whole. |
| Writer.WriteEntry | Program.cs:108-155 | Succeeds iff none of the entry's 2 + 2·resources statements is rejected, and then stages `WriteJob`. Otherwise it fails with the rejected statement's ordinal. |
| Writer.WriteImage | Program.cs:102-158 | The same for all entries of one image, in order, staging `WriteJobs` of its jobs. |
| Writer.WriteHistories | Program.cs:100-159 | Succeeds iff no statement of the whole run is rejected, and then stages `WriteJobs` of all jobs in enumeration order. Otherwise it fails at the rejected statement. |
| Migration.Plan | Program.cs:31-93 | A planned dictionary is well formed. |
| Migration.Migrate | Program.cs:95-168 | A failed plan aborts with the destination unchanged. A rejected insert rolls back with the destination unchanged. Without one, a rollback leaves the destination unchanged and a commit leaves exactly `WriteJobs` of the plan. The source is never written. |

## Left out

- SQLite, Dapper and SQL text (lines 20-25, 69, 79-82, 108-154). The tables
  are in-memory sequences of typed rows, and a query is a function on them.
  `dynamic` row access is replaced by one datatype per table.
- `async`/`await`. Nothing runs concurrently, so the steps are sequential
  methods.
- Console output (lines 12, 30, 66, 77, 167) and the argument-count check
  (lines 9-17).
- The dead variable `var i = 0;` (line 61) and the commented-out max-id query
  (lines 104-105).
- Real SQLite rowid semantics. A generated key comes from a per-table
  counter. `KeysBelow` (every key below its counter) is the assumption under
  which the new keys are fresh.
- Which statement a real database rejects, and why. This is a parameter
  (`failAt`), the ordinal of the first rejected statement.
- Exceptions raised by the rollback or commit calls themselves.
- `ImageHistory` and `HistoryResource` are values (datatypes), not mutable
  objects. The loader's in-place updates through `item` (lines 37-59, 74)
  become a write-back of the updated value under the same key. The list
  built at line 85 and the refilled dictionary share these objects, but
  nothing mutates them after line 74, so the order and contents are the
  same. Object identity is not modelled.
- NULL column values. Typed rows cannot hold NULL. In the program a NULL
  `resources.path_wide_ch` makes the `Split` at line 136 throw inside the
  `try`, which rolls back. Under `dynamic`, NULL image paths compare equal at
  line 91. `failAt` covers the rollback outcome, but not its cause.
- Integer widths. Keys and flags are unbounded integers; 64-bit overflow of a
  rowid is not modelled.
- Writer.CurrentCountOne: "at most one current row per image" is proved only
  for histories whose state ids are distinct. Two proxy rows of one image
  naming the same current state both produce a current row, as
  `Writer.CurrentRows` states. `Writer.TableCurrentRows` also shows that
  the destination's own current rows for an image are kept, so an image that
  already has history can end with two current rows. CurrentId defaults to
  0, so an entry whose state id is 0 is flagged current even when no proxy
  row was.
- Paths.FileName: the program keeps the last piece of the split even when it
  is empty, so a trailing separator gives `""`. The model follows the code
  rather than "the last non-empty piece".
- Migration.Migrate: the program as written always rolls back (line 162).
  The commit on the commented-out line 161 is modelled as the `Commit`
  ending.
