/**
 * The transactional writer (lines 95-168). For every destination image of
 * the re-keyed dictionary, in enumeration order, and every entry of its
 * history, in order, it inserts
 *   1. a copy of the entry's state (the eight attribute columns, a new key),
 *   2. a proxy row binding the image to that new key, flagged current when
 *      the entry's ORIGINAL state id is the image's CurrentId,
 *   3. for every resource of the entry, a copy of the resource whose path is
 *      reduced to its file name, then a link row from the new state key to
 *      the new resource key.
 *
 * A `Job` is one entry to copy; `Jobs` lists them in the order the nested
 * loops visit them, and `WriteJobs` is what the inserts do to the tables.
 */
module Writer {
  import opened Rows
  import opened Dictionary
  import opened Paths
  import opened Store
  import opened Loader

  /** One history entry to copy, with its destination image and the
      `current` value its proxy row gets. */
  datatype Job = Job(imageId: int, current: int, entry: HistoryResource)

  /** A resource to copy, with the index of the job whose state owns it. */
  datatype Owned = Owned(job: nat, resource: ResourceRow)

  // ---------------------------------------------------------------------
  // Which rows are written, in which order
  // ---------------------------------------------------------------------

  /** Lines 102-130 for image `k`: one job per history entry, in order; line
      129 sets `current` to 1 exactly for an entry whose original state id is
      the image's CurrentId. */
  function JobsOf(k: int, item: ImageHistory): (jobs: seq<Job>)
    ensures |jobs| == |item.history|
    ensures forall j :: 0 <= j < |jobs| ==>
              jobs[j].imageId == k && jobs[j].entry == item.history[j] &&
              (jobs[j].current == 1 <==> item.history[j].state.id == item.currentId) &&
              (jobs[j].current == 0 <==> item.history[j].state.id != item.currentId)
  {
    seq(|item.history|, j requires 0 <= j < |item.history| =>
      Job(k, if item.history[j].state.id == item.currentId then 1 else 0, item.history[j]))
  }

  /** Lines 100-102: the jobs of the images `ks`, image after image. */
  function Jobs(d: Dict, ks: seq<int>): (jobs: seq<Job>)
    requires forall k :: k in ks ==> k in d.values
    decreases |ks|
  {
    if ks == [] then []
    else
      var k := ks[|ks| - 1];
      Jobs(d, ks[..|ks| - 1]) + JobsOf(k, d.values[k])
  }

  /** Every job of the dictionary, in the order the writer visits them. */
  function AllJobs(d: Dict): (jobs: seq<Job>)
    requires d.Valid()
  {
    assert forall k :: k in d.keys ==> k in d.values;
    Jobs(d, d.keys)
  }

  /** The jobs of image `k`. */
  function JobsFor(jobs: seq<Job>, k: int): (js: seq<Job>)
    decreases |jobs|
  {
    if jobs == [] then []
    else JobsFor(jobs[..|jobs| - 1], k) + (if jobs[|jobs| - 1].imageId == k then [jobs[|jobs| - 1]] else [])
  }

  /** The number of jobs whose proxy row is flagged current. */
  function CurrentCount(jobs: seq<Job>): (n: nat)
    decreases |jobs|
  {
    if jobs == [] then 0
    else CurrentCount(jobs[..|jobs| - 1]) + (if jobs[|jobs| - 1].current == 1 then 1 else 0)
  }

  /** The statements one job issues: state, proxy, then resource and link per resource. */
  function JobStatements(job: Job): (n: nat)
  {
    2 + 2 * |job.entry.resources|
  }

  /** The statements a run of jobs issues. */
  function Statements(jobs: seq<Job>): (n: nat)
    decreases |jobs|
  {
    if jobs == [] then 0 else Statements(jobs[..|jobs| - 1]) + JobStatements(jobs[|jobs| - 1])
  }

  /** The resources `rs` of job `n`. */
  function OwnedBy(n: nat, rs: seq<ResourceRow>): (os: seq<Owned>)
    ensures |os| == |rs|
    decreases |rs|
  {
    if rs == [] then [] else OwnedBy(n, rs[..|rs| - 1]) + [Owned(n, rs[|rs| - 1])]
  }

  /** The resources of the jobs, each with its job's index, in insertion order. */
  function Owners(jobs: seq<Job>): (os: seq<Owned>)
    decreases |jobs|
  {
    if jobs == [] then []
    else Owners(jobs[..|jobs| - 1]) + OwnedBy(|jobs| - 1, jobs[|jobs| - 1].entry.resources)
  }

  /** The statement with ordinal `failAt` is among the `n` statements issued from ordinal `from`. */
  predicate Hits(failAt: Option<nat>, from: nat, n: nat) {
    failAt.Some? && from <= failAt.value < from + n
  }

  // ---------------------------------------------------------------------
  // What the inserts do to the tables
  // ---------------------------------------------------------------------

  /** Lines 133-155: the resources `rs` of the state with new key `key`. */
  function WriteResources(t: Tables, key: int, rs: seq<ResourceRow>): (t': Tables)
    decreases |rs|
  {
    if rs == [] then t
    else
      var t1 := WriteResources(t, key, rs[..|rs| - 1]);
      var x := rs[|rs| - 1];
      AddLink(AddResource(t1, x.markedToDelete, FileName(x.path)), key, t1.nextResourceKey)
  }

  /** Lines 108-155: one job. */
  function WriteJob(t: Tables, job: Job): (t': Tables)
  {
    var key := t.nextStateKey;
    var t1 := AddProxy(AddState(t, job.entry.state.attrs), ProxyRow(job.imageId, key, job.current));
    WriteResources(t1, key, job.entry.resources)
  }

  /** Lines 100-159: the jobs, in order. */
  function WriteJobs(t: Tables, jobs: seq<Job>): (t': Tables)
    decreases |jobs|
  {
    if jobs == [] then t else WriteJob(WriteJobs(t, jobs[..|jobs| - 1]), jobs[|jobs| - 1])
  }

  // ---------------------------------------------------------------------
  // The rows appended, in closed form
  // ---------------------------------------------------------------------

  /** Copies of the resources `rs` with keys from `r0`, paths reduced to file names. */
  function ResourceCopies(r0: int, rs: seq<ResourceRow>): (copies: seq<ResourceRow>)
    ensures |copies| == |rs|
    decreases |rs|
  {
    if rs == [] then []
    else
      var x := rs[|rs| - 1];
      ResourceCopies(r0, rs[..|rs| - 1]) + [ResourceRow(r0 + |rs| - 1, x.markedToDelete, FileName(x.path))]
  }

  /** `n` link rows from state key `key` to the resource keys from `r0`. */
  function LinkCopies(key: int, r0: int, n: nat): (links: seq<LinkRow>)
    ensures |links| == n
  {
    if n == 0 then [] else LinkCopies(key, r0, n - 1) + [LinkRow(key, r0 + n - 1)]
  }

  /** The new state rows of the jobs: keys from `k0`, the original attributes. */
  function StateCopies(k0: int, jobs: seq<Job>): (states: seq<StateRow>)
    ensures |states| == |jobs|
    decreases |jobs|
  {
    if jobs == [] then []
    else StateCopies(k0, jobs[..|jobs| - 1]) + [StateRow(k0 + |jobs| - 1, jobs[|jobs| - 1].entry.state.attrs)]
  }

  /** The new proxy rows of the jobs, pointing at the new state keys from `k0`. */
  function ProxyCopies(k0: int, jobs: seq<Job>): (proxies: seq<ProxyRow>)
    ensures |proxies| == |jobs|
    decreases |jobs|
  {
    if jobs == [] then []
    else
      var job := jobs[|jobs| - 1];
      ProxyCopies(k0, jobs[..|jobs| - 1]) + [ProxyRow(job.imageId, k0 + |jobs| - 1, job.current)]
  }

  /** The new resource rows of the owned resources, keys from `r0`. */
  function OwnedCopies(r0: int, os: seq<Owned>): (copies: seq<ResourceRow>)
    ensures |copies| == |os|
    decreases |os|
  {
    if os == [] then []
    else
      var x := os[|os| - 1].resource;
      OwnedCopies(r0, os[..|os| - 1]) + [ResourceRow(r0 + |os| - 1, x.markedToDelete, FileName(x.path))]
  }

  /** The new link rows: from the new key of the owning job's state to the new resource key. */
  function OwnedLinks(k0: int, r0: int, os: seq<Owned>): (links: seq<LinkRow>)
    ensures |links| == |os|
    decreases |os|
  {
    if os == [] then []
    else OwnedLinks(k0, r0, os[..|os| - 1]) + [LinkRow(k0 + os[|os| - 1].job, r0 + |os| - 1)]
  }

  /** The tables after the jobs: every table but `images` gains exactly the
      copies, after its old rows, and the counters advance by the number of
      keys taken. */
  ghost predicate Appended(t: Tables, jobs: seq<Job>, t': Tables) {
    var os := Owners(jobs);
    t'.images == t.images &&
    t'.states == t.states + StateCopies(t.nextStateKey, jobs) &&
    t'.proxies == t.proxies + ProxyCopies(t.nextStateKey, jobs) &&
    t'.resources == t.resources + OwnedCopies(t.nextResourceKey, os) &&
    t'.links == t.links + OwnedLinks(t.nextStateKey, t.nextResourceKey, os) &&
    t'.nextStateKey == t.nextStateKey + |jobs| &&
    t'.nextResourceKey == t.nextResourceKey + |os|
  }

  // ---------------------------------------------------------------------
  // Properties of the write
  // ---------------------------------------------------------------------

  /** The resources of one state: each becomes a copy under the next resource
      key, with its file name for a path, and a link from `key` to that copy. */
  lemma {:induction false} WriteResourcesForm(t: Tables, key: int, rs: seq<ResourceRow>)
    ensures WriteResources(t, key, rs) ==
              t.(resources := t.resources + ResourceCopies(t.nextResourceKey, rs),
                 links := t.links + LinkCopies(key, t.nextResourceKey, |rs|),
                 nextResourceKey := t.nextResourceKey + |rs|)
    decreases |rs|
  {
    if rs != [] {
      var init := rs[..|rs| - 1];
      var x := rs[|rs| - 1];
      WriteResourcesForm(t, key, init);
      var r0 := t.nextResourceKey;
      var row := ResourceRow(r0 + |init|, x.markedToDelete, FileName(x.path));
      assert t.resources + ResourceCopies(r0, init) + [row] == t.resources + (ResourceCopies(r0, init) + [row]);
      assert t.links + LinkCopies(key, r0, |init|) + [LinkRow(key, r0 + |init|)] ==
             t.links + (LinkCopies(key, r0, |init|) + [LinkRow(key, r0 + |init|)]);
    }
  }

  /** The resources of a state touch only `resources`, `links` and their counter. */
  lemma {:induction false} WriteResourcesKeeps(t: Tables, key: int, rs: seq<ResourceRow>)
    ensures var t' := WriteResources(t, key, rs);
            t'.images == t.images && t'.states == t.states && t'.proxies == t.proxies &&
            t'.nextStateKey == t.nextStateKey
    decreases |rs|
  {
    if rs != [] {
      WriteResourcesKeeps(t, key, rs[..|rs| - 1]);
    }
  }

  /** One job adds one state copy under the next state key. */
  lemma WriteJobState(t: Tables, job: Job)
    ensures WriteJob(t, job).images == t.images
    ensures WriteJob(t, job).states == t.states + [StateRow(t.nextStateKey, job.entry.state.attrs)]
    ensures WriteJob(t, job).nextStateKey == t.nextStateKey + 1
  {
    var t2 := AddProxy(AddState(t, job.entry.state.attrs), ProxyRow(job.imageId, t.nextStateKey, job.current));
    WriteResourcesKeeps(t2, t.nextStateKey, job.entry.resources);
  }

  /** One job adds one proxy row, pointing at the new state key. */
  lemma WriteJobProxy(t: Tables, job: Job)
    ensures WriteJob(t, job).proxies == t.proxies + [ProxyRow(job.imageId, t.nextStateKey, job.current)]
  {
    var t2 := AddProxy(AddState(t, job.entry.state.attrs), ProxyRow(job.imageId, t.nextStateKey, job.current));
    WriteResourcesKeeps(t2, t.nextStateKey, job.entry.resources);
  }

  /** One job adds the copies of its resources and their links from the new state key. */
  lemma WriteJobResources(t: Tables, job: Job)
    ensures WriteJob(t, job).resources == t.resources + ResourceCopies(t.nextResourceKey, job.entry.resources)
    ensures WriteJob(t, job).links == t.links + LinkCopies(t.nextStateKey, t.nextResourceKey, |job.entry.resources|)
    ensures WriteJob(t, job).nextResourceKey == t.nextResourceKey + |job.entry.resources|
  {
    var t2 := AddProxy(AddState(t, job.entry.state.attrs), ProxyRow(job.imageId, t.nextStateKey, job.current));
    WriteResourcesForm(t2, t.nextStateKey, job.entry.resources);
  }

  lemma {:induction false} OwnedCopiesAppend(r0: int, os: seq<Owned>, n: nat, rs: seq<ResourceRow>)
    ensures OwnedCopies(r0, os + OwnedBy(n, rs)) == OwnedCopies(r0, os) + ResourceCopies(r0 + |os|, rs)
    decreases |rs|
  {
    if rs != [] {
      var init := rs[..|rs| - 1];
      var x := rs[|rs| - 1];
      OwnedCopiesAppend(r0, os, n, init);
      var all := os + OwnedBy(n, rs);
      assert OwnedBy(n, rs) == OwnedBy(n, init) + [Owned(n, x)];
      assert all[..|all| - 1] == os + OwnedBy(n, init) && all[|all| - 1] == Owned(n, x);
      var row := ResourceRow(r0 + |os| + |init|, x.markedToDelete, FileName(x.path));
      assert OwnedCopies(r0, os) + ResourceCopies(r0 + |os|, init) + [row] ==
             OwnedCopies(r0, os) + (ResourceCopies(r0 + |os|, init) + [row]);
    } else {
      assert os + OwnedBy(n, rs) == os;
    }
  }

  lemma {:induction false} OwnedLinksAppend(k0: int, r0: int, os: seq<Owned>, n: nat, rs: seq<ResourceRow>)
    ensures OwnedLinks(k0, r0, os + OwnedBy(n, rs)) == OwnedLinks(k0, r0, os) + LinkCopies(k0 + n, r0 + |os|, |rs|)
    decreases |rs|
  {
    if rs != [] {
      var init := rs[..|rs| - 1];
      var x := rs[|rs| - 1];
      OwnedLinksAppend(k0, r0, os, n, init);
      var all := os + OwnedBy(n, rs);
      assert OwnedBy(n, rs) == OwnedBy(n, init) + [Owned(n, x)];
      assert all[..|all| - 1] == os + OwnedBy(n, init) && all[|all| - 1] == Owned(n, x);
      var row := LinkRow(k0 + n, r0 + |os| + |init|);
      assert OwnedLinks(k0, r0, os) + LinkCopies(k0 + n, r0 + |os|, |init|) + [row] ==
             OwnedLinks(k0, r0, os) + (LinkCopies(k0 + n, r0 + |os|, |init|) + [row]);
    } else {
      assert os + OwnedBy(n, rs) == os;
    }
  }

  /** The state copies of the jobs, after the old states, under consecutive new keys. */
  lemma {:induction false} WriteJobsStates(t: Tables, jobs: seq<Job>)
    ensures WriteJobs(t, jobs).images == t.images
    ensures WriteJobs(t, jobs).states == t.states + StateCopies(t.nextStateKey, jobs)
    ensures WriteJobs(t, jobs).nextStateKey == t.nextStateKey + |jobs|
    decreases |jobs|
  {
    if jobs != [] {
      var init, job := jobs[..|jobs| - 1], jobs[|jobs| - 1];
      WriteJobsStates(t, init);
      WriteJobState(WriteJobs(t, init), job);
      var srow := StateRow(t.nextStateKey + |init|, job.entry.state.attrs);
      assert t.states + StateCopies(t.nextStateKey, init) + [srow] == t.states + (StateCopies(t.nextStateKey, init) + [srow]);
    }
  }

  /** The proxy rows of the jobs, after the old ones, each pointing at its job's new state key. */
  lemma {:induction false} WriteJobsProxies(t: Tables, jobs: seq<Job>)
    ensures WriteJobs(t, jobs).proxies == t.proxies + ProxyCopies(t.nextStateKey, jobs)
    decreases |jobs|
  {
    if jobs != [] {
      var init, job := jobs[..|jobs| - 1], jobs[|jobs| - 1];
      WriteJobsProxies(t, init);
      WriteJobsStates(t, init);
      WriteJobProxy(WriteJobs(t, init), job);
      var prow := ProxyRow(job.imageId, t.nextStateKey + |init|, job.current);
      assert t.proxies + ProxyCopies(t.nextStateKey, init) + [prow] == t.proxies + (ProxyCopies(t.nextStateKey, init) + [prow]);
    }
  }

  /** The resource copies of the jobs, after the old ones, under consecutive new keys. */
  lemma {:induction false} WriteJobsResources(t: Tables, jobs: seq<Job>)
    ensures WriteJobs(t, jobs).resources == t.resources + OwnedCopies(t.nextResourceKey, Owners(jobs))
    ensures WriteJobs(t, jobs).nextResourceKey == t.nextResourceKey + |Owners(jobs)|
    decreases |jobs|
  {
    if jobs != [] {
      var init, job := jobs[..|jobs| - 1], jobs[|jobs| - 1];
      var os, rs, r0 := Owners(init), job.entry.resources, t.nextResourceKey;
      WriteJobsResources(t, init);
      WriteJobResources(WriteJobs(t, init), job);
      OwnedCopiesAppend(r0, os, |init|, rs);
      assert t.resources + OwnedCopies(r0, os) + ResourceCopies(r0 + |os|, rs) ==
             t.resources + (OwnedCopies(r0, os) + ResourceCopies(r0 + |os|, rs));
    }
  }

  /** The link rows of the jobs, after the old ones: each from its owner's new
      state key to its resource's new key. */
  lemma {:induction false} WriteJobsLinks(t: Tables, jobs: seq<Job>)
    ensures WriteJobs(t, jobs).links == t.links + OwnedLinks(t.nextStateKey, t.nextResourceKey, Owners(jobs))
    decreases |jobs|
  {
    if jobs != [] {
      var init, job := jobs[..|jobs| - 1], jobs[|jobs| - 1];
      var os, rs, k0, r0 := Owners(init), job.entry.resources, t.nextStateKey, t.nextResourceKey;
      WriteJobsLinks(t, init);
      WriteJobsStates(t, init);
      WriteJobsResources(t, init);
      WriteJobResources(WriteJobs(t, init), job);
      OwnedLinksAppend(k0, r0, os, |init|, rs);
      assert t.links + OwnedLinks(k0, r0, os) + LinkCopies(k0 + |init|, r0 + |os|, |rs|) ==
             t.links + (OwnedLinks(k0, r0, os) + LinkCopies(k0 + |init|, r0 + |os|, |rs|));
    }
  }

  /** The whole write in closed form: see Appended. */
  lemma WriteJobsForm(t: Tables, jobs: seq<Job>)
    ensures Appended(t, jobs, WriteJobs(t, jobs))
  {
    WriteJobsStates(t, jobs);
    WriteJobsProxies(t, jobs);
    WriteJobsResources(t, jobs);
    WriteJobsLinks(t, jobs);
  }

  lemma {:induction false} StateCopiesAt(k0: int, jobs: seq<Job>, i: nat)
    requires i < |jobs|
    ensures StateCopies(k0, jobs)[i] == StateRow(k0 + i, jobs[i].entry.state.attrs)
    decreases |jobs|
  {
    if i < |jobs| - 1 {
      var init := jobs[..|jobs| - 1];
      StateCopiesAt(k0, init, i);
      assert init[i] == jobs[i];
    }
  }

  lemma {:induction false} ProxyCopiesAt(k0: int, jobs: seq<Job>, i: nat)
    requires i < |jobs|
    ensures ProxyCopies(k0, jobs)[i] == ProxyRow(jobs[i].imageId, k0 + i, jobs[i].current)
    decreases |jobs|
  {
    if i < |jobs| - 1 {
      var init := jobs[..|jobs| - 1];
      ProxyCopiesAt(k0, init, i);
      assert init[i] == jobs[i];
    }
  }

  lemma {:induction false} OwnedCopiesAt(r0: int, os: seq<Owned>, m: nat)
    requires m < |os|
    ensures OwnedCopies(r0, os)[m] == ResourceRow(r0 + m, os[m].resource.markedToDelete, FileName(os[m].resource.path))
    decreases |os|
  {
    if m < |os| - 1 {
      var init := os[..|os| - 1];
      OwnedCopiesAt(r0, init, m);
      assert init[m] == os[m];
    }
  }

  lemma {:induction false} OwnedLinksAt(k0: int, r0: int, os: seq<Owned>, m: nat)
    requires m < |os|
    ensures OwnedLinks(k0, r0, os)[m] == LinkRow(k0 + os[m].job, r0 + m)
    decreases |os|
  {
    if m < |os| - 1 {
      var init := os[..|os| - 1];
      OwnedLinksAt(k0, r0, init, m);
      assert init[m] == os[m];
    }
  }

  lemma {:induction false} OwnedByAt(n: nat, rs: seq<ResourceRow>, m: nat)
    requires m < |rs|
    ensures OwnedBy(n, rs)[m] == Owned(n, rs[m])
    decreases |rs|
  {
    if m < |rs| - 1 {
      var init := rs[..|rs| - 1];
      OwnedByAt(n, init, m);
      assert init[m] == rs[m];
    }
  }

  /** Every copied resource belongs to one of the jobs: it is one of that job's resources. */
  lemma {:induction false} OwnersAt(jobs: seq<Job>, m: nat)
    requires m < |Owners(jobs)|
    ensures Owners(jobs)[m].job < |jobs|
    ensures Owners(jobs)[m].resource in jobs[Owners(jobs)[m].job].entry.resources
    decreases |jobs|
  {
    var init := jobs[..|jobs| - 1];
    var os := Owners(init);
    var rs := jobs[|jobs| - 1].entry.resources;
    if m < |os| {
      OwnersAt(init, m);
      assert init[os[m].job] == jobs[os[m].job];
    } else {
      OwnedByAt(|jobs| - 1, rs, m - |os|);
    }
  }

  /** Every appended proxy row points at the state copy of its own job
      (WriteJobsForm shows these are exactly the rows the write appends). */
  lemma ProxyReferences(k0: int, jobs: seq<Job>)
    ensures forall i :: 0 <= i < |jobs| ==> ProxyCopies(k0, jobs)[i].stateId == StateCopies(k0, jobs)[i].id
  {
    forall i | 0 <= i < |jobs|
      ensures ProxyCopies(k0, jobs)[i].stateId == StateCopies(k0, jobs)[i].id
    {
      StateCopiesAt(k0, jobs, i);
      ProxyCopiesAt(k0, jobs, i);
    }
  }

  /** Every appended link row joins the state copy of the job owning the
      resource to that resource's copy. */
  lemma LinkReferences(k0: int, r0: int, jobs: seq<Job>, m: nat)
    requires m < |Owners(jobs)|
    ensures Owners(jobs)[m].job < |jobs|
    ensures Owners(jobs)[m].resource in jobs[Owners(jobs)[m].job].entry.resources
    ensures OwnedLinks(k0, r0, Owners(jobs))[m].key == StateCopies(k0, jobs)[Owners(jobs)[m].job].id
    ensures OwnedLinks(k0, r0, Owners(jobs))[m].val == OwnedCopies(r0, Owners(jobs))[m].id
  {
    var os := Owners(jobs);
    OwnersAt(jobs, m);
    OwnedCopiesAt(r0, os, m);
    OwnedLinksAt(k0, r0, os, m);
    StateCopiesAt(k0, jobs, os[m].job);
  }

  /** On a destination whose keys are below its counters, the copies take
      keys that no existing row has and that differ from each other, and the
      counters stay ahead of every key. */
  lemma WriteJobsFresh(t: Tables, jobs: seq<Job>)
    requires KeysBelow(t)
    ensures KeysBelow(WriteJobs(t, jobs))
    ensures forall s, c :: s in t.states && c in StateCopies(t.nextStateKey, jobs) ==> s.id != c.id
    ensures forall x, c :: x in t.resources && c in OwnedCopies(t.nextResourceKey, Owners(jobs)) ==> x.id != c.id
    ensures forall i, j :: 0 <= i < j < |jobs| ==> StateCopies(t.nextStateKey, jobs)[i].id != StateCopies(t.nextStateKey, jobs)[j].id
    ensures forall i, j :: 0 <= i < j < |Owners(jobs)| ==>
              OwnedCopies(t.nextResourceKey, Owners(jobs))[i].id != OwnedCopies(t.nextResourceKey, Owners(jobs))[j].id
  {
    WriteJobsForm(t, jobs);
    var t' := WriteJobs(t, jobs);
    var os := Owners(jobs);
    var k0, r0 := t.nextStateKey, t.nextResourceKey;
    forall c | c in StateCopies(k0, jobs)
      ensures k0 <= c.id < k0 + |jobs|
    {
      var i :| 0 <= i < |jobs| && StateCopies(k0, jobs)[i] == c;
      StateCopiesAt(k0, jobs, i);
    }
    forall c | c in OwnedCopies(r0, os)
      ensures r0 <= c.id < r0 + |os|
    {
      var m :| 0 <= m < |os| && OwnedCopies(r0, os)[m] == c;
      OwnedCopiesAt(r0, os, m);
    }
    forall i, j | 0 <= i < j < |jobs|
      ensures StateCopies(k0, jobs)[i].id != StateCopies(k0, jobs)[j].id
    {
      StateCopiesAt(k0, jobs, i);
      StateCopiesAt(k0, jobs, j);
    }
    forall i, j | 0 <= i < j < |os|
      ensures OwnedCopies(r0, os)[i].id != OwnedCopies(r0, os)[j].id
    {
      OwnedCopiesAt(r0, os, i);
      OwnedCopiesAt(r0, os, j);
    }
    assert forall s :: s in t'.states ==> s in t.states || s in StateCopies(k0, jobs);
    assert forall x :: x in t'.resources ==> x in t.resources || x in OwnedCopies(r0, os);
  }

  // ---------------------------------------------------------------------
  // Which rows each image gets
  // ---------------------------------------------------------------------

  lemma {:induction false} JobsForConcat(a: seq<Job>, b: seq<Job>, k: int)
    ensures JobsFor(a + b, k) == JobsFor(a, k) + JobsFor(b, k)
    decreases |b|
  {
    if b == [] {
      assert a + b == a;
    } else {
      var b0 := b[..|b| - 1];
      assert (a + b)[..|a + b| - 1] == a + b0;
      JobsForConcat(a, b0, k);
    }
  }

  /** Jobs all of image `k` are kept whole, jobs none of which are of image `k` vanish. */
  lemma {:induction false} JobsForUniform(jobs: seq<Job>, k: int)
    ensures (forall j :: 0 <= j < |jobs| ==> jobs[j].imageId == k) ==> JobsFor(jobs, k) == jobs
    ensures (forall j :: 0 <= j < |jobs| ==> jobs[j].imageId != k) ==> JobsFor(jobs, k) == []
    decreases |jobs|
  {
    if jobs != [] {
      var init := jobs[..|jobs| - 1];
      JobsForUniform(init, k);
      assert forall j :: 0 <= j < |init| ==> init[j] == jobs[j];
      assert jobs == init + [jobs[|jobs| - 1]];
    }
  }

  /** The rows written for image `k` are exactly its own history entries, in
      history order, when `k` is among the images visited, and none otherwise. */
  lemma {:induction false} JobsForImage(d: Dict, ks: seq<int>, k: int)
    requires forall k' :: k' in ks ==> k' in d.values
    requires Distinct(ks)
    ensures JobsFor(Jobs(d, ks), k) == if k in ks then JobsOf(k, d.values[k]) else []
    decreases |ks|
  {
    if ks != [] {
      var init := ks[..|ks| - 1];
      var last := ks[|ks| - 1];
      assert ks == init + [last];
      assert Distinct(init);
      JobsForImage(d, init, k);
      JobsForConcat(Jobs(d, init), JobsOf(last, d.values[last]), k);
      JobsForUniform(JobsOf(last, d.values[last]), k);
      if last == k {
        assert k !in init;
      }
    }
  }

  /** Over the whole dictionary: image `k` gets a proxy row per entry of its
      history, in order, exactly when it is a key. */
  lemma AllJobsFor(d: Dict, k: int)
    requires d.Valid()
    ensures JobsFor(AllJobs(d), k) == if k in d.values then JobsOf(k, d.values[k]) else []
  {
    JobsForImage(d, d.keys, k);
  }

  /** The entries of a history whose state is the given one. */
  function EntriesOf(h: seq<HistoryResource>, stateId: int): (es: seq<HistoryResource>)
    decreases |h|
  {
    if h == [] then []
    else EntriesOf(h[..|h| - 1], stateId) + (if h[|h| - 1].state.id == stateId then [h[|h| - 1]] else [])
  }

  lemma {:induction false} CurrentCountEntries(k: int, item: ImageHistory, n: nat)
    requires n <= |item.history|
    ensures CurrentCount(JobsOf(k, item)[..n]) == |EntriesOf(item.history[..n], item.currentId)|
    decreases n
  {
    if n > 0 {
      CurrentCountEntries(k, item, n - 1);
      assert JobsOf(k, item)[..n][..n - 1] == JobsOf(k, item)[..n - 1];
      assert item.history[..n][..n - 1] == item.history[..n - 1];
    }
  }

  /** An image gets as many proxy rows flagged current as its history has
      entries whose original state is CurrentId. */
  lemma CurrentRows(k: int, item: ImageHistory)
    ensures CurrentCount(JobsOf(k, item)) == |EntriesOf(item.history, item.currentId)|
  {
    CurrentCountEntries(k, item, |item.history|);
    assert JobsOf(k, item)[..|item.history|] == JobsOf(k, item);
    assert item.history[..|item.history|] == item.history;
  }

  /** The history's state ids are pairwise distinct. */
  ghost predicate DistinctStates(item: ImageHistory) {
    forall i, j :: 0 <= i < j < |item.history| ==> item.history[i].state.id != item.history[j].state.id
  }

  lemma {:induction false} CurrentCountPrefix(k: int, item: ImageHistory, n: nat)
    requires DistinctStates(item) && n <= |item.history|
    ensures CurrentCount(JobsOf(k, item)[..n]) <= 1
    ensures CurrentCount(JobsOf(k, item)[..n]) == 1 <==>
              exists j :: 0 <= j < n && item.history[j].state.id == item.currentId
    decreases n
  {
    if n > 0 {
      var jobs := JobsOf(k, item);
      CurrentCountPrefix(k, item, n - 1);
      assert jobs[..n][..n - 1] == jobs[..n - 1];
    }
  }

  /** With distinct state ids, at most one of an image's proxy rows is
      flagged current, and exactly one when CurrentId names a state of its
      history. */
  lemma CurrentCountOne(k: int, item: ImageHistory)
    requires DistinctStates(item)
    ensures CurrentCount(JobsOf(k, item)) <= 1
    ensures CurrentCount(JobsOf(k, item)) == 1 <==> CurrentListed(item)
  {
    CurrentCountPrefix(k, item, |item.history|);
    assert JobsOf(k, item)[..|item.history|] == JobsOf(k, item);
  }

  /** The number of proxy rows of image `k` flagged current. */
  function CurrentProxies(ps: seq<ProxyRow>, k: int): (n: nat)
    decreases |ps|
  {
    if ps == [] then 0
    else CurrentProxies(ps[..|ps| - 1], k) + (if ps[|ps| - 1].imageId == k && ps[|ps| - 1].current == 1 then 1 else 0)
  }

  lemma {:induction false} CurrentProxiesConcat(a: seq<ProxyRow>, b: seq<ProxyRow>, k: int)
    ensures CurrentProxies(a + b, k) == CurrentProxies(a, k) + CurrentProxies(b, k)
    decreases |b|
  {
    if b == [] {
      assert a + b == a;
    } else {
      var b0 := b[..|b| - 1];
      assert (a + b)[..|a + b| - 1] == a + b0;
      CurrentProxiesConcat(a, b0, k);
    }
  }

  /** The new proxy rows of image `k` flagged current are one per job of
      image `k` flagged current. */
  lemma {:induction false} CurrentProxiesOfCopies(k0: int, jobs: seq<Job>, k: int)
    ensures CurrentProxies(ProxyCopies(k0, jobs), k) == CurrentCount(JobsFor(jobs, k))
    decreases |jobs|
  {
    if jobs != [] {
      var init := jobs[..|jobs| - 1];
      var job := jobs[|jobs| - 1];
      CurrentProxiesOfCopies(k0, init, k);
      var ps := ProxyCopies(k0, jobs);
      assert ps[..|ps| - 1] == ProxyCopies(k0, init);
      assert ps[|ps| - 1] == ProxyRow(job.imageId, k0 + |jobs| - 1, job.current);
      assert JobsFor(jobs, k) == JobsFor(init, k) + (if job.imageId == k then [job] else []);
      if job.imageId == k {
        var js := JobsFor(init, k) + [job];
        assert js[..|js| - 1] == JobsFor(init, k);
        assert CurrentCount(js) == CurrentCount(JobsFor(init, k)) + (if job.current == 1 then 1 else 0);
      } else {
        assert JobsFor(jobs, k) == JobsFor(init, k);
      }
    }
  }

  /** After the write, image `k` has its old current proxy rows, all kept,
      plus one new one per entry of its history whose original state is its
      CurrentId. So an image that already had a current row in the
      destination can end with two, and with distinct state ids the write
      adds at most one. */
  lemma TableCurrentRows(t: Tables, d: Dict, k: int)
    requires d.Valid()
    ensures CurrentProxies(WriteJobs(t, AllJobs(d)).proxies, k) ==
              CurrentProxies(t.proxies, k) +
              (if k in d.values then |EntriesOf(d.values[k].history, d.values[k].currentId)| else 0)
    ensures k in d.values && DistinctStates(d.values[k]) ==>
              CurrentProxies(WriteJobs(t, AllJobs(d)).proxies, k) <= CurrentProxies(t.proxies, k) + 1
  {
    var jobs := AllJobs(d);
    WriteJobsProxies(t, jobs);
    CurrentProxiesConcat(t.proxies, ProxyCopies(t.nextStateKey, jobs), k);
    CurrentProxiesOfCopies(t.nextStateKey, jobs, k);
    AllJobsFor(d, k);
    if k in d.values {
      CurrentRows(k, d.values[k]);
      if DistinctStates(d.values[k]) {
        CurrentCountOne(k, d.values[k]);
      }
    }
  }

  /** The statements of consecutive runs of jobs add up. */
  lemma {:induction false} StatementsConcat(a: seq<Job>, b: seq<Job>)
    ensures Statements(a + b) == Statements(a) + Statements(b)
    decreases |b|
  {
    if b == [] {
      assert a + b == a;
    } else {
      var b0 := b[..|b| - 1];
      assert (a + b)[..|a + b| - 1] == a + b0;
      StatementsConcat(a, b0);
    }
  }

  // ---------------------------------------------------------------------
  // Step lemmas for the loops
  // ---------------------------------------------------------------------

  lemma WriteJobsSnoc(t: Tables, jobs: seq<Job>, job: Job)
    ensures WriteJobs(t, jobs + [job]) == WriteJob(WriteJobs(t, jobs), job)
    ensures Statements(jobs + [job]) == Statements(jobs) + JobStatements(job)
  {
    assert (jobs + [job])[..|jobs|] == jobs;
  }

  lemma JobsSnoc(d: Dict, ks: seq<int>, i: nat)
    requires i < |ks| && forall k :: k in ks ==> k in d.values
    ensures Jobs(d, ks[..i + 1]) == Jobs(d, ks[..i]) + JobsOf(ks[i], d.values[ks[i]])
  {
    assert ks[..i + 1][..i] == ks[..i];
  }

  /** The jobs of the first `i` images come first among the jobs of all of them. */
  lemma {:induction false} JobsPrefix(d: Dict, ks: seq<int>, i: nat)
    requires i <= |ks| && forall k :: k in ks ==> k in d.values
    ensures Jobs(d, ks[..i]) <= Jobs(d, ks)
    decreases |ks| - i
  {
    if i == |ks| {
      assert ks[..i] == ks;
    } else {
      JobsSnoc(d, ks, i);
      JobsPrefix(d, ks, i + 1);
      var a, b, c := Jobs(d, ks[..i]), Jobs(d, ks[..i + 1]), Jobs(d, ks);
      assert b[..|a|] == a;
      assert c[..|b|][..|a|] == c[..|a|];
    }
  }

  lemma {:induction false} WriteJobsConcat(t: Tables, a: seq<Job>, b: seq<Job>)
    ensures WriteJobs(t, a + b) == WriteJobs(WriteJobs(t, a), b)
    decreases |b|
  {
    if b == [] {
      assert a + b == a;
    } else {
      var b0 := b[..|b| - 1];
      assert (a + b)[..|a + b| - 1] == a + b0;
      WriteJobsConcat(t, a, b0);
    }
  }

  /** A prefix of a run of jobs issues no more statements than the run. */
  lemma StatementsPrefix(a: seq<Job>, b: seq<Job>)
    requires a <= b
    ensures Statements(a) <= Statements(b)
  {
    assert b == a + b[|a|..];
    StatementsConcat(a, b[|a|..]);
  }

  // ---------------------------------------------------------------------
  // The loops
  // ---------------------------------------------------------------------

  /** Lines 108-155: the statements for entry `j` of image `k`'s history. The
      entry is written whole unless the store rejects one of its statements;
      the first rejected statement ends it. */
  method WriteEntry(tx: Transaction, k: int, item: ImageHistory, j: nat) returns (r: Status)
    requires j < |item.history|
    modifies tx
    ensures r.Done? <==> !Hits(tx.failAt, old(tx.issued), JobStatements(JobsOf(k, item)[j]))
    ensures r.Done? ==> tx.staged == WriteJob(old(tx.staged), JobsOf(k, item)[j]) &&
                        tx.issued == old(tx.issued) + JobStatements(JobsOf(k, item)[j])
    ensures r.Failed? ==> tx.failAt.Some? && r.error == StoreFailure(tx.failAt.value)
  {
    ghost var job := JobsOf(k, item)[j];
    ghost var t0, n0 := tx.staged, tx.issued;
    var history := item.history[j];
    var inserted := tx.InsertState(history.state.attrs);
    if inserted.Err? {
      return Failed(inserted.error);
    }
    var key := inserted.value;
    var proxied := tx.InsertProxy(ProxyRow(k, key, if history.state.id == item.currentId then 1 else 0));
    if proxied.Failed? {
      return proxied;
    }
    ghost var t1 := tx.staged;
    var rs := history.resources;
    for m := 0 to |rs|
      invariant tx.issued == n0 + 2 + 2 * m
      invariant tx.staged == WriteResources(t1, key, rs[..m])
      invariant !Hits(tx.failAt, n0, 2 + 2 * m)
    {
      var resource := rs[m];
      var newPath := FileName(resource.path);
      var resId := tx.InsertResource(resource.markedToDelete, newPath);
      if resId.Err? {
        return Failed(resId.error);
      }
      var linked := tx.InsertLink(key, resId.value);
      if linked.Failed? {
        return linked;
      }
      assert rs[..m + 1][..m] == rs[..m];
    }
    assert rs[..|rs|] == rs;
    r := Done;
  }

  /** Writing the jobs of the images `ks[..i+1]` is writing those of
      `ks[..i]` and then those of image `ks[i]`, and the statements they
      issue add up without passing those of all the images. */
  lemma ImageStep(t: Tables, d: Dict, ks: seq<int>, i: nat)
    requires i < |ks| && forall k :: k in ks ==> k in d.values
    ensures var before, now := Jobs(d, ks[..i]), JobsOf(ks[i], d.values[ks[i]]);
            WriteJobs(t, Jobs(d, ks[..i + 1])) == WriteJobs(WriteJobs(t, before), now) &&
            Statements(Jobs(d, ks[..i + 1])) == Statements(before) + Statements(now) &&
            Statements(before) + Statements(now) <= Statements(Jobs(d, ks))
  {
    JobsSnoc(d, ks, i);
    JobsPrefix(d, ks, i + 1);
    StatementsPrefix(Jobs(d, ks[..i + 1]), Jobs(d, ks));
    StatementsConcat(Jobs(d, ks[..i]), JobsOf(ks[i], d.values[ks[i]]));
    WriteJobsConcat(t, Jobs(d, ks[..i]), JobsOf(ks[i], d.values[ks[i]]));
  }

  /** A run of `a` statements then `b` more, within `total`: a rejection in
      the second part is a rejection in the total, and no rejection in
      either part is none in both together. */
  lemma HitsSplit(f: Option<nat>, n0: nat, a: nat, b: nat, total: nat)
    requires a + b <= total
    ensures !Hits(f, n0, a) && Hits(f, n0 + a, b) ==> Hits(f, n0, total)
    ensures !Hits(f, n0, a) && !Hits(f, n0 + a, b) ==> !Hits(f, n0, a + b)
  {
  }

  /** Lines 102-157: every entry of image `k`'s history, in order. */
  method WriteImage(tx: Transaction, k: int, item: ImageHistory) returns (r: Status)
    modifies tx
    ensures r.Done? <==> !Hits(tx.failAt, old(tx.issued), Statements(JobsOf(k, item)))
    ensures r.Done? ==> tx.staged == WriteJobs(old(tx.staged), JobsOf(k, item)) &&
                        tx.issued == old(tx.issued) + Statements(JobsOf(k, item))
    ensures r.Failed? ==> tx.failAt.Some? && r.error == StoreFailure(tx.failAt.value)
  {
    ghost var t0, n0 := tx.staged, tx.issued;
    ghost var jobs := JobsOf(k, item);
    for j := 0 to |item.history|
      invariant tx.staged == WriteJobs(t0, jobs[..j])
      invariant tx.issued == n0 + Statements(jobs[..j])
      invariant !Hits(tx.failAt, n0, Statements(jobs[..j]))
    {
      assert jobs[..j + 1] == jobs[..j] + [jobs[j]];
      WriteJobsSnoc(t0, jobs[..j], jobs[j]);
      StatementsPrefix(jobs[..j + 1], jobs);
      r := WriteEntry(tx, k, item, j);
      if r.Failed? {
        return;
      }
    }
    assert jobs[..|item.history|] == jobs;
    r := Done;
  }

  /** Lines 98-159: every entry of every image of the dictionary, in
      enumeration order. The run completes exactly when the store rejects
      none of the statements it issues, and then the staged tables are the
      tables `WriteJobs` describes; otherwise it stops at the rejected one. */
  method WriteHistories(tx: Transaction, d: HistoryDictionary) returns (r: Status)
    requires d.Contents().Valid()
    modifies tx
    ensures r.Done? <==> !Hits(tx.failAt, old(tx.issued), Statements(AllJobs(d.Contents())))
    ensures r.Done? ==> tx.staged == WriteJobs(old(tx.staged), AllJobs(d.Contents())) &&
                        tx.issued == old(tx.issued) + Statements(AllJobs(d.Contents()))
    ensures r.Failed? ==> tx.failAt.Some? && r.error == StoreFailure(tx.failAt.value)
  {
    ghost var dc := d.Contents();
    ghost var t0, n0 := tx.staged, tx.issued;
    var keys := d.keys;
    assert forall k :: k in keys ==> k in dc.values;
    for i := 0 to |keys|
      invariant tx.staged == WriteJobs(t0, Jobs(dc, keys[..i]))
      invariant tx.issued == n0 + Statements(Jobs(dc, keys[..i]))
      invariant !Hits(tx.failAt, n0, Statements(Jobs(dc, keys[..i])))
    {
      var k := keys[i];
      var item := d.values[k];
      ImageStep(t0, dc, keys, i);
      HitsSplit(tx.failAt, n0, Statements(Jobs(dc, keys[..i])), Statements(JobsOf(k, item)), Statements(Jobs(dc, keys)));
      r := WriteImage(tx, k, item);
      if r.Failed? {
        return;
      }
    }
    assert keys[..|keys|] == keys;
    r := Done;
  }
}
