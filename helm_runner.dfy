/** pkg/helmrender/runner.go: renders a batch of prepared tasks, keeping a
    cache of the repository URLs whose index is known to be downloaded and
    recorded (`repos`) and a repository file (`storage`). The RenderTasks run
    concurrently in the source; here they run one after another in index
    order, which is one of the interleavings the source allows. */
module HelmRunner {
  import opened Wrappers
  import Yaml
  import opened Resources
  import opened Values
  import opened HelmCommon

  /** A release ready to render: values already composed, repository already chosen. */
  datatype RenderTask = RenderTask(
    values: Values,
    chart: string,
    version: string,
    repo: Entry,
    releaseName: string,
    namespace: string,
    createNamespace: bool,
    skipCRDs: bool,
    replace: bool,
    disableHooks: bool,
    includeCRDs: bool)

  /** The cache state: the repository file and the set of ready URLs. */
  datatype Cache = Cache(storage: seq<Entry>, repos: set<string>)

  /** getAndUpdateRepo: a URL already in the cache returns at once; otherwise
      the index is downloaded (an error changes nothing); an entry whose name
      is already in the file returns without caching the URL; otherwise the
      entry is added and the file written, and only a successful write caches
      the URL. */
  function GetAndUpdateStep(c: Cache, entry: Entry, calls: HelmCalls): (r: (Cache, Option<string>))
    ensures entry.url in c.repos ==> r == (c, None)
    ensures entry.url !in c.repos && calls.downloadIndex(entry).Some? ==> r == (c, calls.downloadIndex(entry))
    ensures entry.url !in c.repos && calls.downloadIndex(entry).None? && Has(c.storage, entry.name) ==> r == (c, None)
    ensures entry.url !in c.repos && r.1.None? && !Has(c.storage, entry.name) ==> Has(r.0.storage, entry.name) && entry.url in r.0.repos
    ensures r.0.repos == c.repos || (r.1.None? && r.0.repos == c.repos + {entry.url})
    ensures c.storage <= r.0.storage
    ensures UniqueNames(c.storage) ==> UniqueNames(r.0.storage)
  {
    if entry.url in c.repos then (c, None)
    else
      match calls.downloadIndex(entry)
      case Some(e) => (c, Some(e))
      case None =>
        if Has(c.storage, entry.name) then (c, None)
        else
          var st := Update(c.storage, entry);
          assert st == c.storage + [entry];
          assert UniqueNames(c.storage) ==> UniqueNames(st) by {
            if UniqueNames(c.storage) {
              UpdateKeepsNamesUnique(c.storage, entry);
            }
          }
          match calls.writeFile(st)
          case Some(e) => (Cache(st, c.repos), Some(e))
          case None => (Cache(st, c.repos + {entry.url}), None)
  }

  /** The chart path options renderChart copies from a RenderTask and its
      repository entry. */
  function PathOptionsFor(t: RenderTask): (o: ChartPathOptions)
    ensures o.version == t.version && o.repoURL == t.repo.url
    ensures o.username == t.repo.username && o.password == t.repo.password
    ensures o.caFile == t.repo.caFile && o.certFile == t.repo.certFile && o.keyFile == t.repo.keyFile
    ensures o.insecureSkipTLSverify == t.repo.insecureSkipTLSverify
    ensures o.passCredentialsAll == t.repo.passCredentialsAll
  {
    ChartPathOptions(t.version, t.repo.url, t.repo.username, t.repo.password, t.repo.caFile,
                     t.repo.certFile, t.repo.keyFile, t.repo.insecureSkipTLSverify, t.repo.passCredentialsAll)
  }

  /** The install action renderChart configures: the task's namespace goes to
      the action configuration only, the install's own namespace is left empty. */
  function InstallFor(t: RenderTask): Install {
    Install(t.namespace, "", t.releaseName, t.createNamespace, t.skipCRDs, t.replace, t.disableHooks,
            t.includeCRDs, PathOptionsFor(t))
  }

  /** renderChart: every failure is returned, the install run's included. */
  function RenderTaskStep(c: Cache, t: RenderTask, calls: HelmCalls): (Cache, Result<Store>) {
    var (c1, err) := GetAndUpdateStep(c, t.repo, calls);
    if err.Some? then (c1, Err(err.value))
    else
      var install := InstallFor(t);
      match calls.locateChart(install.pathOptions, t.chart)
      case Err(e) => (c1, Err("error locating chart: " + e))
      case Ok(path) =>
        match calls.load(path)
        case Err(e) => (c1, Err(e))
        case Ok(chart) =>
          var run := calls.run(install, chart, t.values);
          if run.error.Some? then (c1, Err(run.error.value))
          else (c1, calls.parseManifests(ManifestText(run.release, install.disableHooks)))
  }

  /** Every task rendered in index order, the cache threaded through. */
  function RenderTasks(c: Cache, tasks: seq<RenderTask>, calls: HelmCalls): (r: (Cache, seq<Result<Store>>))
    ensures |r.1| == |tasks|
    decreases |tasks|
  {
    if tasks == [] then (c, [])
    else
      var (c1, outs) := RenderTasks(c, tasks[..|tasks| - 1], calls);
      var (c2, out) := RenderTaskStep(c1, tasks[|tasks| - 1], calls);
      (c2, outs + [out])
  }

  /** The first error in index order, if any. */
  function FirstError(outs: seq<Result<Store>>): (e: Option<string>)
    ensures e.None? <==> forall k :: 0 <= k < |outs| ==> outs[k].Ok?
    ensures e.Some? ==> exists k :: 0 <= k < |outs| && outs[k] == Err(e.value)
                                    && forall j :: 0 <= j < k ==> outs[j].Ok?
    decreases |outs|
  {
    if outs == [] then None
    else
      var init := outs[..|outs| - 1];
      assert forall k :: 0 <= k < |init| ==> outs[k] == init[k];
      match FirstError(init)
      case Some(e) => Some(e)
      case None =>
        var last := outs[|outs| - 1];
        if last.Err? then
          assert outs[|outs| - 1] == Err(last.error);
          Some(last.error)
        else None
  }

  /** The stores of outcomes that all succeeded. */
  function OkValues(outs: seq<Result<Store>>): (r: seq<Store>)
    requires forall k :: 0 <= k < |outs| ==> outs[k].Ok?
    ensures |r| == |outs| && forall k :: 0 <= k < |outs| ==> r[k] == outs[k].value
    decreases |outs|
  {
    if outs == [] then [] else OkValues(outs[..|outs| - 1]) + [outs[|outs| - 1].value]
  }

  /** The stores absorbed into an empty one, in index order; the error each
      AbsorbAll reports is dropped and what it absorbed before it is kept. */
  function AbsorbInOrder(stores: seq<Store>): Store
    decreases |stores|
  {
    if stores == [] then [] else AbsorbAll(AbsorbInOrder(stores[..|stores| - 1]), stores[|stores| - 1]).0
  }

  /** What RenderCharts returns for the outcomes of its tasks: no partial
      result when any task failed. */
  function Combined(outs: seq<Result<Store>>): (r: Result<Store>)
    ensures r.Ok? <==> forall k :: 0 <= k < |outs| ==> outs[k].Ok?
    ensures r.Err? ==> Some(r.error) == FirstError(outs)
  {
    match FirstError(outs)
    case Some(e) => Err(e)
    case None => Ok(AbsorbInOrder(OkValues(outs)))
  }

  class Runner {
    const calls: HelmCalls
    var storage: seq<Entry>
    var repos: set<string>

    ghost predicate Valid()
      reads this
    {
      UniqueNames(storage)
    }

    /** NewRunner: an empty repository file and an empty cache. */
    constructor (calls: HelmCalls)
      ensures this.calls == calls && storage == [] && repos == {}
      ensures Valid()
    {
      this.calls := calls;
      storage := [];
      repos := {};
    }

    method GetAndUpdateRepo(entry: Entry) returns (err: Option<string>)
      requires Valid()
      modifies this
      ensures Valid()
      ensures (Cache(storage, repos), err) == GetAndUpdateStep(Cache(old(storage), old(repos)), entry, calls)
    {
      if entry.url in repos {
        return None;
      }
      err := calls.downloadIndex(entry);
      if err.Some? {
        return;
      }
      if Has(storage, entry.name) {
        return None;
      }
      storage := Update(storage, entry);
      UpdateKeepsNamesUnique(old(storage), entry);
      err := calls.writeFile(storage);
      if err.Some? {
        return;
      }
      repos := repos + {entry.url};
    }

    method RenderChart(t: RenderTask) returns (r: Result<Store>)
      requires Valid()
      modifies this
      ensures Valid()
      ensures (Cache(storage, repos), r) == RenderTaskStep(Cache(old(storage), old(repos)), t, calls)
    {
      var install := InstallFor(t);
      var err := GetAndUpdateRepo(t.repo);
      if err.Some? {
        return Err(err.value);
      }
      var path := calls.locateChart(install.pathOptions, t.chart);
      if path.Err? {
        return Err("error locating chart: " + path.error);
      }
      var chart := calls.load(path.value);
      if chart.Err? {
        return Err(chart.error);
      }
      var run := calls.run(install, chart.value, t.values);
      if run.error.Some? {
        return Err(run.error.value);
      }
      var text := AssembleManifest(run.release, install.disableHooks);
      r := calls.parseManifests(text);
    }

    method RenderCharts(tasks: seq<RenderTask>) returns (r: Result<Store>)
      requires Valid()
      modifies this
      ensures Valid()
      ensures Cache(storage, repos) == RenderTasks(Cache(old(storage), old(repos)), tasks, calls).0
      ensures r == Combined(RenderTasks(Cache(old(storage), old(repos)), tasks, calls).1)
    {
      var results := new Store[|tasks|](_ => []);
      var failed: Option<string> := None;
      ghost var start := Cache(storage, repos);
      ghost var outs: seq<Result<Store>> := [];
      for i := 0 to |tasks|
        invariant Valid()
        invariant (Cache(storage, repos), outs) == RenderTasks(start, tasks[..i], calls)
        invariant failed == FirstError(outs)
        invariant Recorded(results, outs)
      {
        failed, outs := RenderInto(tasks, i, results, start, outs, failed);
      }
      assert tasks[..|tasks|] == tasks;
      r := Collect(results, outs, failed);
    }

    /** One iteration of RenderCharts: task i is rendered, its store goes
        into slot i, and the first error is kept. */
    method RenderInto(tasks: seq<RenderTask>, i: nat, results: array<Store>, ghost start: Cache,
                      ghost outs: seq<Result<Store>>, failed: Option<string>)
      returns (failed': Option<string>, ghost outs': seq<Result<Store>>)
      requires Valid() && i < |tasks| == results.Length
      requires (Cache(storage, repos), outs) == RenderTasks(start, tasks[..i], calls)
      requires failed == FirstError(outs) && Recorded(results, outs)
      modifies this, results
      ensures Valid()
      ensures (Cache(storage, repos), outs') == RenderTasks(start, tasks[..i + 1], calls)
      ensures failed' == FirstError(outs') && Recorded(results, outs')
    {
      assert tasks[..i + 1][..i] == tasks[..i];
      var out := RenderChart(tasks[i]);
      RenderTasksSnoc(start, tasks[..i + 1], calls);
      failed' := Record(results, i, outs, failed, out);
      outs' := outs + [out];
    }
  }

  /** The outcomes so far have their stores in the result slots. */
  ghost predicate Recorded(results: array<Store>, outs: seq<Result<Store>>)
    reads results
  {
    |outs| <= results.Length && forall k :: 0 <= k < |outs| && outs[k].Ok? ==> results[k] == outs[k].value
  }

  /** One task's outcome: its store goes into its slot, and the first error
      is kept. */
  method Record(results: array<Store>, i: nat, ghost outs: seq<Result<Store>>, failed: Option<string>, out: Result<Store>)
    returns (failed': Option<string>)
    requires i == |outs| < results.Length && Recorded(results, outs)
    requires failed == FirstError(outs)
    modifies results
    ensures Recorded(results, outs + [out])
    ensures failed' == FirstError(outs + [out])
  {
    FirstErrorSnoc(outs, out);
    failed' := failed;
    if out.Err? {
      if failed.None? {
        failed' := Some(out.error);
      }
    } else {
      results[i] := out.value;
    }
  }

  /** The end of RenderCharts: the first error, or every result absorbed in
      index order. */
  method Collect(results: array<Store>, ghost outs: seq<Result<Store>>, failed: Option<string>) returns (r: Result<Store>)
    requires |outs| == results.Length
    requires failed == FirstError(outs)
    requires Recorded(results, outs)
    ensures r == Combined(outs)
  {
    if failed.Some? {
      return Err(failed.value);
    }
    assert results[..] == OkValues(outs);
    var res := AbsorbResults(results);
    return Ok(res);
  }

  /** The absorb loop of RenderCharts. */
  method AbsorbResults(results: array<Store>) returns (res: Store)
    ensures res == AbsorbInOrder(results[..])
  {
    res := [];
    for i := 0 to results.Length
      invariant res == AbsorbInOrder(results[..i])
    {
      assert results[..i + 1][..i] == results[..i];
      res := AbsorbAll(res, results[i]).0;
    }
    assert results[..results.Length] == results[..];
  }

  lemma RenderTasksSnoc(c: Cache, tasks: seq<RenderTask>, calls: HelmCalls)
    requires |tasks| > 0
    ensures var n := |tasks| - 1;
      var before := RenderTasks(c, tasks[..n], calls);
      var step := RenderTaskStep(before.0, tasks[n], calls);
      RenderTasks(c, tasks, calls) == (step.0, before.1 + [step.1])
  {
  }

  lemma FirstErrorSnoc(outs: seq<Result<Store>>, out: Result<Store>)
    ensures FirstError(outs + [out]) ==
      if FirstError(outs).Some? then FirstError(outs) else if out.Err? then Some(out.error) else None
  {
    assert (outs + [out])[..|outs|] == outs;
  }

  // ----- properties of the cache and of the batch -----

  /** An entry whose name is already in the file is downloaded but its URL is
      not cached, so the next call with it downloads again and ends the same way. */
  lemma NamePresentNotCached(c: Cache, entry: Entry, calls: HelmCalls)
    requires entry.url !in c.repos && Has(c.storage, entry.name)
    ensures var r := GetAndUpdateStep(c, entry, calls);
      && r.0 == c
      && entry.url !in r.0.repos
      && GetAndUpdateStep(r.0, entry, calls) == r
  {
  }

  /** After a call that added the entry and cached its URL, the next call with
      the same entry does nothing. */
  lemma CachedAfterSuccess(c: Cache, entry: Entry, calls: HelmCalls)
    requires entry.url !in c.repos && !Has(c.storage, entry.name)
    requires GetAndUpdateStep(c, entry, calls).1.None?
    ensures var c1 := GetAndUpdateStep(c, entry, calls).0;
      GetAndUpdateStep(c1, entry, calls) == (c1, None)
  {
  }

  /** Once absorbing the first `i` stores has brought in an identity, the
      document found for it never changes: later tasks cannot replace it. */
  lemma {:induction false} EarlierDocumentStays(stores: seq<Store>, i: nat, id: ResId)
    requires i <= |stores|
    requires id in Ids(AbsorbInOrder(stores[..i]))
    ensures Get(AbsorbInOrder(stores), id) == Get(AbsorbInOrder(stores[..i]), id)
    decreases |stores|
  {
    if i < |stores| {
      var init := stores[..|stores| - 1];
      assert init[..i] == stores[..i];
      EarlierDocumentStays(init, i, id);
      AbsorbAllGet(AbsorbInOrder(init), stores[|stores| - 1], id);
    } else {
      assert stores[..i] == stores;
    }
  }

  /** A document found after absorbing comes from the task whose absorbing
      first brought its identity in. */
  lemma {:induction false} FoundInFirstTask(stores: seq<Store>, id: ResId)
    requires Get(AbsorbInOrder(stores), id).Some?
    ensures exists j ::
      && 0 <= j < |stores|
      && id !in Ids(AbsorbInOrder(stores[..j]))
      && id in Ids(AbsorbInOrder(stores[..j + 1]))
      && Get(AbsorbInOrder(stores), id) == Get(stores[j], id)
    decreases |stores|
  {
    var n := |stores| - 1;
    var init := stores[..n];
    assert stores[..n + 1] == stores;
    AbsorbAllGet(AbsorbInOrder(init), stores[n], id);
    if id in Ids(AbsorbInOrder(init)) {
      FoundInFirstTask(init, id);
      var j :| 0 <= j < |init| && id !in Ids(AbsorbInOrder(init[..j]))
        && id in Ids(AbsorbInOrder(init[..j + 1]))
        && Get(AbsorbInOrder(init), id) == Get(init[j], id);
      assert init[..j] == stores[..j] && init[..j + 1] == stores[..j + 1];
    } else {
      assert id in Ids(AbsorbInOrder(stores[..n + 1]));
    }
  }

  /** The lowest-indexed task is absorbed whole: every identity it rendered
      finds its document. */
  lemma FirstTaskKept(stores: seq<Store>, id: ResId)
    requires stores != [] && id in Ids(stores[0])
    ensures Get(AbsorbInOrder(stores), id) == Get(stores[0], id)
  {
    var empty: Store := [];
    AbsorbAllPrefix(empty, stores[0]);
    assert stores[..1][..0] == [];
    assert AbsorbInOrder(stores[..1]) == stores[0];
    EarlierDocumentStays(stores, 1, id);
  }

  /** Tasks 0 and 1 both render identity X, and task 1 also renders Y after it:
      task 0's X is kept, task 1's X is refused, and Y is never absorbed. */
  lemma CollisionKeepsEarlier(x: ResId, y: ResId, b0: Yaml.Node, b1: Yaml.Node, b2: Yaml.Node)
    requires x != y
    ensures var s0: Store := [Resource(x, b0)];
      var s1: Store := [Resource(x, b1), Resource(y, b2)];
      AbsorbInOrder([s0, s1]) == s0 && Get(AbsorbInOrder([s0, s1]), y).None?
  {
    var s0: Store := [Resource(x, b0)];
    var s1: Store := [Resource(x, b1), Resource(y, b2)];
    var empty: Store := [];
    AbsorbAllPrefix(empty, s0);
    assert [s0, s1][..1] == [s0] && [s0][..0] == [];
    assert AbsorbInOrder([s0]) == s0;
    assert Ids(s0) == [x];
    assert AbsorbAll(s0, s1).0 == s0;
  }
}
