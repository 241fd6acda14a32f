/** pkg/helmrender/helmrender.go: finds the HelmReleases and HelmRepositories
    in a rendered store, and renders every release through a client-only Helm
    install, keeping a repository file of the chart repositories it used. */
module HelmRender {
  import opened Wrappers
  import opened Yaml
  import opened Resources
  import opened Values
  import opened FluxApi
  import opened ValueComposer
  import opened HelmCommon
  import Seqs

  const HELM_RELEASE_GVK := Gvk("helm.toolkit.fluxcd.io", "v2beta1", "HelmRelease")
  const HELM_REPO_V1BETA1_GVK := Gvk("source.toolkit.fluxcd.io", "v1beta1", "HelmRepository")
  const HELM_REPO_V1BETA2_GVK := Gvk("source.toolkit.fluxcd.io", "v1beta2", "HelmRepository")

  // ----- ParseHelmRepo: classification by GVK -----

  /** scheme.Convert into the two typed kinds. */
  datatype Converters = Converters(
    release: Resource -> Result<HelmRelease>,
    repository: Resource -> Result<HelmRepository>)

  predicate IsReleaseDoc(r: Resource) {
    r.id.gvk == HELM_RELEASE_GVK
  }

  predicate IsRepositoryDoc(r: Resource) {
    r.id.gvk == HELM_REPO_V1BETA1_GVK || r.id.gvk == HELM_REPO_V1BETA2_GVK
  }

  /** A deep copy with its apiVersion set to v1beta2, in its id and in its body;
      the original document is a value and stays as it was. */
  function AsV1beta2(r: Resource): (c: Resource)
    ensures c.id == ResId(HELM_REPO_V1BETA2_GVK, r.id.namespace, r.id.name)
    ensures r.body.Mapping? ==>
      && c.body.Mapping?
      && c.body.fields == r.body.fields["apiVersion" := Scalar(ApiVersion(HELM_REPO_V1BETA2_GVK))]
  {
    Resource(ResId(HELM_REPO_V1BETA2_GVK, r.id.namespace, r.id.name),
      match r.body
      case Mapping(f) => Mapping(f["apiVersion" := Scalar(ApiVersion(HELM_REPO_V1BETA2_GVK))])
      case other => other)
  }

  /** A repository document is converted from its v1beta2 copy. */
  function ConvertRepository(conv: Converters, r: Resource): Result<HelmRepository> {
    conv.repository(AsV1beta2(r))
  }

  function RepositoryConverter(conv: Converters): Resource -> Result<HelmRepository> {
    r => ConvertRepository(conv, r)
  }

  /** The releases and repositories found in a store. */
  datatype Catalog = Catalog(releases: seq<HelmRelease>, repositories: seq<HelmRepository>)

  /** The store's documents classified in order; the first failed conversion
      stops the scan. */
  function Classified(rs: seq<Resource>, conv: Converters): Result<Catalog>
    decreases |rs|
  {
    if rs == [] then Ok(Catalog([], []))
    else
      match Classified(rs[..|rs| - 1], conv)
      case Err(e) => Err(e)
      case Ok(c) =>
        var r := rs[|rs| - 1];
        if IsReleaseDoc(r) then
          match conv.release(r)
          case Err(e) => Err("error converting resource: " + e)
          case Ok(hr) => Ok(c.(releases := c.releases + [hr]))
        else if IsRepositoryDoc(r) then
          match ConvertRepository(conv, r)
          case Err(e) => Err("error converting resource: " + e)
          case Ok(repo) => Ok(c.(repositories := c.repositories + [repo]))
        else Ok(c)
  }

  /** Every document converted in order, or the first conversion error. */
  function ConvertAll<T>(rs: seq<Resource>, convert: Resource -> Result<T>): (r: Result<seq<T>>)
    ensures r.Ok? ==> |r.value| == |rs|
    decreases |rs|
  {
    if rs == [] then Ok([])
    else
      match ConvertAll(rs[..|rs| - 1], convert)
      case Err(e) => Err(e)
      case Ok(init) =>
        match convert(rs[|rs| - 1])
        case Err(e) => Err(e)
        case Ok(x) => Ok(init + [x])
  }

  /** The loop of ParseHelmRepo. */
  method Classify(rs: seq<Resource>, conv: Converters) returns (r: Result<Catalog>)
    ensures r == Classified(rs, conv)
  {
    var releases: seq<HelmRelease> := [];
    var repositories: seq<HelmRepository> := [];
    for i := 0 to |rs|
      invariant Classified(rs[..i], conv) == Ok(Catalog(releases, repositories))
    {
      assert rs[..i + 1][..i] == rs[..i];
      var res := rs[i];
      if res.id.gvk == HELM_RELEASE_GVK {
        var release := conv.release(res);
        if release.Err? {
          r := Err("error converting resource: " + release.error);
          ClassifiedErrorSticks(rs, i + 1, conv);
          return;
        }
        releases := releases + [release.value];
      } else if res.id.gvk == HELM_REPO_V1BETA1_GVK || res.id.gvk == HELM_REPO_V1BETA2_GVK {
        var copy := AsV1beta2(res);
        var hrepo := conv.repository(copy);
        if hrepo.Err? {
          r := Err("error converting resource: " + hrepo.error);
          ClassifiedErrorSticks(rs, i + 1, conv);
          return;
        }
        repositories := repositories + [hrepo.value];
      }
    }
    assert rs[..|rs|] == rs;
    r := Ok(Catalog(releases, repositories));
  }

  lemma {:induction false} ClassifiedErrorSticks(rs: seq<Resource>, n: nat, conv: Converters)
    requires n <= |rs|
    requires Classified(rs[..n], conv).Err?
    ensures Classified(rs, conv) == Classified(rs[..n], conv)
    decreases |rs| - n
  {
    if n < |rs| {
      assert rs[..|rs| - 1][..n] == rs[..n];
      ClassifiedErrorSticks(rs[..|rs| - 1], n, conv);
    } else {
      assert rs[..n] == rs;
    }
  }

  /** What the scan should find: every HelmRelease document converted and
      every HelmRepository document converted from its v1beta2 copy. */
  function Expected(rs: seq<Resource>, conv: Converters): Result<Catalog> {
    match ConvertAll(Seqs.Filter(rs, IsReleaseDoc), conv.release)
    case Err(e) => Err(e)
    case Ok(releases) =>
      match ConvertAll(Seqs.Filter(rs, IsRepositoryDoc), RepositoryConverter(conv))
      case Err(e) => Err(e)
      case Ok(repositories) => Ok(Catalog(releases, repositories))
  }

  /** `releases` are exactly the HelmRelease documents and `repositories`
      exactly the v1beta1 and v1beta2 HelmRepository documents, each in store
      order; every other kind is ignored. The scan fails exactly when one of
      those documents fails to convert. */
  lemma {:induction false} ClassifiedExactly(rs: seq<Resource>, conv: Converters)
    ensures Classified(rs, conv).Ok? <==> Expected(rs, conv).Ok?
    ensures Classified(rs, conv).Ok? ==> Classified(rs, conv) == Expected(rs, conv)
    decreases |rs|
  {
    if rs != [] {
      var init := rs[..|rs| - 1];
      var x := rs[|rs| - 1];
      assert rs == init + [x];
      ClassifiedExactly(init, conv);
      Seqs.FilterSnoc(init, x, IsReleaseDoc);
      Seqs.FilterSnoc(init, x, IsRepositoryDoc);
      if IsReleaseDoc(x) {
        ClassifiedReleaseStep(init, x, conv);
      } else if IsRepositoryDoc(x) {
        ClassifiedRepositoryStep(init, x, conv);
      } else {
        assert Seqs.Filter(rs, IsReleaseDoc) == Seqs.Filter(init, IsReleaseDoc);
        assert Seqs.Filter(rs, IsRepositoryDoc) == Seqs.Filter(init, IsRepositoryDoc);
      }
    }
  }

  lemma ClassifiedReleaseStep(init: seq<Resource>, x: Resource, conv: Converters)
    requires IsReleaseDoc(x)
    requires Classified(init, conv).Ok? <==> Expected(init, conv).Ok?
    requires Classified(init, conv).Ok? ==> Classified(init, conv) == Expected(init, conv)
    ensures Classified(init + [x], conv).Ok? <==> Expected(init + [x], conv).Ok?
    ensures Classified(init + [x], conv).Ok? ==> Classified(init + [x], conv) == Expected(init + [x], conv)
  {
    var rs := init + [x];
    assert rs[..|rs| - 1] == init;
    var fr := Seqs.Filter(init, IsReleaseDoc);
    Seqs.FilterSnoc(init, x, IsReleaseDoc);
    Seqs.FilterSnoc(init, x, IsRepositoryDoc);
    assert Seqs.Filter(rs, IsReleaseDoc) == fr + [x];
    assert Seqs.Filter(rs, IsRepositoryDoc) == Seqs.Filter(init, IsRepositoryDoc);
    assert (fr + [x])[..|fr|] == fr;
    if ConvertAll(fr, conv.release).Err? {
      ConvertAllErrorSticks(fr, [x], conv.release);
    }
  }

  lemma ClassifiedRepositoryStep(init: seq<Resource>, x: Resource, conv: Converters)
    requires !IsReleaseDoc(x) && IsRepositoryDoc(x)
    requires Classified(init, conv).Ok? <==> Expected(init, conv).Ok?
    requires Classified(init, conv).Ok? ==> Classified(init, conv) == Expected(init, conv)
    ensures Classified(init + [x], conv).Ok? <==> Expected(init + [x], conv).Ok?
    ensures Classified(init + [x], conv).Ok? ==> Classified(init + [x], conv) == Expected(init + [x], conv)
  {
    var rs := init + [x];
    assert rs[..|rs| - 1] == init;
    var fp := Seqs.Filter(init, IsRepositoryDoc);
    Seqs.FilterSnoc(init, x, IsReleaseDoc);
    Seqs.FilterSnoc(init, x, IsRepositoryDoc);
    assert Seqs.Filter(rs, IsReleaseDoc) == Seqs.Filter(init, IsReleaseDoc);
    assert Seqs.Filter(rs, IsRepositoryDoc) == fp + [x];
    assert (fp + [x])[..|fp|] == fp;
    assert RepositoryConverter(conv)(x) == ConvertRepository(conv, x);
    if ConvertAll(fp, RepositoryConverter(conv)).Err? {
      ConvertAllErrorSticks(fp, [x], RepositoryConverter(conv));
    }
  }

  lemma ConvertAllErrorSticks<T>(a: seq<Resource>, b: seq<Resource>, convert: Resource -> Result<T>)
    requires ConvertAll(a, convert).Err?
    ensures ConvertAll(a + b, convert).Err?
    decreases |b|
  {
    if b == [] {
      assert a + b == a;
    } else {
      assert (a + b)[..|a + b| - 1] == a + b[..|b| - 1];
      ConvertAllErrorSticks(a, b[..|b| - 1], convert);
    }
  }

  // ----- the HelmRepo object -----

  /** What a HelmRepo reads: the rendered store, the repositories found in
      it, and the foreign calls. */
  datatype Env = Env(
    resources: Store,
    repositories: seq<HelmRepository>,
    codecs: Codecs,
    calls: HelmCalls)

  /** The repository file step of updateRepo: the entry is named
      "<namespace>-<name>"; a failed index download changes nothing; a name
      already in the file is left as it is; otherwise the entry is added and
      the file is written, and a write error is returned with the entry kept. */
  function UpdateRepoStep(storage: seq<Entry>, hr: HelmRepository, calls: HelmCalls): (r: (seq<Entry>, Option<string>))
    ensures var entry := PlainEntry(hr.namespace + "-" + hr.name, hr.url);
      && (calls.downloadIndex(entry).Some? ==> r == (storage, calls.downloadIndex(entry)))
      && (calls.downloadIndex(entry).None? && Has(storage, entry.name) ==> r == (storage, None))
      && (calls.downloadIndex(entry).None? && !Has(storage, entry.name) ==>
            r.0 == storage + [entry] && r.1 == calls.writeFile(r.0))
      && (r.1.None? ==> Has(r.0, entry.name))
      && (UniqueNames(storage) ==> UniqueNames(r.0))
      && storage <= r.0
  {
    var entry := PlainEntry(hr.namespace + "-" + hr.name, hr.url);
    match calls.downloadIndex(entry)
    case Some(e) => (storage, Some(e))
    case None =>
      if Has(storage, entry.name) then (storage, None)
      else
        var st := Update(storage, entry);
        assert UniqueNames(storage) ==> UniqueNames(st) by {
          if UniqueNames(storage) {
            UpdateKeepsNamesUnique(storage, entry);
          }
        }
        assert st == storage + [entry];
        (st, calls.writeFile(st))
  }

  /** The position of the first repository with the given namespace and name,
      or the number of repositories when there is none. */
  function FindSource(repos: seq<HelmRepository>, namespace: string, name: string): (i: nat)
    ensures i <= |repos|
    ensures i < |repos| ==> repos[i].namespace == namespace && repos[i].name == name
    ensures forall j :: 0 <= j < i ==> !(repos[j].namespace == namespace && repos[j].name == name)
    decreases |repos|
  {
    if repos == [] then 0
    else if repos[0].namespace == namespace && repos[0].name == name then 0
    else 1 + FindSource(repos[1..], namespace, name)
  }

  /** loadHelmChart: only "HelmRepository" sources; the first repository with
      the chart's namespace and the source's name is updated and its URL is
      given to LocateChart. */
  function LoadStep(storage: seq<Entry>, env: Env, hc: HelmChart, install: Install): (seq<Entry>, Result<Chart>) {
    if hc.sourceKind != "HelmRepository" then (storage, Err("unsupported source kind '" + hc.sourceKind + "'"))
    else
      var i := FindSource(env.repositories, hc.namespace, hc.sourceName);
      if i == |env.repositories| then (storage, Err("unable to find source '" + hc.sourceName + "'"))
      else
        var (st, err) := UpdateRepoStep(storage, env.repositories[i], env.calls);
        if err.Some? then (st, Err(err.value))
        else
          var opts := install.pathOptions.(repoURL := env.repositories[i].url);
          match env.calls.locateChart(opts, hc.chart)
          case Err(e) => (st, Err("error locating chart: " + e))
          case Ok(path) => (st, env.calls.load(path))
  }

  /** The install action after loadHelmChart: once the first matching
      repository is updated, its URL is written into the install's chart path
      options, and that install is the one the release is then run with. */
  function LoadedInstall(storage: seq<Entry>, env: Env, hc: HelmChart, install: Install): Install {
    if hc.sourceKind != "HelmRepository" then install
    else
      var i := FindSource(env.repositories, hc.namespace, hc.sourceName);
      if i == |env.repositories| || UpdateRepoStep(storage, env.repositories[i], env.calls).1.Some? then install
      else install.(pathOptions := install.pathOptions.(repoURL := env.repositories[i].url))
  }

  /** buildHelmChartFromTemplate: the chart object named after the release,
      in the source reference's namespace or else the release's own. */
  function BuildHelmChart(hr: HelmRelease): (hc: HelmChart)
    ensures hc.namespace == (if hr.chart.sourceRef.namespace != "" then hr.chart.sourceRef.namespace else hr.namespace)
    ensures hc.name == hr.namespace + "-" + hr.name
  {
    HelmChart(GetHelmChartName(hr), ChartNamespace(hr.chart, hr.namespace),
              hr.chart.chart, hr.chart.version, hr.chart.sourceRef.kind, hr.chart.sourceRef.name)
  }

  /** The install action RenderChart configures: the release namespace goes
      to the action configuration only, the install's own namespace is left
      empty; CRDs are always included and the chart path options start empty. */
  function InstallFor(hr: HelmRelease): Install {
    Install(GetReleaseNamespace(hr), "", GetReleaseName(hr), hr.install.createNamespace, hr.install.skipCRDs,
            hr.install.replace, hr.install.disableHooks, true, NoPathOptions)
  }

  /** RenderChart: compose the values, load the chart, run the install and
      parse the assembled text. An error from the install run itself is not
      looked at; a missing release gives empty text. */
  function RenderStep(storage: seq<Entry>, env: Env, hr: HelmRelease): (seq<Entry>, Result<Store>) {
    match Composed(hr, env.resources, env.codecs)
    case Err(e) => (storage, Err("error composing values: " + e))
    case Ok(values) =>
      var install := InstallFor(hr);
      var (st, chart) := LoadStep(storage, env, BuildHelmChart(hr), install);
      match chart
      case Err(e) => (st, Err(e))
      case Ok(c) =>
        var run := env.calls.run(LoadedInstall(storage, env, BuildHelmChart(hr), install), c, values);
        (st, env.calls.parseManifests(ManifestText(run.release, install.disableHooks)))
  }

  /** RenderAllCharts: the releases rendered in order and appended into one
      store; the first error stops the loop. */
  function RenderAllStep(storage: seq<Entry>, env: Env, releases: seq<HelmRelease>): (seq<Entry>, Result<Store>)
    decreases |releases|
  {
    if releases == [] then (storage, Ok([]))
    else
      var (st, acc) := RenderAllStep(storage, env, releases[..|releases| - 1]);
      match acc
      case Err(e) => (st, Err(e))
      case Ok(res) =>
        var (st2, rendered) := RenderStep(st, env, releases[|releases| - 1]);
        match rendered
        case Err(e) => (st2, Err(e))
        case Ok(r) => (st2, AppendAll(res, r))
  }

  class HelmRepo {
    const env: Env
    const releases: seq<HelmRelease>
    /** The repository file (repo.File), empty when the object is made. */
    var storage: seq<Entry>

    ghost predicate Valid()
      reads this
    {
      UniqueNames(storage)
    }

    constructor (env: Env, releases: seq<HelmRelease>)
      ensures this.env == env && this.releases == releases && storage == []
      ensures Valid()
    {
      this.env := env;
      this.releases := releases;
      storage := [];
    }

    method UpdateRepo(hr: HelmRepository) returns (err: Option<string>)
      requires Valid()
      modifies this
      ensures Valid()
      ensures (storage, err) == UpdateRepoStep(old(storage), hr, env.calls)
    {
      var entry := PlainEntry(hr.namespace + "-" + hr.name, hr.url);
      err := env.calls.downloadIndex(entry);
      if err.Some? {
        return;
      }
      if Has(storage, entry.name) {
        return None;
      }
      storage := Update(storage, entry);
      err := env.calls.writeFile(storage);
    }

    /** The install is passed by pointer in the source; here its updated value
        is returned. */
    method LoadHelmChart(hc: HelmChart, install: Install) returns (r: Result<Chart>, client: Install)
      requires Valid()
      modifies this
      ensures Valid()
      ensures (storage, r) == LoadStep(old(storage), env, hc, install)
      ensures client == LoadedInstall(old(storage), env, hc, install)
    {
      client := install;
      if hc.sourceKind != "HelmRepository" {
        return Err("unsupported source kind '" + hc.sourceKind + "'"), client;
      }
      var repos := env.repositories;
      for i := 0 to |repos|
        invariant storage == old(storage)
        invariant forall j :: 0 <= j < i ==> !(repos[j].namespace == hc.namespace && repos[j].name == hc.sourceName)
      {
        if repos[i].namespace == hc.namespace && repos[i].name == hc.sourceName {
          assert FindSource(repos, hc.namespace, hc.sourceName) == i;
          var err := UpdateRepo(repos[i]);
          if err.Some? {
            return Err(err.value), client;
          }
          client := client.(pathOptions := client.pathOptions.(repoURL := repos[i].url));
          var path := env.calls.locateChart(client.pathOptions, hc.chart);
          if path.Err? {
            return Err("error locating chart: " + path.error), client;
          }
          return env.calls.load(path.value), client;
        }
      }
      return Err("unable to find source '" + hc.sourceName + "'"), client;
    }

    method RenderChart(hr: HelmRelease) returns (r: Result<Store>)
      requires Valid()
      modifies this
      ensures Valid()
      ensures (storage, r) == RenderStep(old(storage), env, hr)
    {
      var values := ComposeValues(hr, env.resources, env.codecs);
      if values.Err? {
        return Err("error composing values: " + values.error);
      }
      var hc := BuildHelmChart(hr);
      var install := InstallFor(hr);
      var chart, client := LoadHelmChart(hc, install);
      if chart.Err? {
        return Err(chart.error);
      }
      var run := env.calls.run(client, chart.value, values.value);
      var text := AssembleManifest(run.release, install.disableHooks);
      r := env.calls.parseManifests(text);
    }

    method RenderAllCharts() returns (r: Result<Store>)
      requires Valid()
      modifies this
      ensures Valid()
      ensures (storage, r) == RenderAllStep(old(storage), env, releases)
    {
      var res: Store := [];
      for i := 0 to |releases|
        invariant Valid()
        invariant (storage, Result<Store>.Ok(res)) == RenderAllStep(old(storage), env, releases[..i])
      {
        assert releases[..i + 1][..i] == releases[..i];
        var rendered := RenderChart(releases[i]);
        if rendered.Err? {
          r := Err(rendered.error);
          RenderAllErrorSticks(old(storage), env, releases, i + 1);
          return;
        }
        var appended := AppendAll(res, rendered.value);
        if appended.Err? {
          r := Err(appended.error);
          RenderAllErrorSticks(old(storage), env, releases, i + 1);
          return;
        }
        res := appended.value;
      }
      assert releases[..|releases|] == releases;
      r := Ok(res);
    }
  }

  /** Once a release fails, the later ones are not rendered: the storage and
      the error stay as they were. */
  lemma {:induction false} RenderAllErrorSticks(storage: seq<Entry>, env: Env, releases: seq<HelmRelease>, n: nat)
    requires n <= |releases|
    requires RenderAllStep(storage, env, releases[..n]).1.Err?
    ensures RenderAllStep(storage, env, releases) == RenderAllStep(storage, env, releases[..n])
    decreases |releases| - n
  {
    if n < |releases| {
      assert releases[..|releases| - 1][..n] == releases[..n];
      RenderAllErrorSticks(storage, env, releases[..|releases| - 1], n);
    } else {
      assert releases[..n] == releases;
    }
  }

  // ----- properties of chart loading and rendering -----

  /** Any source kind other than "HelmRepository" is refused before anything
      is looked up or downloaded. */
  lemma LoadUnsupportedKind(storage: seq<Entry>, env: Env, hc: HelmChart, install: Install)
    requires hc.sourceKind != "HelmRepository"
    ensures LoadStep(storage, env, hc, install) == (storage, Err("unsupported source kind '" + hc.sourceKind + "'"))
  {
  }

  /** Without a repository of the chart's namespace and the source's name the
      chart cannot be found, and nothing is downloaded. */
  lemma LoadNoSource(storage: seq<Entry>, env: Env, hc: HelmChart, install: Install)
    requires hc.sourceKind == "HelmRepository"
    requires forall j :: 0 <= j < |env.repositories| ==>
               !(env.repositories[j].namespace == hc.namespace && env.repositories[j].name == hc.sourceName)
    ensures LoadStep(storage, env, hc, install) == (storage, Err("unable to find source '" + hc.sourceName + "'"))
  {
    assert FindSource(env.repositories, hc.namespace, hc.sourceName) == |env.repositories|;
  }

  /** With several matching repositories, the first one in store order is the
      one updated and whose URL LocateChart receives, together with the
      install's other chart path options; the install keeps that URL. */
  lemma LoadFromFirstMatch(storage: seq<Entry>, env: Env, hc: HelmChart, install: Install, i: nat)
    requires hc.sourceKind == "HelmRepository"
    requires i < |env.repositories|
    requires env.repositories[i].namespace == hc.namespace && env.repositories[i].name == hc.sourceName
    requires forall j :: 0 <= j < i ==>
               !(env.repositories[j].namespace == hc.namespace && env.repositories[j].name == hc.sourceName)
    requires UpdateRepoStep(storage, env.repositories[i], env.calls).1.None?
    ensures var hrepo := env.repositories[i];
      var opts := install.pathOptions.(repoURL := hrepo.url);
      var located := env.calls.locateChart(opts, hc.chart);
      && LoadStep(storage, env, hc, install) ==
           (UpdateRepoStep(storage, hrepo, env.calls).0,
            if located.Err? then Err("error locating chart: " + located.error) else env.calls.load(located.value))
      && LoadedInstall(storage, env, hc, install) == install.(pathOptions := opts)
  {
    assert FindSource(env.repositories, hc.namespace, hc.sourceName) == i;
  }

  /** Loading a chart keeps the repository file's names unique and only ever
      appends to it. */
  lemma LoadStorage(storage: seq<Entry>, env: Env, hc: HelmChart, install: Install)
    requires UniqueNames(storage)
    ensures UniqueNames(LoadStep(storage, env, hc, install).0)
    ensures storage <= LoadStep(storage, env, hc, install).0
  {
  }

  /** The same for rendering one release and for rendering all of them. */
  lemma {:induction false} RenderAllStorage(storage: seq<Entry>, env: Env, releases: seq<HelmRelease>)
    requires UniqueNames(storage)
    ensures UniqueNames(RenderAllStep(storage, env, releases).0)
    ensures storage <= RenderAllStep(storage, env, releases).0
    decreases |releases|
  {
    if releases != [] {
      var init := releases[..|releases| - 1];
      RenderAllStorage(storage, env, init);
      var (st, acc) := RenderAllStep(storage, env, init);
      if acc.Ok? {
        var hr := releases[|releases| - 1];
        if Composed(hr, env.resources, env.codecs).Ok? {
          LoadStorage(st, env, BuildHelmChart(hr), InstallFor(hr));
        }
      }
    }
  }

  /** Fail-fast: when the first k releases render and append cleanly and
      release k fails, the whole call fails with release k's error and the
      releases after it are not rendered. */
  lemma RenderAllFailFast(storage: seq<Entry>, env: Env, releases: seq<HelmRelease>, k: nat)
    requires k < |releases|
    requires RenderAllStep(storage, env, releases[..k]).1.Ok?
    requires RenderStep(RenderAllStep(storage, env, releases[..k]).0, env, releases[k]).1.Err?
    ensures RenderAllStep(storage, env, releases) ==
      RenderStep(RenderAllStep(storage, env, releases[..k]).0, env, releases[k])
  {
    assert releases[..k + 1][..k] == releases[..k];
    assert releases[..k + 1][k] == releases[k];
    RenderAllErrorSticks(storage, env, releases, k + 1);
  }
}
