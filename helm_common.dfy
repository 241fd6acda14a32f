/** What pkg/helmrender/helmrender.go and pkg/helmrender/runner.go share: the
    repository file (Helm's repo.File, a list of repo.Entry), the install and
    chart-path options they set before calling Helm, the Helm calls themselves
    as parameters, and the text they assemble from a rendered release. */
module HelmCommon {
  import opened Wrappers
  import opened Values
  import opened Resources
  import opened GoStrings

  /** repo.Entry: a chart repository and the credentials used to reach it. */
  datatype Entry = Entry(
    name: string,
    url: string,
    username: string,
    password: string,
    caFile: string,
    certFile: string,
    keyFile: string,
    insecureSkipTLSverify: bool,
    passCredentialsAll: bool)

  /** An entry that only has a name and a URL. */
  function PlainEntry(name: string, url: string): Entry {
    Entry(name, url, "", "", "", "", "", false, false)
  }

  /** Entry names are unique in a repository file. */
  predicate UniqueNames(storage: seq<Entry>) {
    forall i, j :: 0 <= i < j < |storage| ==> storage[i].name != storage[j].name
  }

  /** repo.File.Has. */
  predicate Has(storage: seq<Entry>, name: string) {
    exists i :: 0 <= i < |storage| && storage[i].name == name
  }

  /** The position of the first entry with the given name. */
  function NameIndex(storage: seq<Entry>, name: string): (i: nat)
    requires Has(storage, name)
    ensures i < |storage| && storage[i].name == name
    ensures forall j :: 0 <= j < i ==> storage[j].name != name
  {
    if storage[0].name == name then 0
    else
      assert Has(storage[1..], name) by {
        var i :| 0 <= i < |storage| && storage[i].name == name;
        assert storage[1..][i - 1].name == name;
      }
      1 + NameIndex(storage[1..], name)
  }

  /** repo.File.Update with one entry: the first entry of the same name is
      replaced in place, otherwise the entry is appended. */
  function Update(storage: seq<Entry>, e: Entry): (r: seq<Entry>)
    ensures Has(r, e.name) && r[NameIndex(r, e.name)] == e
    ensures Has(storage, e.name) ==> NameIndex(r, e.name) == NameIndex(storage, e.name)
    ensures !Has(storage, e.name) ==> r == storage + [e]
    ensures |r| == |storage| + (if Has(storage, e.name) then 0 else 1)
    ensures forall i :: 0 <= i < |storage| && storage[i].name != e.name ==> r[i] == storage[i]
  {
    if Has(storage, e.name) then
      var i := NameIndex(storage, e.name);
      assert storage[i := e][i] == e;
      storage[i := e]
    else
      assert (storage + [e])[|storage|] == e;
      storage + [e]
  }

  /** Updating keeps entry names unique. */
  lemma UpdateKeepsNamesUnique(storage: seq<Entry>, e: Entry)
    requires UniqueNames(storage)
    ensures UniqueNames(Update(storage, e))
  {
    var r := Update(storage, e);
    forall i, j | 0 <= i < j < |r| ensures r[i].name != r[j].name {
      if !Has(storage, e.name) && j == |storage| {
        assert storage[i].name != e.name;
      }
    }
  }

  /** action.ChartPathOptions as the renderers fill it before LocateChart. */
  datatype ChartPathOptions = ChartPathOptions(
    version: string,
    repoURL: string,
    username: string,
    password: string,
    caFile: string,
    certFile: string,
    keyFile: string,
    insecureSkipTLSverify: bool,
    passCredentialsAll: bool)

  /** The options of a freshly created install action. */
  const NoPathOptions := ChartPathOptions("", "", "", "", "", "", "", false, false)

  /** A client-only dry-run install: the namespace its action configuration
      was initialised with, then the install's own fields. Neither renderer
      sets the install's own namespace, so it stays empty. */
  datatype Install = Install(
    configNamespace: string,
    namespace: string,
    releaseName: string,
    createNamespace: bool,
    skipCRDs: bool,
    replace: bool,
    disableHooks: bool,
    includeCRDs: bool,
    pathOptions: ChartPathOptions)

  /** A loaded chart, known here only by the path it was loaded from. */
  datatype Chart = Chart(path: string)

  datatype Hook = Hook(path: string, manifest: string)

  /** The part of a rendered release the renderers read. */
  datatype Release = Release(manifest: string, hooks: seq<Hook>)

  /** What install.Run returns: a release or none, and an error or none. */
  datatype RunResult = RunResult(release: Option<Release>, error: Option<string>)

  /** The Helm and kustomize calls: building the chart repository and
      downloading its index, writing the repository file, locating and loading
      a chart, the dry-run install, and parsing the rendered text into a store. */
  datatype HelmCalls = HelmCalls(
    downloadIndex: Entry -> Option<string>,
    writeFile: seq<Entry> -> Option<string>,
    locateChart: (ChartPathOptions, string) -> Result<string>,
    load: string -> Result<Chart>,
    run: (Install, Chart, Values) -> RunResult,
    parseManifests: string -> Result<Store>)

  /** One hook as the renderers print it. */
  function HookBlock(h: Hook): string {
    "---\n# Source: " + h.path + "\n" + h.manifest + "\n"
  }

  /** The hooks' blocks, in order. */
  function HookBlocks(hooks: seq<Hook>): string
    decreases |hooks|
  {
    if hooks == [] then "" else HookBlocks(hooks[..|hooks| - 1]) + HookBlock(hooks[|hooks| - 1])
  }

  /** The text handed to the manifest parser: nothing without a release;
      otherwise the trimmed manifest and a newline, then the hooks unless
      hooks are disabled. */
  function ManifestText(release: Option<Release>, disableHooks: bool): (t: string)
    ensures release.None? ==> t == ""
    ensures release.Some? ==> HasPrefix(t, TrimSpace(release.value.manifest) + "\n")
    ensures release.Some? && disableHooks ==> t == TrimSpace(release.value.manifest) + "\n"
  {
    match release
    case None => ""
    case Some(rel) => TrimSpace(rel.manifest) + "\n" + (if disableHooks then "" else HookBlocks(rel.hooks))
  }

  /** Builds the text into a buffer, one hook at a time. */
  method AssembleManifest(release: Option<Release>, disableHooks: bool) returns (text: string)
    ensures text == ManifestText(release, disableHooks)
  {
    text := "";
    if release.Some? {
      var rel := release.value;
      text := TrimSpace(rel.manifest) + "\n";
      if !disableHooks {
        for i := 0 to |rel.hooks|
          invariant text == TrimSpace(rel.manifest) + "\n" + HookBlocks(rel.hooks[..i])
        {
          assert rel.hooks[..i + 1][..i] == rel.hooks[..i];
          text := text + "---\n# Source: " + rel.hooks[i].path + "\n" + rel.hooks[i].manifest + "\n";
        }
        assert rel.hooks[..|rel.hooks|] == rel.hooks;
      }
    }
  }

  /** The hook blocks of two lists of hooks are the blocks of each, in order. */
  lemma {:induction false} HookBlocksConcat(a: seq<Hook>, b: seq<Hook>)
    ensures HookBlocks(a + b) == HookBlocks(a) + HookBlocks(b)
    decreases |b|
  {
    if b == [] {
      assert a + b == a;
    } else {
      var init, last := b[..|b| - 1], b[|b| - 1];
      assert (a + b)[..|a + b| - 1] == a + init;
      HookBlocksConcat(a, init);
      var x, y, z := HookBlocks(a), HookBlocks(init), HookBlock(last);
      assert HookBlocks(a + b) == x + y + z;
      assert HookBlocks(b) == y + z;
      assert x + y + z == x + (y + z);
    }
  }

  /** With hooks enabled, each hook contributes exactly its own block, after
      the manifest and the hooks before it and before the hooks after it. */
  lemma HookAppears(rel: Release, k: int)
    requires 0 <= k < |rel.hooks|
    ensures ManifestText(Some(rel), false) ==
      TrimSpace(rel.manifest) + "\n" + HookBlocks(rel.hooks[..k]) + HookBlock(rel.hooks[k]) + HookBlocks(rel.hooks[k + 1..])
  {
    var hs := rel.hooks;
    assert hs == hs[..k] + [hs[k]] + hs[k + 1..];
    HookBlocksConcat(hs[..k] + [hs[k]], hs[k + 1..]);
    HookBlocksConcat(hs[..k], [hs[k]]);
    assert HookBlocks([hs[k]]) == HookBlock(hs[k]) by {
      assert [hs[k]][..0] == [];
    }
  }
}
