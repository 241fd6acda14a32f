# flux-helm-preview, modelled in Dafny

flux-helm-preview renders two revisions of a Flux/kustomize repository
and diffs the results document by document. The Helm releases the
repositories declare are rendered along the way. This project models the
tool's self-contained rules and proves their properties:

- The diff: the added / deleted / modified partition of two resource
  stores, the order of the blocks, and the texts each block compares.
- The value composition of a HelmRelease (`composeValues`): skipped and
  failing sources, deep merge, quoted and unquoted target-path values, and
  inline values last.
- How the HelmRepo renderer reads the store:
  - `ParseHelmRepo` classifies documents by group/version/kind.
  - `loadHelmChart` looks up the chart's source.
  - `updateRepo` keeps the repository file.
  - The release's manifest and hooks are assembled into one text.
  - `RenderAllCharts` stops at the first failing release.
- The batch runner:
  - `getAndUpdateRepo` is a cache state machine over the ready URLs and the repository file.
  - `renderChart` copies the chart path options from its RenderTask.
  - `RenderCharts` fills results by index, absorbs them in index order, and returns no partial result.
- The post-renderer chain: fail-fast composition, with the kustomize renderers first and the origin-labels renderer last.
- The filter-kind registry, and the decoding of one configured filter.
- The label remover: named label keys cleared at search paths, with defaults when no paths are configured.
- The GitHub Action's input parsing (`NewFromInputs`).

Every call into Helm, kustomize, Flux, kyaml, the YAML serialiser, the
diff formatter and the Actions runtime is a function-typed parameter. Such
a call is, for example, downloading an index, writing a file, locating,
loading or installing a chart, converting a document, or parsing
`--set` values. The model states how the tool uses each call's answer,
not what the call computes. Objects whose fields the source updates are
classes:
- `HelmRepo`, with its repository file;
- `Runner`, with its repository file and URL cache;
- `CombinedPostRenderer`, with its renderer list;
- `KFilter`, with the filter it wraps.

Their methods are proved against functions that thread the same state
(`LoadStep`, `GetAndUpdateStep`, `RenderTasks`, …), and the properties
are proved about those functions.

Files, one module each: `wrappers.dfy` (Option, Result), `yaml.dfy`
(document trees), `seqs.dfy` (order-preserving selection),
`go_strings.dfy` (stand-ins for Go's `strings.Trim*`, `Split`, `Join`,
`sort.Strings`), `resources.dfy` (the resource store), `values.dfy` (Helm
values and `transform.MergeMaps`), `flux_api.dfy` (the Flux API fields
read), `diff.dfy`, `compose_values.dfy`, `helm_common.dfy`,
`helm_render.dfy`, `helm_runner.dfy`, `post_render.dfy`, `filter.dfy`,
`labels.dfy`, `action.dfy`.

`MergeMaps` is not associative (`Values.MergeNotAssociative`), so the
sources are folded left to right as the loop does.

Places where helmrender.go and runner.go differ, both modelled as written:
- `loadHelmChart` does not pass the chart version to LocateChart; the
  batch runner does.
- `RenderChart` in helmrender.go does not look at the error of the install
  run; `renderChart` in runner.go returns it.

## Model

| member | source | states |
|---|---|---|
| `Diff.Classify` | pkg/diff/diff.go:15-27 | the three identity lists are exactly `Added`, `Deleted` and `Modified`: the identities of A absent from B, those present in B, and those of B absent from A, each in store order |
| `Diff.Diff` | pkg/diff/diff.go:14-52 | never an error; one block per added, then per deleted, then per modified identity; added blocks compare "" with B's YAML, deleted ones A's YAML with "", modified ones A's with B's; the identity string labels both sides |
| `Diff.WriteAdded` | pkg/diff/diff.go:29-34 | one block per added identity, in list order, from empty text to the document's YAML in B |
| `Diff.WriteDeleted` | pkg/diff/diff.go:36-41 | one block per deleted identity, in list order, from the document's YAML in A to empty text |
| `Diff.WriteModified` | pkg/diff/diff.go:43-49 | one block per modified identity, in list order, from its YAML in A to its YAML in B |
| `Diff.ClassifyBefore` | pkg/diff/diff.go:16-22 | an identity of A is deleted exactly when B lacks it and modified exactly when B has it |
| `Diff.AddedExactly` | pkg/diff/diff.go:23-27 | added is exactly the identities of B that A lacks |
| `Diff.Partition` | pkg/diff/diff.go:15-27 | the three categories are pairwise disjoint and together hold exactly the identities of both stores |
| `Diff.CategoryOrder` | pkg/diff/diff.go:16-26 | deleted and modified follow A's order, added follows B's order |
| `Diff.SelfDiff` | pkg/diff/diff.go:16-27 | a store diffed with itself: nothing added or deleted, every identity modified in store order, each block comparing a text with itself |
| `Diff.ThreeDocuments` | pkg/diff/diff.go:16-27 | A = {X, Y}, B = {Y, Z} gives added [Z], deleted [X], modified [Y] |
| `HelmRender.Classify` | pkg/helmrender/helmrender.go:70-92 | the loop of ParseHelmRepo computes `Classified`: releases and repositories appended in store order, the first conversion error (prefixed "error converting resource: ") ends the scan |
| `HelmRender.ClassifiedExactly` | pkg/helmrender/helmrender.go:70-90 | the scan succeeds exactly when every HelmRelease document and every v1beta1/v1beta2 HelmRepository document converts, and then releases and repositories are exactly those documents converted, in store order; every other kind is ignored |
| `HelmRender.ClassifiedErrorSticks` | pkg/helmrender/helmrender.go:70-90 | once a prefix of the documents fails to convert, the scan's result is that failure |
| `HelmRender.AsV1beta2` | pkg/helmrender/helmrender.go:81-83 | a repository is converted from a copy whose identity and apiVersion field say v1beta2; the stored document is a value and is not changed |
| `HelmRender.ConvertAll` | pkg/helmrender/helmrender.go:70-90 | converting a list succeeds with one result per document |
| `HelmRender.HelmRepo.constructor` | pkg/helmrender/helmrender.go:52-68 | a new HelmRepo holds the environment and releases it was given and an empty repository file |
| `HelmRender.UpdateRepoStep` | pkg/helmrender/helmrender.go:250-273 | the entry is named "namespace-name"; a download error changes nothing; a name already in the file returns with no change; otherwise the entry is appended and the file written; names stay unique and the file only grows |
| `HelmRender.HelmRepo.UpdateRepo` | pkg/helmrender/helmrender.go:250-273 | updates the object's repository file as `UpdateRepoStep` says and keeps its names unique |
| `HelmRender.FindSource` | pkg/helmrender/helmrender.go:278-279 | the index of the first repository whose namespace and name both match, or the count when none does |
| `HelmRender.HelmRepo.LoadHelmChart` | pkg/helmrender/helmrender.go:275-297 | the loop over repositories computes `LoadStep`: the repository file and the chart result; the install it returns is `LoadedInstall`, carrying the matched repository's URL once that repository is updated |
| `HelmRender.LoadUnsupportedKind` | pkg/helmrender/helmrender.go:293-294 | a source kind other than "HelmRepository" gives "unsupported source kind '<kind>'" with nothing looked up or downloaded |
| `HelmRender.LoadNoSource` | pkg/helmrender/helmrender.go:296 | without a matching repository the result is "unable to find source '<name>'" and the file is unchanged |
| `HelmRender.LoadFromFirstMatch` | pkg/helmrender/helmrender.go:278-290 | for any install, the first matching repository is the one updated and whose URL LocateChart receives with the install's other chart path options; a LocateChart error is prefixed "error locating chart: "; the install keeps that URL |
| `HelmRender.LoadStorage` | pkg/helmrender/helmrender.go:275-297 | loading a chart keeps repository names unique and only appends to the file |
| `HelmRender.BuildHelmChart` | pkg/helmrender/helmrender.go:228-248 | the chart object is named "<namespace>-<name>" and lives in the source reference's namespace, else the release's |
| `HelmRender.HelmRepo.RenderChart` | pkg/helmrender/helmrender.go:179-226 | computes `RenderStep`: compose values (error prefixed "error composing values: "), load the chart, run the install as loading left it (with the repository URL), parse the assembled text |
| `HelmRender.HelmRepo.RenderAllCharts` | pkg/helmrender/helmrender.go:95-107 | computes `RenderAllStep`: releases rendered in order and appended, the first error ends the loop |
| `HelmRender.RenderAllFailFast` | pkg/helmrender/helmrender.go:97-101 | when release k is the first to fail, the result is release k's error and later releases are not rendered |
| `HelmRender.RenderAllErrorSticks` | pkg/helmrender/helmrender.go:98-104 | once a prefix of the releases fails, the repository file and error are those of the prefix |
| `HelmRender.RenderAllStorage` | pkg/helmrender/helmrender.go:95-107 | rendering keeps repository names unique and only appends to the file |
| `HelmCommon.Update` | pkg/helmrender/helmrender.go:267 | repo.File.Update: the first entry of that name is replaced by the given entry where it stands, or the entry is appended when the name is absent; the new entry is the one the name finds, and entries of other names are unchanged |
| `HelmCommon.UpdateKeepsNamesUnique` | pkg/helmrender/helmrender.go:264-267 | updating keeps entry names unique |
| `HelmCommon.ManifestText` | pkg/helmrender/helmrender.go:215-224 | no text without a release; otherwise it starts with the trimmed manifest and a newline, and is exactly that when hooks are disabled |
| `HelmCommon.AssembleManifest` | pkg/helmrender/runner.go:125-134 | the buffer-building loop yields `ManifestText`: trimmed manifest, newline, then one "---\n# Source: <path>\n<manifest>\n" block per hook unless hooks are disabled |
| `HelmCommon.HookBlocksConcat` | pkg/helmrender/runner.go:129-131 | the hook blocks of two hook lists are the blocks of each, in order |
| `HelmCommon.HookAppears` | pkg/helmrender/helmrender.go:218-222 | with hooks enabled each hook contributes exactly its block, after the manifest and earlier hooks and before later ones |
| `ValueComposer.FindResourceSpec` | pkg/helmrender/helmrender.go:299-308 | not found is `Ok(None)` exactly when no document has the identity; otherwise the result is the conversion of a document with it |
| `ValueComposer.ComposeValues` | pkg/helmrender/helmrender.go:109-177 | the loop computes `Composed`: the sources folded in order from an empty map, then the inline values merged over the result |
| `ValueComposer.ComposeSource` | pkg/helmrender/helmrender.go:114-174 | one iteration applies the source's action (skip, merge, assign or fail) to the map built so far; every failure carries the source's message except the missing-key one, which is the corrected text |
| `ValueComposer.FoldErrorSticks` | pkg/helmrender/helmrender.go:113-175 | the first failing source's error is the fold's result |
| `ValueComposer.SkippedExactlyWhenAbsent` | pkg/helmrender/helmrender.go:117-142 | a source is skipped exactly when it names a ConfigMap or Secret absent from the store |
| `ValueComposer.SkipIsNeutral` | pkg/helmrender/helmrender.go:124-127 | a skipped source can be removed from anywhere in the list without changing the result |
| `ValueComposer.UnsupportedKindFails` | pkg/helmrender/helmrender.go:148-149 | a kind other than ConfigMap and Secret fails with "unsupported ValuesReference kind '<kind>'" |
| `ValueComposer.MissingKeyFails` | pkg/helmrender/helmrender.go:128-129 | a present, decodable ConfigMap or Secret lacking the values key fails with the corrected missing-key message, key first |
| `ValueComposer.SourceActionAsWrittenSpec` | pkg/helmrender/helmrender.go:114-150 | the source's contribution as written equals the corrected one, except that a missing key fails with the key and kind swapped |
| `ValueComposer.MissingKeyFailsAsWritten` | pkg/helmrender/helmrender.go:128-129 | as written, a release whose first source lacks the values key fails with "missing key '<kind>' in <key> '…'", where the corrected fold reports the key first |
| `ValueComposer.LastMergeSourceWins` | pkg/helmrender/helmrender.go:157 | a merge-mode source's values all hold in the result, over everything before it |
| `ValueComposer.InlineValuesWin` | pkg/helmrender/helmrender.go:176 | the inline values all hold in the composed values, over every source |
| `ValueComposer.LayeringExample` | pkg/helmrender/helmrender.go:153-176 | {a:1,b:1} then {b:2,c:2} then inline {c:3} compose to {a:1,b:2,c:3} |
| `ValueComposer.LayeredMaps` | pkg/helmrender/helmrender.go:157 | the three merges of that example, key by key |
| `ValueComposer.QuotedValueIsString` | pkg/helmrender/helmrender.go:163-166 | a value that starts and ends with the same quote goes to the string-only parser as the piece left after cutting every leading and trailing quote character |
| `ValueComposer.UnquotedValueIsTyped` | pkg/helmrender/helmrender.go:167-169 | any other value goes to the typed parser exactly as it is |
| `ValueComposer.StripQuotes` | pkg/helmrender/helmrender.go:164 | one pair of quote characters around a text with no quote at either end is cut to exactly that text |
| `ValueComposer.QuotedValueStripped` | pkg/helmrender/helmrender.go:163-166 | a value in one pair of matching quotes is assigned as the string between them |
| `ValueComposer.UnquotedTrueExample` | pkg/helmrender/helmrender.go:167-169 | `true` unquoted reaches the typed parser as "enabled=true" |
| `ValueComposer.NilMapFails` | pkg/helmrender/helmrender.go:110-172 | as written: a release whose first source is a present target-path source with a well-formed assignment fails with "unable to merge value … into target path '…': unable to parse key: assignment to entry in nil map", where the corrected fold applies it |
| `ValueComposer.FirstTargetPathApplies` | pkg/helmrender/helmrender.go:158-170 | corrected: that source is applied to the empty map |
| `ValueComposer.FailedSticks` | pkg/helmrender/helmrender.go:113-175 | as written, a failing source ends the loop with its message |
| `ValueComposer.AsWrittenAgrees` | pkg/helmrender/helmrender.go:109-177 | where neither version fails, the code as written and the corrected fold compute the same values |
| `ValueComposer.MissingKeyMessageSwapped` | pkg/helmrender/helmrender.go:129 | as written the message puts the kind where the key belongs: it is the intended message with key and kind exchanged |
| `ValueComposer.MissingKeyMessageNamesKey` | pkg/helmrender/helmrender.go:128-129 | corrected: the message names the missing key, then the kind |
| `Values.MergeMaps` | pkg/helmrender/helmrender.go:157 | the merged keys are the keys of either side |
| `Values.MergeRightWins` | pkg/helmrender/helmrender.go:157 | the right side's value wins unless both values are maps, which merge recursively; keys only on the left keep their value |
| `Values.MergeSubsumesRight` | pkg/helmrender/helmrender.go:176 | every leaf of the right side is in the merge, whatever the left side holds |
| `Values.MergeEmpty` | pkg/helmrender/helmrender.go:157 | the empty map is neutral on either side |
| `Values.MergeIdempotentRight` | pkg/helmrender/helmrender.go:157 | merging the same source again changes nothing |
| `Values.MergeSelf` | pkg/helmrender/helmrender.go:157 | a map merged with itself is unchanged |
| `Values.MergeNotAssociative` | pkg/helmrender/helmrender.go:157 | a map, a scalar and a map merge differently depending on grouping, so source order and fold direction matter |
| `HelmRunner.Runner.constructor` | pkg/helmrender/runner.go:46-51 | NewRunner: empty repository file, empty URL cache |
| `HelmRunner.GetAndUpdateStep` | pkg/helmrender/runner.go:138-170 | a cached URL returns at once; a download error changes nothing; a name already in the file returns without caching the URL; otherwise the entry is added, and the URL cached only when the write succeeds; the file only grows and keeps names unique |
| `HelmRunner.Runner.GetAndUpdateRepo` | pkg/helmrender/runner.go:138-170 | updates the file and the cache as `GetAndUpdateStep` says |
| `HelmRunner.NamePresentNotCached` | pkg/helmrender/runner.go:160-162 | an entry whose name is in the file leaves the state unchanged and uncached, so the next call downloads again and ends the same way |
| `HelmRunner.CachedAfterSuccess` | pkg/helmrender/runner.go:163-168 | after a call that added the entry, the next call with it returns at once |
| `HelmRunner.PathOptionsFor` | pkg/helmrender/runner.go:99-107 | version, URL, username, password, CA, cert and key files and the two TLS/credential flags come from the RenderTask and its repository entry |
| `HelmRunner.Runner.RenderChart` | pkg/helmrender/runner.go:79-136 | computes `RenderTaskStep`: update the repository, locate (error prefixed "error locating chart: "), load, run (its error returned), parse the assembled text |
| `HelmRunner.RenderTasks` | pkg/helmrender/runner.go:58-69 | one outcome per task, the cache threaded through in index order |
| `HelmRunner.FirstError` | pkg/helmrender/runner.go:70-72 | no error exactly when every task succeeded; otherwise the error of the lowest-indexed failing task |
| `HelmRunner.OkValues` | pkg/helmrender/runner.go:57-66 | the result slots hold each task's store at its own index |
| `HelmRunner.Combined` | pkg/helmrender/runner.go:70-76 | success exactly when every task succeeded; on failure the first error and no partial result |
| `HelmRunner.Runner.RenderCharts` | pkg/helmrender/runner.go:53-77 | the cache ends as `RenderTasks` leaves it, and the result is `Combined` of the outcomes |
| `HelmRunner.Runner.RenderInto` | pkg/helmrender/runner.go:61-67 | one task rendered into its slot, the first error kept |
| `HelmRunner.Record` | pkg/helmrender/runner.go:63-66 | a successful outcome is stored at its index, and the first error is kept |
| `HelmRunner.Collect` | pkg/helmrender/runner.go:70-76 | the first error, or every slot absorbed in index order |
| `HelmRunner.AbsorbResults` | pkg/helmrender/runner.go:73-75 | the slots absorbed into an empty store in index order, each AbsorbAll's error dropped and what it absorbed kept |
| `HelmRunner.EarlierDocumentStays` | pkg/helmrender/runner.go:73-75 | once the first tasks' stores have brought in an identity, later tasks never change the document it finds |
| `HelmRunner.FoundInFirstTask` | pkg/helmrender/runner.go:73-75 | a document found after absorbing is the one of the task whose absorbing first brought its identity in |
| `HelmRunner.FirstTaskKept` | pkg/helmrender/runner.go:73-75 | the lowest-indexed task is absorbed whole: each identity it rendered finds its document |
| `HelmRunner.CollisionKeepsEarlier` | pkg/helmrender/runner.go:73-75 | tasks 0 and 1 both rendering X, task 1 also Y: the result is task 0's store alone, so task 1's X and Y are both lost |
| `Resources.Get` | pkg/helmrender/helmrender.go:300 | lookup by identity: none exactly when no document has it, otherwise that document |
| `Resources.Append` | pkg/helmrender/helmrender.go:102 | a new identity is appended; a known one is refused |
| `Resources.AppendAllDisjoint` | pkg/helmrender/helmrender.go:102 | AppendAll succeeds exactly when the stores share no identity, and is then concatenation |
| `Resources.Absorb` | pkg/helmrender/runner.go:74 | a document without a merge or replace behaviour: refused exactly when its identity is stored, otherwise appended |
| `Resources.AbsorbGet` | pkg/helmrender/runner.go:74 | a refused document's identity still finds the stored document; after an append the new identity finds the new document and other identities find what they found before |
| `Resources.AbsorbAllPrefix` | pkg/helmrender/runner.go:74 | AbsorbAll keeps the whole store and appends the absorbed store's documents up to its first collision, then stops; the error is reported exactly when there was a collision |
| `Resources.AbsorbAllGet` | pkg/helmrender/runner.go:74 | after AbsorbAll an identity already stored finds the old document, one absorbed before the first collision finds the new document, and every other identity is not found |
| `Resources.AbsorbAllIds` | pkg/helmrender/runner.go:74 | the identities after AbsorbAll are the old store's and those of the absorbed store before its first collision |
| `PostRender.CombinedPostRenderer.constructor` | pkg/helmrender/postrender.go:13-17 | a new combined renderer has no renderers |
| `PostRender.CombinedPostRenderer.AddRenderer` | pkg/helmrender/postrender.go:19-21 | the renderer is appended, the others kept in order |
| `PostRender.CombinedPostRenderer.Run` | pkg/helmrender/postrender.go:23-32 | the loop computes `RunAll`: each renderer gets the previous output, the first error is returned |
| `PostRender.RunNone` | pkg/helmrender/postrender.go:23-31 | no renderers: the input comes back unchanged |
| `PostRender.RunConcat` | pkg/helmrender/postrender.go:25-27 | running two lists chains the second on the first's output |
| `PostRender.RunErrorSticks` | pkg/helmrender/postrender.go:26-29 | once a prefix fails, later renderers do not change the result |
| `PostRender.FirstErrorWins` | pkg/helmrender/postrender.go:26-29 | the first failing renderer's error is the result, whatever later renderers would do |
| `PostRender.KustomizeRenderers` | pkg/helmrender/postrender.go:36-40 | only Kustomize renderers, no more than there are entries |
| `PostRender.KustomizeRenderersCount` | pkg/helmrender/postrender.go:36-40 | exactly one renderer per entry that has a kustomize block |
| `PostRender.PostRenderers` | pkg/helmrender/postrender.go:34-46 | the kustomize renderers in entry order, then the origin-labels renderer last; never empty, so the nil result is never taken |
| `FilterRegistry.RegistryNames` | pkg/filter/filter.go:13-19 | the sorted name list holds exactly the registry's names (FileSetter, FormatFilter, GrepFilter, MatchModifier, Modifier), each once; LabelRemover is not registered |
| `FilterRegistry.SortedNamesAscending` | pkg/filter/filter.go:49 | the listed names are in ascending byte order |
| `FilterRegistry.CollectNames` | pkg/filter/filter.go:45-48 | the collected names are exactly the registry's, each once, in whatever order the map yields them |
| `FilterRegistry.KnownFilters` | pkg/filter/filter.go:45-49 | the names collected from the map and sorted are `SortedNames`, whatever order the map gave them |
| `FilterRegistry.UnmarshalStep` | pkg/filter/filter.go:34-56 | decoding errors into the map or the metadata come first and leave the filter alone; an unknown kind fails with the sorted, comma-joined list of known names; only a known kind replaces the filter, with an instance of its type |
| `FilterRegistry.KFilter.constructor` | pkg/filter/filter.go:21-23 | a new KFilter wraps no filter |
| `FilterRegistry.KFilter.UnmarshalYAML` | pkg/filter/filter.go:34-56 | updates the wrapped filter and returns the error as `UnmarshalStep` says |
| `FilterRegistry.KFilter.MarshalYAML` | pkg/filter/filter.go:30-32 | the wrapped filter, unchanged |
| `FilterRegistry.KnownKindInstance` | pkg/filter/filter.go:53-55 | a known kind always yields a fresh instance of its type holding the decoded fields, with the field decoder's error |
| `LabelRemover.SearchPaths` | pkg/filter/labels.go:17-23 | no configured paths means metadata.labels and spec.template.metadata.labels; otherwise the configured paths |
| `LabelRemover.Filter` | pkg/filter/labels.go:16-39 | the documents are cleared in place as `ClearDocs` says, failing wherever a search path meets a scalar or sequence; success returns the same array, and an error returns that error |
| `LabelRemover.ClearAll` | pkg/filter/labels.go:24-37 | the outer loop computes `ClearDocs` on the array |
| `LabelRemover.ClearDocument` | pkg/filter/labels.go:25-36 | the inner loops change only the document at i, as `ClearLabels` says |
| `LabelRemover.ClearDocs` | pkg/filter/labels.go:24-37 | one document out per document in |
| `LabelRemover.ClearSpec` | pkg/filter/labels.go:28-31 | one pipe fails, with the wrong-kind message, exactly when the walk meets a scalar or sequence, at the target or at a step before it; a missing field or null along the way, or a null target, leaves the document as it was; on a mapping target exactly the key is removed; the result only lacks keys the document had |
| `LabelRemover.ClearKeepsKey` | pkg/filter/labels.go:28-31 | a pipe keeps every other key of every mapping unless it removes a field on the way to it |
| `LabelRemover.ClearPathsKeepsKey` | pkg/filter/labels.go:27-35 | clearing one label at every search path keeps any other key at a path that no search path leads through that label |
| `LabelRemover.ClearLabelsKeepsKey` | pkg/filter/labels.go:26-36 | clearing every listed label keeps any unlisted key at a path no search path leads through a listed label |
| `LabelRemover.ClearDocsKeepsOtherKeys` | pkg/filter/labels.go:24-37 | after a successful run, a key that is not a listed label stays at a search path of every document that held it |
| `LabelRemover.DefaultPathsApart` | pkg/filter/labels.go:19-22 | no default path leads through a field of the other |
| `LabelRemover.ClearDocsRemovesLabels` | pkg/filter/labels.go:24-37 | after a successful run no listed label remains at any search path of any document, and documents only lost keys |
| `LabelRemover.ClearDocsIdempotent` | pkg/filter/labels.go:16-39 | running again on the successful output changes nothing and fails nowhere |
| `LabelRemover.SettledDocsUnchanged` | pkg/filter/labels.go:24-37 | documents with no listed label at any search path are returned unchanged |
| `LabelRemover.NoLabelsNoChange` | pkg/filter/labels.go:26 | with no labels configured nothing changes and nothing fails |
| `LabelRemover.ClearDocsErrorSticks` | pkg/filter/labels.go:32-34 | after the first error the later documents are untouched and the error is returned |
| `LabelRemover.ScalarLabelsFail` | pkg/filter/labels.go:28-34 | a document whose metadata.labels is a scalar makes the run fail, whatever label is listed |
| `LabelRemover.ScalarOnPathFails` | pkg/filter/labels.go:28-34 | a document whose spec is a scalar makes the run fail on the default path spec.template.metadata.labels, whatever label is listed |
| `ActionInputs.NewFromInputs` | pkg/action/action.go:45-66 | an error, and no configuration, exactly when repo-a or repo-b is empty; helm is on exactly for the input "true"; the kustomization list is the newline-split input trimmed with blank lines dropped; the other inputs are copied verbatim |
| `ActionInputs.PathsTrimmed` | pkg/action/action.go:58-60 | every kustomization entry is non-empty and has no surrounding white space |
| `ActionInputs.PathsMembership` | pkg/action/action.go:57-62 | a path is listed exactly when it is non-empty and some input line trims to it |
| `ActionInputs.PathsInOrder` | pkg/action/action.go:57-62 | the list of two blocks of lines is the list of the first followed by that of the second |
| `ActionInputs.PathsOfTrimmed` | pkg/action/action.go:57-62 | trimmed non-empty lines come back as they are |
| `ActionInputs.KustomizationsRoundTrip` | pkg/action/action.go:46-62 | joining trimmed, non-empty, newline-free paths with newlines and parsing gives back the paths |
| `GoStrings.TrimSpace` | pkg/action/action.go:58 | neither end of the result is white space |
| `GoStrings.TrimSpacePiece` | pkg/action/action.go:58 | strings.TrimSpace keeps a contiguous piece of its input and cuts only white space from either end |
| `GoStrings.TrimSpaceIdempotent` | pkg/action/action.go:58 | trimmed text trims to itself |
| `GoStrings.TrimPiece` | pkg/helmrender/helmrender.go:164 | strings.Trim keeps a contiguous piece, everything cut away is in the cutset, and neither end of the piece is |
| `GoStrings.Split` | pkg/action/action.go:46 | at least one piece, none holding the separator |
| `GoStrings.JoinSplit` | pkg/action/action.go:46 | joining the pieces with the separator gives back the input |
| `GoStrings.SplitJoin` | pkg/action/action.go:46 | splitting a join of separator-free pieces gives back the pieces |
| `GoStrings.SortStrings` | pkg/filter/filter.go:49 | sort.Strings: sorted, and a permutation of its input |
| `GoStrings.SortedUnique` | pkg/filter/filter.go:49 | two sorted arrangements of the same strings are equal |

## Left out

- I/O, networking and every foreign call are parameters, as described above. The model states how their answers are used, not what they compute. These calls include Helm's chart repository, index download, repository file writing, LocateChart, loader.Load, install.Run and strvals. They also include kustomize's manifest parser, scheme.Convert, MustYaml, Myers and the unified formatter, and the Actions runtime's GetInput.
- Logging (`logger.Info`, the log writer), `cfg.Init`, `settings.Debug`, the HTTP client and scheme registration in ParseHelmRepo are left out. They do not affect any result. The scheme-registration errors cannot occur for the built-in schemes.
- `HelmRunner.Runner.RenderCharts` runs the RenderTasks one after another in index order. The source runs them concurrently, which makes "first error" the first to happen in time rather than the lowest index. The lock, `sync.Map` and errgroup are not modelled. Every task is rendered even after a failure, as in the source, whose goroutines never read the cancelled context.
- `HelmRunner.Runner.GetAndUpdateRepo`: the second cache check under the lock is the same check as the first in a sequential model, so it is folded into it.
- The repository file's location is not modelled; `writeFile` is one abstract call. runner.go:164 writes to the registry config path, while helmrender.go:268 writes to the repository config path.
- `Resources.Absorb` models kustomize's AbsorbAll for documents without a `kustomize.config.k8s.io/behavior` annotation, which Helm-rendered documents do not carry. The merge and replace behaviours are not modelled. The error text leaves out the Go rendering of the identity, which RenderCharts drops anyway.
- `Resources.Get` compares identities field by field. kyaml compares the effective namespace instead: an empty namespace counts as "default", and the namespace of a cluster-scoped kind is ignored. So the model treats a document with no namespace and one in "default" as two identities where kustomize sees one. This affects `Diff.Classify` (such a document is reported as deleted and added rather than modified), `ValueComposer.FindResourceSpec` (a values ConfigMap or Secret without a namespace is not found for a release in "default"), `Resources.Append` and `Resources.Absorb`. The Append error also leaves out kustomize's ": <identity>" suffix.
- `LabelRemover.ClearSpec`: a path step is a mapping field name. kyaml's other path forms (list indices, `[name=value]`, `-`, `*`) are not modelled. The error text for a non-mapping node is a stand-in for kyaml's.
- `LabelRemover.Filter`: kyaml's PathGetter first cleans the path, trimming white space from each step and dropping empty steps. The model takes the configured paths as they are.
- YAML mappings are Dafny maps, so the order of mapping keys is not modelled. kyaml keeps keys in document order, and FieldClearer leaves the other keys where they were.
- `ValueComposer.ComposeSource` and `ValueComposer.MissingKeyFails` report the corrected missing-key text, key first. The text the code emits is modelled by `SourceActionAsWritten` and the as-written fold (see Findings).
- `ValueComposer.NilMapFails`: the model follows a Helm whose strvals key parser recovers from the nil-map write and returns "unable to parse key: assignment to entry in nil map" (Helm 3.10.3 and later). With an older Helm, whose parser has no such recover, the same input crashes the process instead. The as-written fold gives this error exactly when the assignment would parse on an empty map. strvals writes keys as it parses, so an assignment that writes one key and then fails later in its text also gets the nil-map error in the code. The model reports that case as the parse failure.
- Both renderers hand the release namespace only to the action configuration (`cfg.Init`). They never set the install's own namespace, so the model's `Install.namespace` is empty. The action configuration itself is not modelled beyond that namespace.
- `HelmRender.HelmRepo.LoadHelmChart` returns the updated install as a value. The source updates the install it was handed in place.
- `LabelRemover.ClearDocsKeepsOtherKeys` is proved under one condition: no search path may lead through a listed label's field at another search path. Without it, clearing one path could remove the mapping that another path leads to. `LabelRemover.DefaultPathsApart` shows the default paths meet the condition.
- `HelmRender.BuildHelmChart`: the chart object's interval, reconcile strategy and values files are not modelled, because nothing in the core reads them.
- `Diff.Diff` models the writer's output as the sequence of (label, label, from text, to text) blocks handed to the unified formatter. The formatter's text is not modelled.
- Helm values are a recursive datatype (map, list, string, bool, integer, null). Floating-point numbers are not modelled.
- pkg/action/action.go beyond `NewFromInputs` (NewAction, Run, writeMarkdown, loadRepo), pkg/preview/preview.go, pkg/render/render.go, pkg/runner/runner.go, main.go and cmd/action/main.go are not part of this model.

## Findings

| source | as written | input that shows it | evidently intended | confidence | as-written member | corrected member |
|---|---|---|---|---|---|---|
| pkg/helmrender/helmrender.go:110 | `result` starts as a nil map, and the target-path branch (lines 166, 169) hands it to strvals, which writes into it | a release whose first valuesFrom entry is a present ConfigMap with a target path and a well-formed value: the write into the nil map makes composeValues fail with "unable to parse key: assignment to entry in nil map" | the assignment is applied to an empty map, as a merge-mode first source already is | not executed | `ValueComposer.NilMapFails` | `ValueComposer.FirstTargetPathApplies` |
| pkg/helmrender/helmrender.go:129 | the missing-key message is formatted with the kind and the key in swapped order (also line 144) | a ConfigMap source whose document lacks "values.yaml" reports "missing key 'ConfigMap' in values.yaml '…'" | "missing key 'values.yaml' in ConfigMap '…'" | not executed | `ValueComposer.MissingKeyFailsAsWritten` | `ValueComposer.MissingKeyFails` |
