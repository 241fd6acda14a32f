/** The parts of Flux's HelmRelease (helm.toolkit.fluxcd.io/v2beta1) and
    HelmRepository (source.toolkit.fluxcd.io/v1beta2) API types that the
    renderer reads, with the accessors it calls on them. */
module FluxApi {
  import opened Wrappers
  import opened Values

  /** A valuesFrom entry: a ConfigMap or Secret, a key in its data, and an
      optional dotted target path. */
  datatype ValuesReference = ValuesReference(kind: string, name: string, valuesKey: string, targetPath: string)

  /** GetValuesKey: the key defaults to "values.yaml". */
  function GetValuesKey(v: ValuesReference): string {
    if v.valuesKey == "" then "values.yaml" else v.valuesKey
  }

  datatype SourceReference = SourceReference(kind: string, name: string, namespace: string)

  datatype HelmChartTemplate = HelmChartTemplate(chart: string, version: string, sourceRef: SourceReference)

  /** HelmChartTemplate.GetNamespace: the source reference's namespace, or the
      release's own. */
  function ChartNamespace(t: HelmChartTemplate, defaultNamespace: string): string {
    if t.sourceRef.namespace != "" then t.sourceRef.namespace else defaultNamespace
  }

  /** spec.install as GetInstall returns it (a missing block reads as all false). */
  datatype InstallSpec = InstallSpec(createNamespace: bool, skipCRDs: bool, replace: bool, disableHooks: bool)

  /** A kustomize post-renderer's configuration; its content is not interpreted here. */
  datatype KustomizeSpec = KustomizeSpec(patches: seq<string>)

  datatype PostRendererSpec = PostRendererSpec(kustomize: Option<KustomizeSpec>)

  datatype HelmRelease = HelmRelease(
    name: string,
    namespace: string,
    releaseName: string,
    targetNamespace: string,
    chart: HelmChartTemplate,
    install: InstallSpec,
    valuesFrom: seq<ValuesReference>,
    values: Values,
    postRenderers: seq<PostRendererSpec>)

  /** GetReleaseName: spec.releaseName, else "<targetNamespace>-<name>", else the name. */
  function GetReleaseName(hr: HelmRelease): string {
    if hr.releaseName != "" then hr.releaseName
    else if hr.targetNamespace != "" then hr.targetNamespace + "-" + hr.name
    else hr.name
  }

  /** GetReleaseNamespace: spec.targetNamespace, else the release's namespace. */
  function GetReleaseNamespace(hr: HelmRelease): string {
    if hr.targetNamespace != "" then hr.targetNamespace else hr.namespace
  }

  /** GetHelmChartName: "<namespace>-<name>". */
  function GetHelmChartName(hr: HelmRelease): string {
    hr.namespace + "-" + hr.name
  }

  datatype HelmRepository = HelmRepository(name: string, namespace: string, url: string)

  /** The HelmChart object the renderer derives from a release's chart template. */
  datatype HelmChart = HelmChart(
    name: string,
    namespace: string,
    chart: string,
    version: string,
    sourceKind: string,
    sourceName: string)
}
