/** pkg/helmrender/postrender.go: Helm post-renderers chained into one. What
    each renderer does to the manifests (kustomize patches, Flux's origin
    labels) is a parameter; the chaining is modelled. Manifests are text. */
module PostRender {
  import opened Wrappers
  import opened FluxApi

  datatype PostRenderer =
    | Kustomize(spec: KustomizeSpec)
    | OriginLabels(releaseName: string, releaseNamespace: string)

  /** The renderers applied in list order, each to the previous one's output;
      the first error ends the chain. */
  function RunAll(renderers: seq<PostRenderer>, input: string, apply: (PostRenderer, string) -> Result<string>): Result<string>
    decreases |renderers|
  {
    if renderers == [] then Ok(input)
    else
      match RunAll(renderers[..|renderers| - 1], input, apply)
      case Err(e) => Err(e)
      case Ok(x) => apply(renderers[|renderers| - 1], x)
  }

  class CombinedPostRenderer {
    var renderers: seq<PostRenderer>

    /** newCombinedPostRenderer: no renderers. */
    constructor ()
      ensures renderers == []
    {
      renderers := [];
    }

    /** addRenderer: appended at the end, the others kept in order. */
    method AddRenderer(r: PostRenderer)
      modifies this
      ensures renderers == old(renderers) + [r]
    {
      renderers := renderers + [r];
    }

    method Run(rendered: string, apply: (PostRenderer, string) -> Result<string>) returns (r: Result<string>)
      ensures r == RunAll(renderers, rendered, apply)
    {
      var result := rendered;
      for i := 0 to |renderers|
        invariant RunAll(renderers[..i], rendered, apply) == Ok(result)
      {
        assert renderers[..i + 1][..i] == renderers[..i];
        var out := apply(renderers[i], result);
        if out.Err? {
          RunErrorSticks(renderers, i + 1, rendered, apply);
          return Err(out.error);
        }
        result := out.value;
      }
      assert renderers[..|renderers|] == renderers;
      return Ok(result);
    }
  }

  /** One Kustomize renderer per post-renderer entry that has a kustomize
      block, in order. */
  function KustomizeRenderers(specs: seq<PostRendererSpec>): (r: seq<PostRenderer>)
    ensures |r| <= |specs|
    ensures forall k :: 0 <= k < |r| ==> r[k].Kustomize?
    decreases |specs|
  {
    if specs == [] then []
    else
      var init := KustomizeRenderers(specs[..|specs| - 1]);
      match specs[|specs| - 1].kustomize
      case Some(k) => init + [Kustomize(k)]
      case None => init
  }

  /** postRenderers: the release's kustomize renderers, then the origin-labels
      renderer. The list is never empty, so the nil result is never taken. */
  method PostRenderers(hr: HelmRelease) returns (c: CombinedPostRenderer)
    ensures fresh(c)
    ensures c.renderers == KustomizeRenderers(hr.postRenderers) + [OriginLabels(hr.name, hr.namespace)]
    ensures |c.renderers| >= 1 && c.renderers[|c.renderers| - 1].OriginLabels?
  {
    c := new CombinedPostRenderer();
    for i := 0 to |hr.postRenderers|
      invariant c.renderers == KustomizeRenderers(hr.postRenderers[..i])
    {
      assert hr.postRenderers[..i + 1][..i] == hr.postRenderers[..i];
      if hr.postRenderers[i].kustomize.Some? {
        c.AddRenderer(Kustomize(hr.postRenderers[i].kustomize.value));
      }
    }
    assert hr.postRenderers[..|hr.postRenderers|] == hr.postRenderers;
    c.AddRenderer(OriginLabels(hr.name, hr.namespace));
  }

  lemma {:induction false} RunErrorSticks(renderers: seq<PostRenderer>, n: nat, input: string,
                                          apply: (PostRenderer, string) -> Result<string>)
    requires n <= |renderers|
    requires RunAll(renderers[..n], input, apply).Err?
    ensures RunAll(renderers, input, apply) == RunAll(renderers[..n], input, apply)
    decreases |renderers| - n
  {
    if n < |renderers| {
      assert renderers[..|renderers| - 1][..n] == renderers[..n];
      RunErrorSticks(renderers[..|renderers| - 1], n, input, apply);
    } else {
      assert renderers[..n] == renderers;
    }
  }

  /** With no renderers the input comes back unchanged. */
  lemma RunNone(input: string, apply: (PostRenderer, string) -> Result<string>)
    ensures RunAll([], input, apply) == Ok(input)
  {
  }

  /** Chaining two lists runs the second on the first's output. */
  lemma {:induction false} RunConcat(a: seq<PostRenderer>, b: seq<PostRenderer>, input: string,
                                     apply: (PostRenderer, string) -> Result<string>)
    ensures RunAll(a + b, input, apply) ==
      match RunAll(a, input, apply)
      case Err(e) => Err(e)
      case Ok(x) => RunAll(b, x, apply)
    decreases |b|
  {
    if b == [] {
      assert a + b == a;
    } else {
      assert (a + b)[..|a + b| - 1] == a + b[..|b| - 1];
      RunConcat(a, b[..|b| - 1], input, apply);
    }
  }

  /** The first failing renderer's error is the chain's result, whatever the
      renderers after it would do. */
  lemma FirstErrorWins(renderers: seq<PostRenderer>, k: nat, input: string,
                       apply: (PostRenderer, string) -> Result<string>, x: string)
    requires k < |renderers|
    requires RunAll(renderers[..k], input, apply) == Ok(x)
    requires apply(renderers[k], x).Err?
    ensures RunAll(renderers, input, apply) == apply(renderers[k], x)
  {
    assert renderers[..k + 1][..k] == renderers[..k];
    RunErrorSticks(renderers, k + 1, input, apply);
  }

  predicate HasKustomize(specs: seq<PostRendererSpec>, k: int) {
    0 <= k < |specs| && specs[k].kustomize.Some?
  }

  /** One kustomize renderer per entry that has a kustomize block. */
  lemma {:induction false} KustomizeRenderersCount(specs: seq<PostRendererSpec>)
    ensures |KustomizeRenderers(specs)| == |KustomizeIndices(specs)|
    decreases |specs|
  {
    if specs != [] {
      var init := specs[..|specs| - 1];
      KustomizeRenderersCount(init);
      KustomizeIndicesSnoc(specs);
    }
  }

  /** The positions of the entries that have a kustomize block. */
  function KustomizeIndices(specs: seq<PostRendererSpec>): set<int> {
    set k | 0 <= k < |specs| && HasKustomize(specs, k)
  }

  lemma KustomizeIndicesSnoc(specs: seq<PostRendererSpec>)
    requires specs != []
    ensures var n := |specs| - 1;
            KustomizeIndices(specs)
            == KustomizeIndices(specs[..n]) + (if specs[n].kustomize.Some? then {n} else {})
    ensures |specs| - 1 !in KustomizeIndices(specs[..|specs| - 1])
  {
    var n := |specs| - 1;
    var init := specs[..n];
    forall k ensures k in KustomizeIndices(specs) <==> k in KustomizeIndices(init) + (if specs[n].kustomize.Some? then {n} else {}) {
      if 0 <= k < n {
        assert HasKustomize(init, k) <==> HasKustomize(specs, k);
      }
    }
  }
}
