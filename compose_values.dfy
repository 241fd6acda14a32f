/** composeValues (pkg/helmrender/helmrender.go): folds a HelmRelease's
    valuesFrom sources, in order, into one values map and merges the release's
    inline values over the result. Reading a ConfigMap or Secret out of the
    store (scheme.Convert), parsing YAML (chartutil.ReadValues) and Helm's
    `--set` parsers (strvals.ParseInto, strvals.ParseIntoString) are parameters. */
module ValueComposer {
  import opened Wrappers
  import opened Values
  import opened Resources
  import opened FluxApi
  import opened GoStrings

  const CONFIGMAP_GVK := Gvk("", "v1", "ConfigMap")
  const SECRET_GVK := Gvk("", "v1", "Secret")

  /** The foreign decoders composeValues calls. */
  datatype Codecs = Codecs(
    configMapData: Resource -> Result<map<string, string>>,
    secretData: Resource -> Result<map<string, string>>,
    readValues: string -> Result<Values>,
    parseInto: (string, Values) -> Result<Values>,
    parseIntoString: (string, Values) -> Result<Values>)

  datatype NamespacedName = NamespacedName(namespace: string, name: string)

  /** types.NamespacedName.String. */
  function NameString(nn: NamespacedName): string {
    nn.namespace + "/" + nn.name
  }

  /** findResource: not found is `(false, nil)`, not an error; a found document
      is converted, and a conversion failure is the error. */
  function FindResource<T>(s: Store, gvk: Gvk, nn: NamespacedName, convert: Resource -> Result<T>): Result<Option<T>> {
    match Get(s, ResId(gvk, nn.namespace, nn.name))
    case None => Ok(None)
    case Some(res) =>
      match convert(res)
      case Err(e) => Err(e)
      case Ok(v) => Ok(Some(v))
  }

  /** Not found exactly when no document has the id; otherwise the result is
      the conversion of a document with that id. */
  lemma FindResourceSpec<T>(s: Store, gvk: Gvk, nn: NamespacedName, convert: Resource -> Result<T>)
    ensures var r := FindResource(s, gvk, nn, convert);
      && (r == Ok(None) <==> ResId(gvk, nn.namespace, nn.name) !in Ids(s))
      && (r != Ok(None) ==>
            exists i ::
              && 0 <= i < |s|
              && s[i].id == ResId(gvk, nn.namespace, nn.name)
              && convert(s[i]) == (match r case Ok(v) => Ok(v.value) case Err(e) => Err(e)))
  {
  }

  /** The message for a found ConfigMap or Secret that lacks the values key,
      naming the key and then the kind. */
  function MissingKeyMessage(key: string, kind: string, nn: NamespacedName): string {
    "missing key '" + key + "' in " + kind + " '" + NameString(nn) + "'"
  }

  /** The same message as helmrender.go formats it: the kind and the key
      arguments are given in swapped order. */
  function MissingKeyMessageAsWritten(key: string, kind: string, nn: NamespacedName): string {
    "missing key '" + kind + "' in " + key + " '" + NameString(nn) + "'"
  }

  /** The raw values text of one source: None when its document is not in the
      store (skipped), an error for an unsupported kind, a failed conversion or
      a missing key. */
  function SourceData(v: ValuesReference, ns: string, s: Store, codecs: Codecs): Result<Option<string>> {
    var nn := NamespacedName(ns, v.name);
    var key := GetValuesKey(v);
    if v.kind == "ConfigMap" then
      match FindResource(s, CONFIGMAP_GVK, nn, codecs.configMapData)
      case Err(e) => Err("error loading configmap " + NameString(nn) + ": " + e)
      case Ok(None) => Ok(None)
      case Ok(Some(data)) =>
        if key in data then Ok(Some(data[key])) else Err(MissingKeyMessage(key, v.kind, nn))
    else if v.kind == "Secret" then
      match FindResource(s, SECRET_GVK, nn, codecs.secretData)
      case Err(e) => Err("error loading secret " + NameString(nn) + ": " + e)
      case Ok(None) => Ok(None)
      case Ok(Some(data)) =>
        if key in data then Ok(Some(data[key])) else Err(MissingKeyMessage(key, v.kind, nn))
    else
      Err("unsupported ValuesReference kind '" + v.kind + "'")
  }

  /** The text starts and ends with the same quote character. */
  predicate IsQuoted(s: string) {
    (HasPrefix(s, "'") && HasSuffix(s, "'")) || (HasPrefix(s, "\"") && HasSuffix(s, "\""))
  }

  /** A `path=value` assignment for one of strvals' parsers. */
  datatype Assignment = Assignment(text: string, stringOnly: bool)

  /** A quoted value loses every leading and trailing quote character and goes
      to the string-only parser; anything else goes to the typed parser as it is. */
  function TargetAssignment(targetPath: string, data: string): Assignment {
    if IsQuoted(data) then Assignment(targetPath + "=" + Trim(data, "'\""), true)
    else Assignment(targetPath + "=" + data, false)
  }

  /** What one source contributes. */
  datatype Action =
    | Skip
    | Merge(vals: Values)
    | Assign(assignment: Assignment, context: string)
    | Fail(message: string)

  function SourceAction(v: ValuesReference, ns: string, s: Store, codecs: Codecs): Action {
    var nn := NamespacedName(ns, v.name);
    match SourceData(v, ns, s, codecs)
    case Err(e) => Fail(e)
    case Ok(None) => Skip
    case Ok(Some(data)) =>
      if v.targetPath == "" then
        match codecs.readValues(data)
        case Err(e) => Fail("error reading values from " + v.kind + " '" + NameString(nn) + "': " + e)
        case Ok(vals) => Merge(vals)
      else
        Assign(TargetAssignment(v.targetPath, data),
               "unable to merge value from key '" + GetValuesKey(v) + "' in " + v.kind + " '"
               + NameString(nn) + "' into target path '" + v.targetPath + "': ")
  }

  /** One step of the fold, on a non-nil accumulated map. */
  function Apply(result: Values, a: Action, codecs: Codecs): Result<Values> {
    match a
    case Skip => Ok(result)
    case Merge(vals) => Ok(MergeMaps(result, vals))
    case Fail(e) => Err(e)
    case Assign(asg, context) =>
      var parsed := if asg.stringOnly then codecs.parseIntoString(asg.text, result)
                    else codecs.parseInto(asg.text, result);
      match parsed
      case Err(e) => Err(context + e)
      case Ok(r) => Ok(r)
  }

  /** The sources folded left to right, starting from an empty map. */
  function FoldSources(refs: seq<ValuesReference>, ns: string, s: Store, codecs: Codecs): Result<Values>
    decreases |refs|
  {
    if refs == [] then Ok(map[])
    else
      match FoldSources(refs[..|refs| - 1], ns, s, codecs)
      case Err(e) => Err(e)
      case Ok(r) => Apply(r, SourceAction(refs[|refs| - 1], ns, s, codecs), codecs)
  }

  /** Once a prefix of the sources fails, the whole fold fails with the same error. */
  lemma {:induction false} FoldErrorSticks(refs: seq<ValuesReference>, n: nat, ns: string, s: Store, codecs: Codecs)
    requires n <= |refs|
    requires FoldSources(refs[..n], ns, s, codecs).Err?
    ensures FoldSources(refs, ns, s, codecs) == FoldSources(refs[..n], ns, s, codecs)
    decreases |refs| - n
  {
    if n < |refs| {
      var m := |refs| - 1;
      assert refs[..m][..n] == refs[..n];
      FoldErrorSticks(refs[..m], n, ns, s, codecs);
    } else {
      assert refs[..n] == refs;
    }
  }

  /** The composed values of a release: its sources, then its inline values. */
  function Composed(hr: HelmRelease, s: Store, codecs: Codecs): Result<Values> {
    match FoldSources(hr.valuesFrom, hr.namespace, s, codecs)
    case Err(e) => Err(e)
    case Ok(r) => Ok(MergeMaps(r, hr.values))
  }

  /** composeValues, starting from an empty (non-nil) map. */
  method ComposeValues(hr: HelmRelease, s: Store, codecs: Codecs) returns (r: Result<Values>)
    ensures r == Composed(hr, s, codecs)
  {
    var result: Values := map[];
    var refs := hr.valuesFrom;
    for i := 0 to |refs|
      invariant FoldSources(refs[..i], hr.namespace, s, codecs) == Ok(result)
    {
      assert refs[..i + 1][..i] == refs[..i];
      var out := ComposeSource(result, refs[i], hr.namespace, s, codecs);
      if out.Err? {
        FoldErrorSticks(refs, i + 1, hr.namespace, s, codecs);
        return Err(out.error);
      }
      result := out.value;
    }
    assert refs[..|refs|] == refs;
    return Ok(MergeMaps(result, hr.values));
  }

  /** The body of composeValues' loop for one source, on the map built so far. */
  method ComposeSource(result: Values, v: ValuesReference, ns: string, s: Store, codecs: Codecs) returns (out: Result<Values>)
    ensures out == Apply(result, SourceAction(v, ns, s, codecs), codecs)
  {
    var nn := NamespacedName(ns, v.name);
    var loaded := SourceData(v, ns, s, codecs);
    ghost var action := SourceAction(v, ns, s, codecs);
    if loaded.Err? {
      return Err(loaded.error);
    }
    if loaded.value.None? {
      return Ok(result);
    }
    var valuesData := loaded.value.value;
    if v.targetPath == "" {
      var values := codecs.readValues(valuesData);
      if values.Err? {
        return Err("error reading values from " + v.kind + " '" + NameString(nn) + "': " + values.error);
      }
      return Ok(MergeMaps(result, values.value));
    }
    var context := "unable to merge value from key '" + GetValuesKey(v) + "' in " + v.kind + " '"
                   + NameString(nn) + "' into target path '" + v.targetPath + "': ";
    var parsed: Result<Values>;
    if IsQuoted(valuesData) {
      parsed := codecs.parseIntoString(v.targetPath + "=" + Trim(valuesData, "'\""), result);
    } else {
      parsed := codecs.parseInto(v.targetPath + "=" + valuesData, result);
    }
    if parsed.Err? {
      return Err(context + parsed.error);
    }
    return Ok(parsed.value);
  }

  // ----- properties of the fold -----

  /** A source is skipped exactly when it names a ConfigMap or a Secret that is
      not in the store. */
  lemma SkippedExactlyWhenAbsent(v: ValuesReference, ns: string, s: Store, codecs: Codecs)
    ensures SourceAction(v, ns, s, codecs) == Skip <==>
      || (v.kind == "ConfigMap" && ResId(CONFIGMAP_GVK, ns, v.name) !in Ids(s))
      || (v.kind == "Secret" && ResId(SECRET_GVK, ns, v.name) !in Ids(s))
  {
  }

  /** A skipped source can be dropped from anywhere in the list without changing
      the fold. */
  lemma {:induction false} SkipIsNeutral(pre: seq<ValuesReference>, v: ValuesReference, post: seq<ValuesReference>,
                                         ns: string, s: Store, codecs: Codecs)
    requires SourceAction(v, ns, s, codecs) == Skip
    ensures FoldSources(pre + [v] + post, ns, s, codecs) == FoldSources(pre + post, ns, s, codecs)
    decreases |post|
  {
    if post == [] {
      assert pre + [v] + post == pre + [v] && pre + post == pre;
      SkipAtEnd(pre, v, ns, s, codecs);
    } else {
      var last := post[|post| - 1];
      var init := post[..|post| - 1];
      assert (pre + [v] + post)[..|pre + [v] + post| - 1] == pre + [v] + init;
      assert (pre + post)[..|pre + post| - 1] == pre + init;
      SkipIsNeutral(pre, v, init, ns, s, codecs);
    }
  }

  /** A skipped source at the end of the list leaves the fold as it was. */
  lemma SkipAtEnd(pre: seq<ValuesReference>, v: ValuesReference, ns: string, s: Store, codecs: Codecs)
    requires SourceAction(v, ns, s, codecs) == Skip
    ensures FoldSources(pre + [v], ns, s, codecs) == FoldSources(pre, ns, s, codecs)
  {
    assert (pre + [v])[..|pre|] == pre;
  }

  /** Any kind other than ConfigMap and Secret stops the fold with an error. */
  lemma UnsupportedKindFails(v: ValuesReference, ns: string, s: Store, codecs: Codecs)
    requires v.kind != "ConfigMap" && v.kind != "Secret"
    ensures SourceAction(v, ns, s, codecs) == Fail("unsupported ValuesReference kind '" + v.kind + "'")
  {
  }

  /** A ConfigMap or Secret that is present and decodes but lacks the values
      key stops the fold with the missing-key error. */
  lemma MissingKeyFails(v: ValuesReference, ns: string, s: Store, codecs: Codecs, i: int, data: map<string, string>)
    requires 0 <= i < |s|
    requires || (v.kind == "ConfigMap" && s[i].id == ResId(CONFIGMAP_GVK, ns, v.name) && codecs.configMapData(s[i]) == Ok(data))
             || (v.kind == "Secret" && s[i].id == ResId(SECRET_GVK, ns, v.name) && codecs.secretData(s[i]) == Ok(data))
    requires GetValuesKey(v) !in data
    ensures SourceAction(v, ns, s, codecs) == Fail(MissingKeyMessage(GetValuesKey(v), v.kind, NamespacedName(ns, v.name)))
  {
    var gvk := if v.kind == "ConfigMap" then CONFIGMAP_GVK else SECRET_GVK;
    assert Get(s, ResId(gvk, ns, v.name)) == Some(s[i]);
  }

  /** A merge-mode source is merged over everything before it: its values are
      in the fold's result, nested maps merged key by key. */
  lemma LastMergeSourceWins(refs: seq<ValuesReference>, ns: string, s: Store, codecs: Codecs, vals: Values)
    requires |refs| > 0
    requires SourceAction(refs[|refs| - 1], ns, s, codecs) == Merge(vals)
    requires FoldSources(refs[..|refs| - 1], ns, s, codecs).Ok?
    ensures FoldSources(refs, ns, s, codecs).Ok?
    ensures Subsumes(FoldSources(refs, ns, s, codecs).value, vals)
  {
    MergeSubsumesRight(FoldSources(refs[..|refs| - 1], ns, s, codecs).value, vals);
  }

  /** The inline values are merged last, so they win over every source, and
      the composed keys are the sources' keys plus the inline keys. */
  lemma InlineValuesWin(hr: HelmRelease, s: Store, codecs: Codecs)
    requires Composed(hr, s, codecs).Ok?
    ensures Subsumes(Composed(hr, s, codecs).value, hr.values)
    ensures hr.values.Keys <= Composed(hr, s, codecs).value.Keys
  {
    MergeSubsumesRight(FoldSources(hr.valuesFrom, hr.namespace, s, codecs).value, hr.values);
  }

  /** Layering: {a:1, b:1} from the first source, {b:2, c:2} from the second
      and {c:3} inline compose to {a:1, b:2, c:3}. */
  lemma {:induction false} LayeringExample(hr: HelmRelease, s: Store, codecs: Codecs)
    requires |hr.valuesFrom| == 2
    requires SourceAction(hr.valuesFrom[0], hr.namespace, s, codecs)
             == Merge(map["a" := VNumber(1), "b" := VNumber(1)])
    requires SourceAction(hr.valuesFrom[1], hr.namespace, s, codecs)
             == Merge(map["b" := VNumber(2), "c" := VNumber(2)])
    requires hr.values == map["c" := VNumber(3)]
    ensures Composed(hr, s, codecs) == Ok(map["a" := VNumber(1), "b" := VNumber(2), "c" := VNumber(3)])
  {
    var refs := hr.valuesFrom;
    assert refs[..1][..0] == [];
    assert refs[..2][..1] == refs[..1];
    assert refs[..2] == refs;
    var m1 := MergeMaps(map[], map["a" := VNumber(1), "b" := VNumber(1)]);
    assert FoldSources(refs[..1], hr.namespace, s, codecs) == Ok(m1);
    var m2 := MergeMaps(m1, map["b" := VNumber(2), "c" := VNumber(2)]);
    assert FoldSources(refs, hr.namespace, s, codecs) == Ok(m2);
    LayeredMaps();
  }

  /** The merges of LayeringExample, key by key. */
  lemma LayeredMaps()
    ensures var m1 := MergeMaps(map[], map["a" := VNumber(1), "b" := VNumber(1)]);
            var m2 := MergeMaps(m1, map["b" := VNumber(2), "c" := VNumber(2)]);
            MergeMaps(m2, map["c" := VNumber(3)]) == map["a" := VNumber(1), "b" := VNumber(2), "c" := VNumber(3)]
  {
    var m1 := MergeMaps(map[], map["a" := VNumber(1), "b" := VNumber(1)]);
    MergeEmpty(map["a" := VNumber(1), "b" := VNumber(1)]);
    var m2 := MergeMaps(m1, map["b" := VNumber(2), "c" := VNumber(2)]);
    assert m2.Keys == {"a", "b", "c"};
    assert m2["a"] == VNumber(1) && m2["b"] == VNumber(2) && m2["c"] == VNumber(2);
    assert m2 == map["a" := VNumber(1), "b" := VNumber(2), "c" := VNumber(2)];
    var m3 := MergeMaps(m2, map["c" := VNumber(3)]);
    assert m3.Keys == {"a", "b", "c"};
    assert m3["a"] == VNumber(1) && m3["b"] == VNumber(2) && m3["c"] == VNumber(3);
  }

  // ----- target-path sources -----

  /** A quoted value goes to the string-only parser with its surrounding quote
      characters cut off; the assignment carries the inner text unchanged. */
  lemma QuotedValueIsString(targetPath: string, data: string)
    requires IsQuoted(data)
    ensures var a := TargetAssignment(targetPath, data);
      && a.stringOnly
      && exists i, j ::
        && 0 <= i <= j <= |data|
        && a.text == targetPath + "=" + data[i..j]
        && (forall k :: 0 <= k < i ==> data[k] in "'\"")
        && (forall k :: j <= k < |data| ==> data[k] in "'\"")
        && (i < j ==> data[i] !in "'\"" && data[j - 1] !in "'\"")
  {
    var i, j := TrimPiece(data, "'\"");
  }

  /** An unquoted value goes to the typed parser exactly as it is. */
  lemma UnquotedValueIsTyped(targetPath: string, data: string)
    requires !IsQuoted(data)
    ensures TargetAssignment(targetPath, data) == Assignment(targetPath + "=" + data, false)
  {
  }

  /** A value wrapped in one pair of quote characters, with no quote character
      at either end of its inner text, is trimmed to exactly that inner text. */
  lemma StripQuotes(open: char, inner: string, close: char)
    requires open in "'\"" && close in "'\""
    requires inner != [] && inner[0] !in "'\"" && inner[|inner| - 1] !in "'\""
    ensures Trim([open] + inner + [close], "'\"") == inner
  {
    var f := InCutset("'\"");
    var data := [open] + inner + [close];
    assert data[1..] == inner + [close];
    assert TrimLeftFunc(data, f) == TrimLeftFunc(inner + [close], f) == inner + [close];
    assert (inner + [close])[..|inner|] == inner;
    assert TrimRightFunc(inner + [close], f) == TrimRightFunc(inner, f) == inner;
  }

  /** A value in one pair of matching quotes, such as `"true"`, is assigned
      as the string between them... */
  lemma QuotedValueStripped(targetPath: string, q: char, inner: string)
    requires q in "'\""
    requires inner != [] && inner[0] !in "'\"" && inner[|inner| - 1] !in "'\""
    ensures TargetAssignment(targetPath, [q] + inner + [q]) == Assignment(targetPath + "=" + inner, true)
  {
    var data := [q] + inner + [q];
    assert data[..1] == [q] && data[|data| - 1..] == [q];
    assert IsQuoted(data);
    StripQuotes(q, inner, q);
  }

  /** ...while `true` (unquoted) sets a boolean. */
  lemma {:induction false} UnquotedTrueExample()
    ensures TargetAssignment("enabled", "true") == Assignment("enabled=true", false)
  {
    assert "true"[0] == 't';
    assert !HasPrefix("true", "'") && !HasPrefix("true", "\"");
  }

  // ----- the code as written: the fold starts from a nil map -----

  /** The source's document is present and decodes, but lacks the values key. */
  predicate MissingKey(v: ValuesReference, ns: string, s: Store, codecs: Codecs) {
    var nn := NamespacedName(ns, v.name);
    var found := if v.kind == "ConfigMap" then FindResource(s, CONFIGMAP_GVK, nn, codecs.configMapData)
                 else FindResource(s, SECRET_GVK, nn, codecs.secretData);
    && (v.kind == "ConfigMap" || v.kind == "Secret")
    && found.Ok? && found.value.Some? && GetValuesKey(v) !in found.value.value
  }

  /** What one source contributes as the code is written: the same as
      `SourceAction`, except that a missing key fails with the swapped text. */
  function SourceActionAsWritten(v: ValuesReference, ns: string, s: Store, codecs: Codecs): Action {
    if MissingKey(v, ns, s, codecs) then
      Fail(MissingKeyMessageAsWritten(GetValuesKey(v), v.kind, NamespacedName(ns, v.name)))
    else SourceAction(v, ns, s, codecs)
  }

  /** The two versions of a source's contribution differ only in the text of
      the missing-key failure, which the corrected one states key first. */
  lemma SourceActionAsWrittenSpec(v: ValuesReference, ns: string, s: Store, codecs: Codecs)
    ensures var nn := NamespacedName(ns, v.name);
      && (MissingKey(v, ns, s, codecs) ==>
            && SourceAction(v, ns, s, codecs) == Fail(MissingKeyMessage(GetValuesKey(v), v.kind, nn))
            && SourceActionAsWritten(v, ns, s, codecs) == Fail(MissingKeyMessageAsWritten(GetValuesKey(v), v.kind, nn)))
      && (!MissingKey(v, ns, s, codecs) ==> SourceActionAsWritten(v, ns, s, codecs) == SourceAction(v, ns, s, codecs))
  {
  }

  /** What one step of the written loop does to a possibly-nil map. */
  datatype Outcome = Completed(values: Option<Values>) | Failed(message: string)

  /** The error strvals' key parser returns when it recovers from writing into
      a nil map. */
  const NIL_MAP_ERROR := "unable to parse key: assignment to entry in nil map"

  /** A merge-mode step copies into a fresh map, so a nil accumulator is
      harmless there; a target-path step hands the nil map to strvals, whose
      first write fails with NIL_MAP_ERROR. The model counts that as happening
      exactly when the assignment parses: an assignment that writes a key and
      then fails on a later part of its text also gets NIL_MAP_ERROR in the
      code, where the model reports the parse failure. */
  function ApplyAsWritten(result: Option<Values>, a: Action, codecs: Codecs): Outcome {
    match a
    case Skip => Completed(result)
    case Merge(vals) => Completed(Some(MergeMaps(if result.Some? then result.value else map[], vals)))
    case Fail(e) => Failed(e)
    case Assign(asg, context) =>
      if result.None? && Apply(map[], a, codecs).Ok? then Failed(context + NIL_MAP_ERROR)
      else
        match Apply(if result.Some? then result.value else map[], a, codecs)
        case Ok(r) => Completed(Some(r))
        case Err(e) => Failed(e)
  }

  function FoldSourcesAsWritten(refs: seq<ValuesReference>, ns: string, s: Store, codecs: Codecs): Outcome
    decreases |refs|
  {
    if refs == [] then Completed(None)
    else
      match FoldSourcesAsWritten(refs[..|refs| - 1], ns, s, codecs)
      case Completed(r) => ApplyAsWritten(r, SourceActionAsWritten(refs[|refs| - 1], ns, s, codecs), codecs)
      case other => other
  }

  function ComposedAsWritten(hr: HelmRelease, s: Store, codecs: Codecs): Outcome {
    match FoldSourcesAsWritten(hr.valuesFrom, hr.namespace, s, codecs)
    case Completed(r) => Completed(Some(MergeMaps(if r.Some? then r.value else map[], hr.values)))
    case other => other
  }

  /** As written: a release whose first source is a present target-path source
      with a well-formed assignment fails with the nil-map error, while the
      corrected fold applies that assignment. */
  lemma NilMapFails(hr: HelmRelease, s: Store, codecs: Codecs, asg: Assignment, context: string)
    requires |hr.valuesFrom| >= 1
    requires SourceAction(hr.valuesFrom[0], hr.namespace, s, codecs) == Assign(asg, context)
    requires Apply(map[], Assign(asg, context), codecs).Ok?
    ensures ComposedAsWritten(hr, s, codecs) == Failed(context + NIL_MAP_ERROR)
    ensures FoldSources(hr.valuesFrom[..1], hr.namespace, s, codecs).Ok?
  {
    SourceActionAsWrittenSpec(hr.valuesFrom[0], hr.namespace, s, codecs);
    assert hr.valuesFrom[..1][..0] == [];
    assert FoldSourcesAsWritten(hr.valuesFrom[..1], hr.namespace, s, codecs) == Failed(context + NIL_MAP_ERROR);
    FailedSticks(hr.valuesFrom, 1, hr.namespace, s, codecs);
  }

  /** Corrected: the same release applies the assignment to the empty map. */
  lemma FirstTargetPathApplies(hr: HelmRelease, s: Store, codecs: Codecs, asg: Assignment, context: string)
    requires |hr.valuesFrom| >= 1
    requires SourceAction(hr.valuesFrom[0], hr.namespace, s, codecs) == Assign(asg, context)
    requires Apply(map[], Assign(asg, context), codecs).Ok?
    ensures FoldSources(hr.valuesFrom[..1], hr.namespace, s, codecs) == Apply(map[], Assign(asg, context), codecs)
  {
    assert hr.valuesFrom[..1][..0] == [];
  }

  /** Where neither version fails, both compute the same values. */
  lemma {:induction false} AsWrittenAgrees(refs: seq<ValuesReference>, ns: string, s: Store, codecs: Codecs)
    requires FoldSourcesAsWritten(refs, ns, s, codecs).Completed?
    requires FoldSources(refs, ns, s, codecs).Ok?
    ensures FoldSources(refs, ns, s, codecs).value ==
      var r := FoldSourcesAsWritten(refs, ns, s, codecs).values; if r.Some? then r.value else map[]
    decreases |refs|
  {
    if refs != [] {
      var init := refs[..|refs| - 1];
      AsWrittenAgrees(init, ns, s, codecs);
      SourceActionAsWrittenSpec(refs[|refs| - 1], ns, s, codecs);
      var a := SourceAction(refs[|refs| - 1], ns, s, codecs);
      if a.Merge? {
        MergeEmpty(a.vals);
      }
    }
  }

  /** As written, a release whose first source is a present ConfigMap or
      Secret without the values key fails with the swapped text, where the
      corrected fold reports the key first. */
  lemma MissingKeyFailsAsWritten(hr: HelmRelease, s: Store, codecs: Codecs)
    requires |hr.valuesFrom| >= 1 && MissingKey(hr.valuesFrom[0], hr.namespace, s, codecs)
    ensures var v := hr.valuesFrom[0];
            var nn := NamespacedName(hr.namespace, v.name);
      && ComposedAsWritten(hr, s, codecs) == Failed(MissingKeyMessageAsWritten(GetValuesKey(v), v.kind, nn))
      && Composed(hr, s, codecs) == Err(MissingKeyMessage(GetValuesKey(v), v.kind, nn))
  {
    var refs := hr.valuesFrom;
    SourceActionAsWrittenSpec(refs[0], hr.namespace, s, codecs);
    assert refs[..1][..0] == [];
    assert FoldSourcesAsWritten(refs[..1], hr.namespace, s, codecs).Failed?;
    FailedSticks(refs, 1, hr.namespace, s, codecs);
    assert FoldSources(refs[..1], hr.namespace, s, codecs).Err?;
    FoldErrorSticks(refs, 1, hr.namespace, s, codecs);
  }

  /** As written, a failing step ends the loop with its message. */
  lemma {:induction false} FailedSticks(refs: seq<ValuesReference>, n: nat, ns: string, s: Store, codecs: Codecs)
    requires n <= |refs|
    requires FoldSourcesAsWritten(refs[..n], ns, s, codecs).Failed?
    ensures FoldSourcesAsWritten(refs, ns, s, codecs) == FoldSourcesAsWritten(refs[..n], ns, s, codecs)
    decreases |refs| - n
  {
    if n < |refs| {
      assert refs[..|refs| - 1][..n] == refs[..n];
      FailedSticks(refs[..|refs| - 1], n, ns, s, codecs);
    } else {
      assert refs[..n] == refs;
    }
  }

  /** As written, the missing-key message is the intended one with the key and
      the kind exchanged: the kind stands where the key belongs. */
  lemma MissingKeyMessageSwapped(key: string, kind: string, nn: NamespacedName)
    ensures MissingKeyMessageAsWritten(key, kind, nn) == MissingKeyMessage(kind, key, nn)
    ensures MissingKeyMessageAsWritten(key, kind, nn)[13..13 + |kind|] == kind
  {
    MissingKeyMessageNamesKey(kind, key, nn);
  }

  /** Corrected: the message names the missing key first and the kind after it. */
  lemma MissingKeyMessageNamesKey(key: string, kind: string, nn: NamespacedName)
    ensures var msg := MissingKeyMessage(key, kind, nn);
      && msg[..13] == "missing key '"
      && msg[13..13 + |key|] == key
      && msg[13 + |key|..17 + |key|] == "' in"
      && msg[18 + |key|..18 + |key| + |kind|] == kind
  {
  }
}
