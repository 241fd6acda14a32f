/** pkg/action/action.go, NewFromInputs: the GitHub Action's inputs turned into
    a configuration. The inputs are read through `getInput`, which stands for
    the Actions runtime's input lookup (an unset input reads as ""). */
module ActionInputs {
  import opened Wrappers
  import opened GoStrings

  datatype Config = Config(
    helm: bool,
    kustomizations: seq<string>,
    repoA: string,
    repoB: string,
    writeMarkdown: string,
    markdownTemplate: string)

  const MISSING_REPOS := "must configure both repo-a and repo-b"

  /** The kustomization paths named by a list of lines: each line trimmed,
      blank lines dropped, in input order. */
  function PathsOf(lines: seq<string>): seq<string>
    decreases |lines|
  {
    if lines == [] then []
    else
      var ks := TrimSpace(lines[|lines| - 1]);
      PathsOf(lines[..|lines| - 1]) + (if ks != "" then [ks] else [])
  }

  /** The paths named by the multi-line "kustomizations" input. */
  function KustomizationList(input: string): seq<string> {
    PathsOf(Split(input, '\n'))
  }

  /** NewFromInputs: an error, and no configuration, unless both repositories
      are named; otherwise the configuration with `helm` set exactly by the
      input "true", the kustomization list, and the other inputs verbatim. */
  method NewFromInputs(getInput: string -> string) returns (r: Result<Config>)
    ensures r.Err? <==> getInput("repo-a") == "" || getInput("repo-b") == ""
    ensures r.Err? ==> r.error == "must configure both repo-a and repo-b"
    ensures r.Ok? ==> (r.value.helm <==> getInput("helm") == "true")
    ensures r.Ok? ==> r.value.kustomizations == KustomizationList(getInput("kustomizations"))
    ensures r.Ok? ==> && r.value.repoA == getInput("repo-a") && r.value.repoB == getInput("repo-b")
                      && r.value.writeMarkdown == getInput("write-markdown")
                      && r.value.markdownTemplate == getInput("markdown-template")
  {
    var lines := Split(getInput("kustomizations"), '\n');
    var cfg := Config(false, [], getInput("repo-a"), getInput("repo-b"), "", "");
    if cfg.repoA == "" || cfg.repoB == "" {
      return Err(MISSING_REPOS);
    }
    if getInput("helm") == "true" {
      cfg := cfg.(helm := true);
    }
    for i := 0 to |lines|
      invariant cfg.kustomizations == PathsOf(lines[..i])
      invariant cfg.helm <==> getInput("helm") == "true"
      invariant cfg.repoA == getInput("repo-a") && cfg.repoB == getInput("repo-b")
    {
      var ks := TrimSpace(lines[i]);
      assert lines[..i + 1][..i] == lines[..i];
      if ks != "" {
        cfg := cfg.(kustomizations := cfg.kustomizations + [ks]);
      }
    }
    assert lines[..|lines|] == lines;
    cfg := cfg.(writeMarkdown := getInput("write-markdown"), markdownTemplate := getInput("markdown-template"));
    return Ok(cfg);
  }

  /** Every entry is non-empty and already trimmed. */
  lemma {:induction false} PathsTrimmed(lines: seq<string>)
    ensures forall e :: e in PathsOf(lines) ==> e != "" && TrimSpace(e) == e
    decreases |lines|
  {
    if lines != [] {
      PathsTrimmed(lines[..|lines| - 1]);
      TrimSpaceIdempotent(lines[|lines| - 1]);
    }
  }

  /** A path is listed exactly when some line trims to it. */
  lemma {:induction false} PathsMembership(lines: seq<string>, x: string)
    ensures x in PathsOf(lines) <==> x != "" && exists line :: line in lines && TrimSpace(line) == x
    decreases |lines|
  {
    if lines != [] {
      var init, last := lines[..|lines| - 1], lines[|lines| - 1];
      PathsMembership(init, x);
      var ks := TrimSpace(last);
      assert PathsOf(lines) == PathsOf(init) + (if ks != "" then [ks] else []);
      assert last in lines;
      if line :| line in init && TrimSpace(line) == x {
        assert line in lines;
      }
      if line :| line in lines && TrimSpace(line) == x {
        if line != last {
          assert line in init by {
            var i :| 0 <= i < |lines| && lines[i] == line;
            assert init[i] == line;
          }
        }
      }
    }
  }

  /** Order follows the input: the paths of two groups of lines are the
      paths of the first group followed by those of the second. */
  lemma {:induction false} PathsInOrder(lines1: seq<string>, lines2: seq<string>)
    ensures PathsOf(lines1 + lines2) == PathsOf(lines1) + PathsOf(lines2)
    decreases |lines2|
  {
    if lines2 == [] {
      assert lines1 + lines2 == lines1;
    } else {
      var init := lines2[..|lines2| - 1];
      PathsInOrder(lines1, init);
      assert (lines1 + lines2)[..|lines1 + lines2| - 1] == lines1 + init;
    }
  }

  /** Lines that are already trimmed and non-empty are kept as they are. */
  lemma {:induction false} PathsOfTrimmed(paths: seq<string>)
    requires forall k :: 0 <= k < |paths| ==> paths[k] != "" && TrimSpace(paths[k]) == paths[k]
    ensures PathsOf(paths) == paths
    decreases |paths|
  {
    if paths != [] {
      var init := paths[..|paths| - 1];
      assert forall k :: 0 <= k < |init| ==> init[k] == paths[k];
      PathsOfTrimmed(init);
      assert init + [paths[|paths| - 1]] == paths;
    }
  }

  /** Writing a list of trimmed, non-empty, single-line paths one per line
      gives back exactly that list. */
  lemma KustomizationsRoundTrip(paths: seq<string>)
    requires forall k :: 0 <= k < |paths| ==> paths[k] != "" && TrimSpace(paths[k]) == paths[k] && '\n' !in paths[k]
    ensures KustomizationList(Join(paths, "\n")) == paths
  {
    if paths == [] {
      assert Split("", '\n') == [""];
      assert TrimSpace("") == "";
      assert PathsOf([""]) == PathsOf([]) + [];
    } else {
      SplitJoin(paths, '\n');
      PathsOfTrimmed(paths);
    }
  }
}
