/**
 * Automatic backend detection: the backend list on the models partition maps each
 * backend name to a list of model-name patterns or to one string of patterns; the
 * first backend with a pattern that matches the model name, in either direction of
 * containment, is chosen.
 */
module Backend {
  import opened Wrappers
  import opened Text
  import opened FileSystem
  import opened Mounts

  /** The value stored under a backend name in `backend_list.yaml`. */
  datatype PatternValue =
    | PatternList(patterns: seq<string>)   // a YAML list of strings
    | PatternText(text: string)            // a single YAML string
    | OtherValue                           // anything else: a number, a mapping, null

  /** The parsed backend list: its entries in the file's order. */
  type Manifest = seq<(string, PatternValue)>

  /** Separators of a pattern string: ASCII comma, full-width comma and whitespace. */
  const PatternSeparators: set<char> := Whitespace + {',', '\U{FF0C}'}

  /** The patterns a value contributes: the list elements, or the tokens of the
      stripped string split at runs of separators with empty tokens dropped. */
  function Patterns(v: PatternValue): (ps: seq<string>)
    ensures v.PatternList? ==> ps == v.patterns
    ensures v.PatternText? ==> forall p :: p in ps ==> IsWord(p, PatternSeparators)
    ensures v.OtherValue? ==> ps == []
  {
    match v
    case PatternList(ps) => ps
    case PatternText(t) => Tokens(Strip(t), PatternSeparators)
    case OtherValue => []
  }

  /** Every pattern taken from a string is non-empty and separator-free, and exactly
      the tokens of the unstripped string. */
  lemma PatternTextTokens(t: string)
    ensures Patterns(PatternText(t)) == Tokens(t, PatternSeparators)
    ensures forall p :: p in Patterns(PatternText(t)) ==>
      p != [] && forall i :: 0 <= i < |p| ==> p[i] !in PatternSeparators
  {
    TokensIgnoreStrip(t, PatternSeparators);
  }

  /** The three-way test: equal, the model name inside the pattern, or the pattern
      inside the model name. */
  predicate Matches(modelName: string, p: string)
  {
    modelName == p || IsSubstring(modelName, p) || IsSubstring(p, modelName)
  }

  /** The test is symmetric and amounts to containment one way or the other. */
  lemma MatchesIff(modelName: string, p: string)
    ensures Matches(modelName, p) <==> Matches(p, modelName)
    ensures Matches(modelName, p) <==>
      (exists k: nat :: OccursAt(modelName, p, k)) || (exists k: nat :: OccursAt(p, modelName, k))
  {
    IsSubstringIff(modelName, p);
    IsSubstringIff(p, modelName);
    if modelName == p {
      assert OccursAt(p, modelName, 0);
    }
  }

  /** Some pattern of `v` matches `modelName`. */
  predicate Hits(modelName: string, v: PatternValue)
  {
    exists k :: 0 <= k < |Patterns(v)| && Matches(modelName, Patterns(v)[k])
  }

  /** Entry `i` is the first entry of `m` with a matching pattern. */
  ghost predicate IsFirstHit(modelName: string, m: Manifest, i: int)
  {
    0 <= i < |m| && Hits(modelName, m[i].1) &&
    forall j :: 0 <= j < i ==> !Hits(modelName, m[j].1)
  }

  /** The backend of the first entry with a matching pattern, if any. */
  function FirstMatch(modelName: string, m: Manifest): Option<string>
    decreases |m|
  {
    if m == [] then None
    else if Hits(modelName, m[0].1) then Some(m[0].0)
    else FirstMatch(modelName, m[1..])
  }

  /** First match: the result is the backend of the earliest entry with a matching
      pattern, and is absent exactly when no entry has one. */
  lemma {:induction false} FirstMatchIsFirstHit(modelName: string, m: Manifest)
    ensures FirstMatch(modelName, m).None? <==> forall i :: 0 <= i < |m| ==> !Hits(modelName, m[i].1)
    ensures FirstMatch(modelName, m).Some? ==>
      exists i :: IsFirstHit(modelName, m, i) && m[i].0 == FirstMatch(modelName, m).value
    decreases |m|
  {
    if m == [] {
    } else if Hits(modelName, m[0].1) {
      assert IsFirstHit(modelName, m, 0);
    } else {
      var rest := m[1..];
      FirstMatchIsFirstHit(modelName, rest);
      if FirstMatch(modelName, rest).Some? {
        var i :| IsFirstHit(modelName, rest, i) && rest[i].0 == FirstMatch(modelName, rest).value;
        forall j | 0 <= j < i + 1
          ensures !Hits(modelName, m[j].1)
        {
          if j > 0 {
            assert m[j] == rest[j - 1];
          }
        }
        assert m[i + 1] == rest[i];
        assert IsFirstHit(modelName, m, i + 1);
      } else {
        forall j | 0 <= j < |m|
          ensures !Hits(modelName, m[j].1)
        {
          if j > 0 {
            assert m[j] == rest[j - 1];
          }
        }
      }
    }
  }

  /** An entry whose value is neither a list nor a string never decides the result. */
  lemma {:induction false} OtherValueSkipped(modelName: string, pre: Manifest, backend: string, post: Manifest)
    ensures FirstMatch(modelName, pre + [(backend, OtherValue)] + post) ==
      (if FirstMatch(modelName, pre).Some? then FirstMatch(modelName, pre) else FirstMatch(modelName, post))
    decreases |pre|
  {
    var m := pre + [(backend, OtherValue)] + post;
    if pre == [] {
      assert m[1..] == post;
    } else {
      assert m[0] == pre[0];
      assert m[1..] == pre[1..] + [(backend, OtherValue)] + post;
      OtherValueSkipped(modelName, pre[1..], backend, post);
    }
  }

  /** A model name that extends a listed pattern selects that backend; an empty
      backend list selects none. */
  lemma FirstMatchExamples()
    ensures FirstMatch("Qwen2.5-7B-Instruct", [("FlashInfer", PatternList(["Qwen2.5-7B"]))]) == Some("FlashInfer")
    ensures FirstMatch("UnknownModel", []) == None
  {
    var name, p := "Qwen2.5-7B-Instruct", "Qwen2.5-7B";
    assert OccursAt(p, name, 0);
    IsSubstringIff(p, name);
    assert Patterns(PatternList([p]))[0] == p;
    assert Matches(name, Patterns(PatternList([p]))[0]);
  }

  /** The inner loop of `auto_detect_backend`: whether some pattern, tried in order,
      matches the model name. */
  method AnyPatternMatches(modelName: string, patterns: seq<string>) returns (hit: bool)
    ensures hit <==> exists k :: 0 <= k < |patterns| && Matches(modelName, patterns[k])
  {
    for k := 0 to |patterns|
      invariant forall l :: 0 <= l < k ==> !Matches(modelName, patterns[l])
    {
      var p := patterns[k];
      if modelName == p || IsSubstring(modelName, p) || IsSubstring(p, modelName) {
        return true;
      }
    }
    return false;
  }

  /** The matching loop of `auto_detect_backend`: entries in order, the patterns of
      each in order, the first match returns its backend. */
  method DetectBackend(modelName: string, m: Manifest) returns (r: Option<string>)
    ensures r == FirstMatch(modelName, m)
    ensures r.None? <==> forall i :: 0 <= i < |m| ==> !Hits(modelName, m[i].1)
    ensures r.Some? ==> exists i :: IsFirstHit(modelName, m, i) && m[i].0 == r.value
  {
    FirstMatchIsFirstHit(modelName, m);
    for i := 0 to |m|
      invariant forall j :: 0 <= j < i ==> !Hits(modelName, m[j].1)
      invariant FirstMatch(modelName, m) == FirstMatch(modelName, m[i..])
    {
      var (backend, value) := m[i];
      assert m[i..][0] == m[i] && m[i..][1..] == m[i + 1..];
      var hit := AnyPatternMatches(modelName, Patterns(value));
      if hit {
        return Some(backend);
      }
    }
    assert m[|m|..] == [];
    return None;
  }

  /** Where the backend list lives on the models partition. */
  function BackendListPath(mountPoint: string): string
  {
    JoinAll(mountPoint, ["98autoshell", "backend_list.yaml"])
  }

  /** `auto_detect_backend(model_name, config)`: no result when the models partition
      is not mounted, when the backend list is missing, or when it cannot be read as
      a mapping (`parsed == None`); otherwise the first match. */
  method AutoDetectBackend(modelName: string, sda2: Option<string>, fs: Fs, parsed: Option<Manifest>)
    returns (r: Option<string>)
    ensures r.Some? ==> Mounted(sda2) && BackendListPath(sda2.value) in fs.existing && parsed.Some?
    ensures Mounted(sda2) && BackendListPath(sda2.value) in fs.existing && parsed.Some? ==>
      r == FirstMatch(modelName, parsed.value)
  {
    if !Mounted(sda2) {
      return None;
    }
    var yamlPath := BackendListPath(sda2.value);
    if yamlPath !in fs.existing {
      return None;
    }
    if parsed.None? {
      return None;
    }
    var backendList := parsed.value;
    if backendList == [] {
      return None;
    }
    r := DetectBackend(modelName, backendList);
  }
}
