/**
 * Choosing the models of one manufacturer from a scan: an exact match on the
 * manufacturer, except that the bucket `Others` collects every model whose
 * manufacturer is none of the five known vendors.
 */
module Filter {
  import opened Scan

  /** The vendors the `Others` bucket excludes. */
  const KnownManufacturers: seq<string> := ["Qwen", "GPT", "Llama", "DeepSeek", "Gemma"]

  /** Whether a model of manufacturer `m` is listed when `request` is selected. */
  predicate Keeps(request: string, m: string)
  {
    if request == OthersBucket then m !in KnownManufacturers else m == request
  }

  /** The models listed for `request`, in scan order. */
  function Filtered(request: string, models: seq<ModelEntry>): seq<ModelEntry>
    decreases |models|
  {
    if models == [] then []
    else
      var last := models[|models| - 1];
      Filtered(request, models[..|models| - 1])
        + (if Keeps(request, last.manufacturer) then [last] else [])
  }

  /** `idx` picks `sub` out of `s` at strictly increasing positions. */
  ghost predicate PicksOut(sub: seq<ModelEntry>, s: seq<ModelEntry>, idx: seq<nat>)
  {
    |idx| == |sub| &&
    (forall k :: 0 <= k < |idx| ==> idx[k] < |s| && s[idx[k]] == sub[k]) &&
    (forall k, l :: 0 <= k < l < |idx| ==> idx[k] < idx[l])
  }

  /** Soundness: every listed model has the requested manufacturer (for `Others`:
      none of the known ones). */
  lemma {:induction false} FilteredSound(request: string, models: seq<ModelEntry>)
    ensures forall e :: e in Filtered(request, models) ==> Keeps(request, e.manufacturer)
    decreases |models|
  {
    if models != [] {
      FilteredSound(request, models[..|models| - 1]);
    }
  }

  /** Completeness with multiplicities: each entry occurs in the output exactly as
      often as in the input if it is kept, and not at all otherwise. */
  lemma {:induction false} FilteredCounts(request: string, models: seq<ModelEntry>)
    ensures forall e :: multiset(Filtered(request, models))[e] ==
                        (if Keeps(request, e.manufacturer) then multiset(models)[e] else 0)
    decreases |models|
  {
    if models != [] {
      var init := models[..|models| - 1];
      FilteredCounts(request, init);
      assert models == init + [models[|models| - 1]];
    }
  }

  /** Order: the output is a subsequence of the input, picked at the positions of the
      kept models. */
  lemma {:induction false} FilteredSubsequence(request: string, models: seq<ModelEntry>)
    returns (idx: seq<nat>)
    ensures PicksOut(Filtered(request, models), models, idx)
    ensures forall i :: 0 <= i < |models| && Keeps(request, models[i].manufacturer) ==> i in idx
    decreases |models|
  {
    if models == [] {
      idx := [];
    } else {
      var n := |models| - 1;
      var init := models[..n];
      var prev := FilteredSubsequence(request, init);
      var sub := Filtered(request, init);
      var out := Filtered(request, models);
      if Keeps(request, models[n].manufacturer) {
        idx := prev + [n];
        assert out == sub + [models[n]];
      } else {
        idx := prev;
        assert out == sub;
      }
      forall k | 0 <= k < |idx|
        ensures idx[k] < |models| && models[idx[k]] == out[k]
      {
        if k < |prev| {
          assert models[prev[k]] == init[prev[k]];
        }
      }
      forall i | 0 <= i < |models| && Keeps(request, models[i].manufacturer)
        ensures i in idx
      {
        if i < n {
          assert init[i] == models[i];
        }
      }
    }
  }

  /** `filter_models_by_manufacturer(manufacturer, models)`. */
  method FilterByManufacturer(request: string, models: seq<ModelEntry>) returns (filtered: seq<ModelEntry>)
    ensures filtered == Filtered(request, models)
    ensures exists idx :: PicksOut(filtered, models, idx)
    ensures forall e :: e in filtered ==> Keeps(request, e.manufacturer)
    ensures forall i :: 0 <= i < |models| && Keeps(request, models[i].manufacturer) ==> models[i] in filtered
    ensures forall e :: multiset(filtered)[e] ==
                        (if Keeps(request, e.manufacturer) then multiset(models)[e] else 0)
  {
    filtered := [];
    for i := 0 to |models|
      invariant filtered == Filtered(request, models[..i])
    {
      var model := models[i];
      if request == OthersBucket {
        if model.manufacturer !in KnownManufacturers {
          filtered := filtered + [model];
        }
      } else {
        if model.manufacturer == request {
          filtered := filtered + [model];
        }
      }
      assert models[..i + 1][..i] == models[..i];
    }
    assert models[..|models|] == models;
    FilteredSound(request, models);
    FilteredCounts(request, models);
    var idx := FilteredSubsequence(request, models);
    forall i | 0 <= i < |models| && Keeps(request, models[i].manufacturer)
      ensures models[i] in filtered
    {
      assert models[i] in multiset(models);
    }
  }
}
