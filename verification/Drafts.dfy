/** Matching drafted definitions to targets by draft key, and the bundle built from the match. */
module Drafts {
  import opened Text

  /** A drafted definition: a JSON object with its draft key and the rest, or something else. */
  datatype Draft = Draft(key: string, body: int) | NotObject

  /** `f"target_{index}"` for the targets numbered from 1. */
  function TargetKey(i: nat): (k: string) { "target_" + IntText(i + 1) }

  function TargetKeys(n: nat): (ks: seq<string>)
    ensures |ks| == n && forall i :: 0 <= i < n ==> ks[i] == TargetKey(i)
  {
    seq(n, i requires 0 <= i < n => TargetKey(i))
  }

  /** The key of a target is "target_" and the number of the target, counted from 1. */
  lemma TargetKeyExactly(i: nat)
    ensures |TargetKey(i)| > 7 && TargetKey(i)[..7] == "target_" && DigitsValue(TargetKey(i)[7..]) == i + 1
  {
    assert TargetKey(i)[7..] == IntText(i + 1);
    DigitsRoundTrip(i + 1);
  }

  lemma TargetKeyInjective(i: nat, j: nat)
    requires TargetKey(i) == TargetKey(j)
    ensures i == j
  {
    assert TargetKey(i)[7..] == IntText(i + 1) && TargetKey(j)[7..] == IntText(j + 1);
    DigitsRoundTrip(i + 1);
    DigitsRoundTrip(j + 1);
  }

  function Clean(d: Draft): (k: string)
    requires d.Draft?
  {
    Strip(d.key)
  }

  predicate MissingKey(d: Draft) { d.Draft? && Clean(d) == "" }

  /** All definitions are objects without a key, as many as there are targets. */
  predicate FillsByPosition(drafts: seq<Draft>, n: nat) {
    |drafts| == n && forall i :: 0 <= i < n ==> MissingKey(drafts[i])
  }

  /** Keys are filled in iff there is one definition per target and none has a key but spaces. */
  lemma FillsExactly(drafts: seq<Draft>, n: nat)
    ensures FillsByPosition(drafts, n) <==>
            |drafts| == n && forall i :: 0 <= i < n ==> drafts[i].Draft? && Strip(drafts[i].key) == ""
    ensures !FillsByPosition(drafts, n) ==> Filled(drafts, n) == drafts
  {
    hide Strip;
  }

  function Filled(drafts: seq<Draft>, n: nat): (r: seq<Draft>)
    ensures |r| == |drafts|
  {
    if FillsByPosition(drafts, n)
    then seq(n, i requires 0 <= i < n && drafts[i].Draft? => Draft(TargetKey(i), drafts[i].body))
    else drafts
  }

  ghost predicate AllKeyed(drafts: seq<Draft>) {
    forall i :: 0 <= i < |drafts| ==> drafts[i].Draft? && Clean(drafts[i]) != ""
  }

  ghost function KeysOf(drafts: seq<Draft>): (ks: seq<string>)
    requires AllKeyed(drafts)
    ensures |ks| == |drafts| && forall i :: 0 <= i < |drafts| ==> ks[i] == Clean(drafts[i])
  {
    seq(|drafts|, i requires 0 <= i < |drafts| => Clean(drafts[i]))
  }

  ghost predicate Distinct<T>(xs: seq<T>) { forall i, j :: 0 <= i < j < |xs| ==> xs[i] != xs[j] }

  /** The definitions' keys are the targets' keys, each exactly once. */
  ghost predicate Matches(drafts: seq<Draft>, n: nat) {
    && drafts != [] && AllKeyed(drafts) && Distinct(KeysOf(drafts))
    && (forall key :: key in KeysOf(drafts) <==> key in TargetKeys(n))
  }

  /** The dictionary maps exactly the keys of the definitions, each to its definition. */
  ghost predicate Indexes(m: map<string, Draft>, drafts: seq<Draft>) {
    && AllKeyed(drafts) && Distinct(KeysOf(drafts))
    && (forall key :: key in m <==> key in KeysOf(drafts))
    && (forall i :: 0 <= i < |drafts| ==> m[KeysOf(drafts)[i]] == drafts[i])
  }

  lemma IndexStep(m: map<string, Draft>, drafts: seq<Draft>, d: Draft)
    requires Indexes(m, drafts) && d.Draft? && Clean(d) != ""
    ensures Clean(d) !in m ==> Indexes(m[Clean(d) := d], drafts + [d])
  {
    hide Clean;
    var (ks, all) := (KeysOf(drafts), drafts + [d]);
    assert AllKeyed(all);
    assert KeysOf(all) == ks + [Clean(d)];
  }

  /** A repeated key rules a match out. */
  lemma Repeated(m: map<string, Draft>, ds: seq<Draft>, k: nat, n: nat)
    requires k < |ds| && Indexes(m, ds[..k]) && ds[k].Draft? && Clean(ds[k]) in m
    ensures !Matches(ds, n)
  {
    hide Clean;
    assert forall i :: 0 <= i < k ==> ds[..k][i] == ds[i];
  }

  lemma NoMatch(ds: seq<Draft>, k: nat, n: nat)
    requires k < |ds|
    ensures Matches(ds, n) ==> ds[k].Draft? && Clean(ds[k]) != ""
  {
    hide Clean;
  }

  method CountMissing(drafts: seq<Draft>) returns (missing: nat)
    ensures missing == |drafts| <==> forall i :: 0 <= i < |drafts| ==> MissingKey(drafts[i])
  {
    missing := 0;
    for k := 0 to |drafts|
      invariant missing <= k
      invariant missing == k <==> forall i :: 0 <= i < k ==> MissingKey(drafts[i])
    {
      hide MissingKey;
      if MissingKey(drafts[k]) {
        missing := missing + 1;
      }
    }
  }

  method FillKeys(rawDefinitions: seq<Draft>, n: nat) returns (definitions: seq<Draft>)
    ensures definitions == Filled(rawDefinitions, n)
  {
    definitions := rawDefinitions;
    var missing := CountMissing(rawDefinitions);
    if missing == |rawDefinitions| && |rawDefinitions| == n {
      for k := 0 to n
        invariant |definitions| == n
        invariant forall i :: 0 <= i < k ==> definitions[i] == Draft(TargetKey(i), rawDefinitions[i].body)
        invariant forall i :: k <= i < n ==> definitions[i] == rawDefinitions[i]
      {
        definitions := definitions[k := definitions[k].(key := TargetKey(k))];
      }
    }
  }

  /** Puts each definition under its key, unless that shows already that nothing can match. */
  method IndexDrafts(definitions: seq<Draft>, n: nat) returns (r: Result<map<string, Draft>>)
    ensures r.Ok? ==> Indexes(r.value, definitions)
    ensures r.Err? ==> !Matches(definitions, n)
  {
    var byKey: map<string, Draft> := map[];
    assert Indexes(byKey, definitions[..0]);
    hide Clean, Indexes, Matches;
    for k := 0 to |definitions|
      invariant Indexes(byKey, definitions[..k])
    {
      NoMatch(definitions, k, n);
      var d := definitions[k];
      if d.NotObject? {
        return Err("Each drafted definition must be a JSON object.");
      }
      var key := Clean(d);
      if key == "" {
        return Err("Each drafted definition must include draft_key.");
      }
      if key in byKey {
        Repeated(byKey, definitions, k, n);
        return Err("Drafted definitions contain duplicate draft_key");
      }
      IndexStep(byKey, definitions[..k], d);
      assert definitions[..k + 1] == definitions[..k] + [d];
      byKey := byKey[key := d];
    }
    assert definitions[..|definitions|] == definitions;
    r := Ok(byKey);
  }

  /** Validation succeeds iff the definitions, their keys filled in by position when all are
      missing, match the targets one to one; it then returns each under its key. */
  method ValidateDraftPayload(rawDefinitions: seq<Draft>, n: nat) returns (r: Result<map<string, Draft>>)
    ensures r.Ok? <==> Matches(Filled(rawDefinitions, n), n)
    ensures r.Ok? ==> Indexes(r.value, Filled(rawDefinitions, n))
  {
    var definitions := FillKeys(rawDefinitions, n);
    if rawDefinitions == [] {
      return Err("draft must include a non-empty definitions list");
    }
    hide Filled, Indexes, Matches, TargetKeys;
    r := IndexDrafts(definitions, n);
    if r.Err? {
      return;
    }
    var byKey := r.value;
    var keys := TargetKeys(n);
    Verdict(byKey, definitions, n);
    if exists i :: 0 <= i < |keys| && keys[i] !in byKey {
      return Err("Drafted definitions are missing required draft_keys");
    }
    if exists key :: key in byKey && key !in keys {
      return Err("Drafted definitions contain unexpected draft_keys");
    }
  }

  lemma Verdict(m: map<string, Draft>, ds: seq<Draft>, n: nat)
    requires ds != [] && Indexes(m, ds)
    ensures Matches(ds, n) <==>
            && (forall i :: 0 <= i < |TargetKeys(n)| ==> TargetKeys(n)[i] in m)
            && (forall key :: key in m ==> key in TargetKeys(n))
  {
    hide Clean, TargetKeys, TargetKey, KeysOf;
    var keys := TargetKeys(n);
    if Matches(ds, n) {
      forall i | 0 <= i < |keys| ensures keys[i] in m { assert keys[i] in keys; }
    }
  }

  // ---------------------------------------------------------------------------
  // The bundle
  // ---------------------------------------------------------------------------

  /** One definition per target, in target order. */
  function Bundle(m: map<string, Draft>, n: nat): (r: seq<Draft>)
    requires forall i :: 0 <= i < n ==> TargetKey(i) in m
    ensures |r| == n
  {
    seq(n, i requires 0 <= i < n => m[TargetKey(i)])
  }

  lemma BundleKeys(m: map<string, Draft>, ds: seq<Draft>, n: nat)
    requires Matches(ds, n) && Indexes(m, ds)
    ensures forall i :: 0 <= i < n ==>
              TargetKey(i) in m && m[TargetKey(i)].Draft? && Clean(m[TargetKey(i)]) == TargetKey(i)
    ensures forall i :: 0 <= i < n ==> m[TargetKey(i)] in ds
  {
    hide Clean, TargetKey;
    forall i | 0 <= i < n
      ensures TargetKey(i) in m && m[TargetKey(i)].Draft?
      ensures Clean(m[TargetKey(i)]) == TargetKey(i) && m[TargetKey(i)] in ds
    {
      assert TargetKeys(n)[i] in TargetKeys(n);
      var k :| 0 <= k < |KeysOf(ds)| && KeysOf(ds)[k] == TargetKey(i);
      assert m[KeysOf(ds)[k]] == ds[k];
    }
  }

  lemma EachIsUsed(m: map<string, Draft>, ds: seq<Draft>, n: nat, d: Draft)
    requires Matches(ds, n) && Indexes(m, ds) && d in ds
    ensures exists i :: 0 <= i < n && TargetKey(i) in m && m[TargetKey(i)] == d
  {
    hide Clean, TargetKey;
    var k :| 0 <= k < |ds| && ds[k] == d;
    var key := KeysOf(ds)[k];
    assert key in TargetKeys(n);
    var i :| 0 <= i < n && TargetKeys(n)[i] == key;
    assert m[KeysOf(ds)[k]] == ds[k];
    assert m[TargetKey(i)] == d;
  }

  lemma DraftsDistinct(ds: seq<Draft>)
    requires AllKeyed(ds) && Distinct(KeysOf(ds))
    ensures Distinct(ds)
  {
    hide Clean;
    forall i, j | 0 <= i < j < |ds| ensures ds[i] != ds[j] { assert KeysOf(ds)[i] != KeysOf(ds)[j]; }
  }

  /** A successful match is a bijection: the bundle is a rearrangement of the definitions, so there
      are as many definitions as targets and each is used exactly once, under its own key. */
  lemma BundleIsPermutation(m: map<string, Draft>, ds: seq<Draft>, n: nat)
    requires Matches(ds, n) && Indexes(m, ds)
    ensures forall i :: 0 <= i < n ==> TargetKey(i) in m
    ensures multiset(Bundle(m, n)) == multiset(ds) && |ds| == n
    ensures forall i :: 0 <= i < n ==> Bundle(m, n)[i].Draft? && Strip(Bundle(m, n)[i].key) == TargetKey(i)
  {
    BundleKeys(m, ds, n);
    DraftsDistinct(ds);
    var b := Bundle(m, n);
    hide Clean, Indexes, Matches, TargetKey;
    forall i, j | 0 <= i < j < n ensures b[i] != b[j] {
      if b[i] == b[j] { TargetKeyInjective(i, j); }
    }
    forall d ensures d in b <==> d in ds {
      if d in ds {
        EachIsUsed(m, ds, n, d);
        var i :| 0 <= i < n && TargetKey(i) in m && m[TargetKey(i)] == d;
        assert b[i] == d;
      }
    }
    SameElements(b, ds);
  }

  lemma SameElements(a: seq<Draft>, b: seq<Draft>)
    requires Distinct(a) && Distinct(b) && forall d :: d in a <==> d in b
    ensures multiset(a) == multiset(b) && |a| == |b|
  {
    forall d ensures multiset(a)[d] == multiset(b)[d] {
      AtMostOnce(a, d);
      AtMostOnce(b, d);
    }
    assert multiset(a) == multiset(b);
    assert |multiset(a)| == |a| && |multiset(b)| == |b|;
  }

  lemma {:induction false} AtMostOnce(a: seq<Draft>, d: Draft)
    requires Distinct(a)
    ensures multiset(a)[d] == if d in a then 1 else 0
  {
    if a != [] {
      var rest := a[1..];
      assert a == [a[0]] + rest;
      assert forall i :: 0 <= i < |rest| ==> rest[i] == a[i + 1];
      AtMostOnce(rest, d);
    }
  }

  lemma FilledKeys(drafts: seq<Draft>, n: nat)
    requires FillsByPosition(drafts, n)
    ensures AllKeyed(Filled(drafts, n)) && KeysOf(Filled(drafts, n)) == TargetKeys(n)
  {
    var ds := Filled(drafts, n);
    forall i | 0 <= i < n ensures ds[i].Draft? && Clean(ds[i]) == TargetKey(i) && Clean(ds[i]) != "" {
      TargetKeyTrimmed(i);
    }
    hide Clean, Filled, FillsByPosition, TargetKey;
  }

  lemma TargetKeysDistinct(n: nat)
    ensures Distinct(TargetKeys(n))
  {
    hide TargetKey;
    forall i, j | 0 <= i < j < n ensures TargetKeys(n)[i] != TargetKeys(n)[j] {
      if TargetKeys(n)[i] == TargetKeys(n)[j] { TargetKeyInjective(i, j); }
    }
  }

  /** If the keys are the targets' keys in order, the bundle is the list itself. */
  lemma BundleInOrder(m: map<string, Draft>, ds: seq<Draft>, n: nat)
    requires Indexes(m, ds) && KeysOf(ds) == TargetKeys(n)
    ensures (forall i :: 0 <= i < n ==> TargetKey(i) in m) && Bundle(m, n) == ds
  {
    hide Clean, TargetKey;
    forall i | 0 <= i < n ensures TargetKey(i) in m && m[TargetKey(i)] == ds[i] {
      assert KeysOf(ds)[i] in KeysOf(ds);
      assert m[KeysOf(ds)[i]] == ds[i];
    }
  }

  /** Definitions without any key are always accepted, and taken in the order given. */
  lemma FilledInOrder(drafts: seq<Draft>, n: nat)
    requires n > 0 && FillsByPosition(drafts, n)
    ensures Matches(Filled(drafts, n), n)
    ensures forall m :: Indexes(m, Filled(drafts, n)) ==>
              (forall i :: 0 <= i < n ==> TargetKey(i) in m) && Bundle(m, n) == Filled(drafts, n)
    ensures forall i :: 0 <= i < n ==> drafts[i].Draft? && Filled(drafts, n)[i] == Draft(TargetKey(i), drafts[i].body)
  {
    var ds := Filled(drafts, n);
    FilledKeys(drafts, n);
    TargetKeysDistinct(n);
    hide Clean, Filled, FillsByPosition, TargetKey, Indexes, KeysOf, AllKeyed, Distinct, Bundle;
    forall m | Indexes(m, ds) ensures (forall i :: 0 <= i < n ==> TargetKey(i) in m) && Bundle(m, n) == ds {
      BundleInOrder(m, ds, n);
    }
  }

  lemma TargetKeyTrimmed(i: nat)
    ensures Strip(TargetKey(i)) == TargetKey(i)
  {
    var k := TargetKey(i);
    var digits := IntText(i + 1);
    assert k[|k| - 1] == digits[|digits| - 1] && IsDigit(digits[|digits| - 1]);
    StripAround("", k, "");
    assert "" + k + "" == k;
  }
}
