/** Comparing two lists of ownership entries up to order and timestamps, by first fit. */
module OwnershipMatch {
  import opened Wrappers
  import opened Ownership

  /** An ownership stripped of its timestamp; `None` for a field set that does not decode. */
  function Canon(e: Entry): Option<(Key, Option<Fields>)> {
    match e.fieldsV1
    case Doc(Object(fields)) => Some((KeyOf(e), Some(fields)))
    case Doc(Null) => Some((KeyOf(e), None))
    case _ => None
  }

  /** The comparison of the inner loop. */
  predicate Match(want: Entry, got: Entry) { Canon(want).Some? && Canon(want) == Canon(got) }

  /** The field set of an entry as it decodes into a map: `null` is no map, anything else is not accepted. */
  predicate Decodes(f: FieldsV1) { f.Doc? && (f.json.Object? || f.json.Null?) }

  /** Two entries match exactly if they differ at most in their timestamps. */
  lemma MatchIff(want: Entry, got: Entry)
    ensures Match(want, got) <==>
            && want.manager == got.manager && want.operation == got.operation && want.apiVersion == got.apiVersion
            && want.fieldsType == got.fieldsType && want.subresource == got.subresource
            && Decodes(want.fieldsV1) && want.fieldsV1 == got.fieldsV1
  {
  }

  /** `p` sends every expected entry to its own actual one. */
  ghost predicate Pairing(p: seq<nat>, expected: seq<Entry>, actual: seq<Entry>) {
    && |p| == |expected|
    && (forall i | 0 <= i < |p| :: p[i] < |actual| && Match(expected[i], actual[p[i]]))
    && (forall i, j | 0 <= i < j < |p| :: p[i] != p[j])
  }

  /** Some permutation pairs all entries. */
  ghost predicate Paired(expected: seq<Entry>, actual: seq<Entry>) {
    |expected| == |actual| && exists p :: Pairing(p, expected, actual)
  }

  // ---------------------------------------------------------------- first fit

  /** `sameOwnership`: the first unused match is always good enough. */
  method SameOwnership(expected: seq<Entry>, actual: seq<Entry>) returns (same: bool)
    ensures same <==> Paired(expected, actual)
  {
    if |expected| != |actual| { return false; }
    var used := new bool[|actual|](_ => false);
    ghost var p: seq<nat> := [];
    for k := 0 to |expected|
      invariant Pairing(p, expected[..k], actual)
      invariant forall i | 0 <= i < used.Length :: used[i] <==> i in p
    {
      var i := FirstUnused(expected[k], actual, used);
      if i == |actual| {
        NoPairing(p, k, expected, actual);
        return false;
      }
      used[i] := true;
      Extend(p, k, i, expected, actual);
      p := p + [i];
    }
    assert expected[..|expected|] == expected;
    return true;
  }

  method FirstUnused(want: Entry, actual: seq<Entry>, used: array<bool>) returns (i: nat)
    requires used.Length == |actual|
    ensures i <= |actual| && (i < |actual| ==> !used[i] && Match(want, actual[i]))
    ensures forall j | 0 <= j < i :: used[j] || !Match(want, actual[j])
  {
    i := 0;
    while i < |actual| && (used[i] || !Match(want, actual[i]))
      invariant i <= |actual|
      invariant forall j | 0 <= j < i :: used[j] || !Match(want, actual[j])
    {
      i := i + 1;
    }
  }

  lemma Extend(p: seq<nat>, k: nat, i: nat, expected: seq<Entry>, actual: seq<Entry>)
    requires k < |expected| && Pairing(p, expected[..k], actual)
    requires i < |actual| && i !in p && Match(expected[k], actual[i])
    ensures Pairing(p + [i], expected[..k + 1], actual)
  {
  }

  /** An injection cannot lead into a smaller set. */
  lemma {:induction false} InjectionFits(f: map<nat, nat>, into: set<nat>)
    requires forall x | x in f :: f[x] in into
    requires forall x, y | x in f && y in f && x != y :: f[x] != f[y]
    ensures |f| <= |into|
    decreases |f|
  {
    if f.Keys != {} {
      var x :| x in f.Keys;
      var rest := f - {x};
      assert rest.Keys == f.Keys - {x};
      InjectionFits(rest, into - {f[x]});
    }
  }

  ghost function Alike(entries: seq<Entry>, c: Option<(Key, Option<Fields>)>): set<nat> {
    set i: nat | i < |entries| && Canon(entries[i]) == c
  }

  /**
   First fit never causes a false refusal: if the entries before k took all the
   matches of entry k, then there are more expected entries of its kind than
   actual ones, and no permutation can pair them.
   */
  lemma NoPairing(p: seq<nat>, k: nat, expected: seq<Entry>, actual: seq<Entry>)
    requires k < |expected| && Pairing(p, expected[..k], actual)
    requires forall j | 0 <= j < |actual| :: j in p || !Match(expected[k], actual[j])
    ensures !Paired(expected, actual)
  {
    if Paired(expected, actual) {
      var q :| Pairing(q, expected, actual);
      assert Match(expected[k], actual[q[k]]);
      PairedFits(q, expected, actual, Canon(expected[k]));
      TakenFits(p, k, expected, actual);
    }
  }

  /** A pairing needs as many actual entries of each kind as expected ones. */
  lemma PairedFits(q: seq<nat>, expected: seq<Entry>, actual: seq<Entry>, c: Option<(Key, Option<Fields>)>)
    requires Pairing(q, expected, actual)
    ensures |Alike(expected, c)| <= |Alike(actual, c)|
  {
    hide Canon;
    var wanted := Alike(expected, c);
    var f := map i | i in wanted :: q[i];
    assert f.Keys == wanted;
    InjectionFits(f, Alike(actual, c));
  }

  lemma TakenFits(p: seq<nat>, k: nat, expected: seq<Entry>, actual: seq<Entry>)
    requires k < |expected| && Pairing(p, expected[..k], actual) && Canon(expected[k]).Some?
    requires forall j | 0 <= j < |actual| :: j in p || !Match(expected[k], actual[j])
    ensures |Alike(actual, Canon(expected[k]))| < |Alike(expected, Canon(expected[k]))|
  {
    hide Canon, Pairing;
    var c := Canon(expected[k]);
    var wanted, present := Alike(expected, c), Alike(actual, c);
    var taker := map a | a in present :: TakenBy(p, k, a, expected, actual);
    assert taker.Keys == present;
    assert k in wanted;
    InjectionFits(taker, wanted - {k});
  }

  ghost function TakenBy(p: seq<nat>, k: nat, a: nat, expected: seq<Entry>, actual: seq<Entry>): (j: nat)
    requires k < |expected| && Pairing(p, expected[..k], actual) && a < |actual|
    requires forall j | 0 <= j < |actual| :: j in p || !Match(expected[k], actual[j])
    requires Match(expected[k], actual[a])
    ensures j < k && p[j] == a && Canon(expected[j]) == Canon(actual[a])
  {
    var j :| 0 <= j < |p| && p[j] == a;
    assert Match(expected[..k][j], actual[p[j]]);
    j
  }

  // ---------------------------------------------------------------- what a pairing preserves

  lemma MatchKeeps(want: Entry, got: Entry, api: string)
    requires Match(want, got)
    ensures Decode(want) == Decode(got) && OwnedBy(want) == OwnedBy(got) && Owns(want) == Owns(got)
    ensures Acceptable(want, api) == Acceptable(got, api) && HelmApply(want, api) == HelmApply(got, api)
  {
  }

  /** Every actual entry is taken. */
  lemma Onto(p: seq<nat>, expected: seq<Entry>, actual: seq<Entry>, j: nat)
    requires Pairing(p, expected, actual) && |expected| == |actual| && j < |actual|
    ensures j in p
  {
    hide Match;
    DistinctCovers(p, j);
  }

  lemma DistinctCovers(p: seq<nat>, j: nat)
    requires forall i | 0 <= i < |p| :: p[i] < |p|
    requires forall i, k | 0 <= i < k < |p| :: p[i] != p[k]
    requires j < |p|
    ensures j in p
  {
    Values(p);
    var values, all := ValueSet(p), Upto(|p|);
    assert values <= all;
    assert |all| == |values| + |all - values| by { assert all == values + (all - values); }
    assert j in all && all - values == {};
  }

  function ValueSet(p: seq<nat>): (values: set<nat>)
    ensures forall x :: x in values <==> x in p
  {
    if p == [] then {} else ValueSet(p[..|p| - 1]) + {p[|p| - 1]}
  }

  lemma {:induction false} Values(p: seq<nat>)
    requires forall i, k | 0 <= i < k < |p| :: p[i] != p[k]
    ensures |ValueSet(p)| == |p|
    decreases |p|
  {
    if p != [] {
      Values(p[..|p| - 1]);
      assert p[|p| - 1] !in p[..|p| - 1];
    }
  }

  function Upto(n: nat): (all: set<nat>)
    ensures |all| == n && forall i: nat :: i in all <==> i < n
  {
    if n == 0 then {} else Upto(n - 1) + {n - 1}
  }

  /** Order and timestamps do not matter to whether the rules are settled. */
  lemma PairedSettled(expected: seq<Entry>, actual: seq<Entry>, api: string)
    requires Paired(expected, actual) && Settled(expected, api)
    ensures Settled(actual, api)
  {
    hide Match, Acceptable, HelmApply, Owns;
    var p :| Pairing(p, expected, actual);
    forall j | 0 <= j < |actual| ensures Acceptable(actual[j], api) && (Owns(actual[j]) ==> HelmApply(actual[j], api)) {
      Onto(p, expected, actual, j);
      var i :| 0 <= i < |p| && p[i] == j;
      MatchKeeps(expected[i], actual[j], api);
      assert expected[i] in expected;
    }
    forall j, l | 0 <= j < l < |actual| ensures !(HelmApply(actual[j], api) && HelmApply(actual[l], api)) {
      OneHelm(p, expected, actual, api, j, l);
    }
    var e :| e in expected && Owns(e);
    var i :| 0 <= i < |expected| && expected[i] == e;
    MatchKeeps(e, actual[p[i]], api);
    assert actual[p[i]] in actual;
  }

  lemma OneHelm(p: seq<nat>, expected: seq<Entry>, actual: seq<Entry>, api: string, j: nat, l: nat)
    requires Pairing(p, expected, actual) && |expected| == |actual| && j < l < |actual| && AllAcceptable(expected, api)
    ensures !(HelmApply(actual[j], api) && HelmApply(actual[l], api))
  {
    hide Match, Acceptable, HelmApply;
    Onto(p, expected, actual, j);
    Onto(p, expected, actual, l);
    var a :| 0 <= a < |p| && p[a] == j;
    var b :| 0 <= b < |p| && p[b] == l;
    MatchKeeps(expected[a], actual[j], api);
    MatchKeeps(expected[b], actual[l], api);
  }

  lemma {:induction false} OwnedConcat(a: seq<Entry>, b: seq<Entry>)
    ensures Owned(a + b) == Owned(a) + Owned(b)
    decreases |b|
  {
    hide OwnedBy;
    if b == [] {
      assert a + b == a;
    } else {
      OwnedConcat(a, b[..|b| - 1]);
      assert (a + b)[..|a + b| - 1] == a + b[..|b| - 1];
    }
  }

  lemma OwnedRemove(before: seq<Entry>, e: Entry, after: seq<Entry>)
    ensures Owned(before + [e] + after) == Owned(before + after) + OwnedBy(e)
  {
    hide OwnedBy;
    assert Owned([e]) == OwnedBy(e) by { assert [e][..0] == []; }
    OwnedConcat(before + [e], after);
    OwnedConcat(before, [e]);
    OwnedConcat(before, after);
  }

  /** Without its last expected entry and that entry's partner, a pairing is still one. */
  lemma PairingRemove(p: seq<nat>, expected: seq<Entry>, actual: seq<Entry>) returns (q: seq<nat>)
    requires Pairing(p, expected, actual) && expected != []
    ensures var l := p[|p| - 1]; Pairing(q, expected[..|expected| - 1], actual[..l] + actual[l + 1..])
  {
    hide Match;
    var n := |expected| - 1;
    var l := p[n];
    q := seq(n, i requires 0 <= i < n => if p[i] > l then p[i] - 1 else p[i]);
    var rest := actual[..l] + actual[l + 1..];
    forall i | 0 <= i < n ensures q[i] < |rest| && Match(expected[..n][i], rest[q[i]]) {
      assert p[i] != p[n];
      assert rest[q[i]] == actual[p[i]];
    }
  }

  /** Paired lists own the same things equally often. */
  lemma {:induction false} PairingKeepsOwned(p: seq<nat>, expected: seq<Entry>, actual: seq<Entry>)
    requires Pairing(p, expected, actual) && |expected| == |actual|
    ensures Owned(expected) == Owned(actual)
    decreases |expected|
  {
    hide OwnedBy;
    if expected != [] {
      var n := |expected| - 1;
      var l := p[n];
      var q := PairingRemove(p, expected, actual);
      PairingKeepsOwned(q, expected[..n], actual[..l] + actual[l + 1..]);
      OwnedRemove(actual[..l], actual[l], actual[l + 1..]);
      assert actual == actual[..l] + [actual[l]] + actual[l + 1..];
      MatchKeeps(expected[n], actual[l], "");
    }
  }
}
