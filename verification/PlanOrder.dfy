/** From grant identities to the canonical plan: group by repository, sort everything. */
module PlanOrder {
  import opened PlanEncoding

  // ---------------------------------------------------------------- byte-wise order

  predicate Le(a: string, b: string) {
    a == [] || (b != [] && (a[0] < b[0] || (a[0] == b[0] && Le(a[1..], b[1..]))))
  }

  lemma {:induction false} LeTotal(a: string, b: string)
    ensures Le(a, b) || Le(b, a)
    ensures Le(a, b) && Le(b, a) ==> a == b
    decreases |a|
  {
    if a != [] && b != [] {
      LeTotal(a[1..], b[1..]);
      assert a == [a[0]] + a[1..] && b == [b[0]] + b[1..];
    }
  }

  lemma {:induction false} LeTransitive(a: string, b: string, c: string)
    requires Le(a, b) && Le(b, c)
    ensures Le(a, c)
    decreases |a|
  {
    if a != [] && a[0] == b[0] == c[0] { LeTransitive(a[1..], b[1..], c[1..]); }
  }

  ghost predicate Sorted(s: seq<string>) { forall i, j | 0 <= i < j < |s| :: Le(s[i], s[j]) }

  function Names(steps: seq<PlanStep>): (names: seq<string>)
    ensures |names| == |steps| && forall i | 0 <= i < |steps| :: names[i] == steps[i].step
  {
    if steps == [] then [] else Names(steps[..|steps| - 1]) + [steps[|steps| - 1].step]
  }

  // ---------------------------------------------------------------- identities

  /** A grant identity of a repository (its paths) or of one step (with its derived policy name). */
  datatype Identity<T> = Identity(upstream: string, org: string, repo: string, item: T)

  type RepoIdentity = Identity<seq<string>>
  type StepIdentity = Identity<PlanStep>

  function Qualified<T>(id: Identity<T>): string { id.upstream + "/" + id.org + "/" + id.repo }

  function Select<T>(ids: seq<Identity<T>>, q: string): seq<T> {
    if ids == [] then []
    else Select(ids[..|ids| - 1], q) + if Qualified(ids[|ids| - 1]) == q then [ids[|ids| - 1].item] else []
  }

  function Flatten(lists: seq<seq<string>>): seq<string> {
    if lists == [] then [] else Flatten(lists[..|lists| - 1]) + lists[|lists| - 1]
  }

  predicate Mentions(ids: seq<RepoIdentity>, q: string) { exists id | id in ids :: Qualified(id) == q }

  function Safe(s: string): string {
    if s == [] then [] else Safe(s[..|s| - 1]) + [if s[|s| - 1] == '/' || s[|s| - 1] == '.' then '-' else s[|s| - 1]]
  }

  function Policy(repo: string): string { "oberth-argo-" + Safe(repo) }

  /** One repository of the canonical plan. */
  ghost predicate IsEntry(r: PlanRepo, ids: seq<RepoIdentity>, steps: seq<StepIdentity>) {
    && r.policy == Policy(r.repo)
    && Sorted(r.paths) && multiset(r.paths) == multiset(Flatten(Select(ids, r.repo)))
    && Sorted(Names(r.steps)) && multiset(r.steps) == multiset(Select(steps, r.repo))
  }

  /** The canonical plan, up to the order of steps with the same name. */
  ghost predicate IsPlan(plan: seq<PlanRepo>, ids: seq<RepoIdentity>, steps: seq<StepIdentity>) {
    && (forall i, j | 0 <= i < j < |plan| :: Le(plan[i].repo, plan[j].repo) && plan[i].repo != plan[j].repo)
    && (forall q :: Mentions(ids, q) <==> exists i | 0 <= i < |plan| :: plan[i].repo == q)
    && (forall r | r in plan :: IsEntry(r, ids, steps))
  }

  // ---------------------------------------------------------------- permutations

  /** Taking one occurrence of an element out of a sequence. */
  lemma TakeOut<T>(s: seq<T>, x: T) returns (before: seq<T>, after: seq<T>)
    requires x in s
    ensures s == before + [x] + after && multiset(before + after) == multiset(s) - multiset{x}
  {
    var i :| 0 <= i < |s| && s[i] == x;
    before, after := s[..i], s[i + 1..];
    assert s == before + [x] + after;
  }

  lemma {:induction false} SelectConcat<T>(a: seq<Identity<T>>, b: seq<Identity<T>>, q: string)
    ensures Select(a + b, q) == Select(a, q) + Select(b, q)
    decreases |b|
  {
    hide Qualified;
    if b == [] {
      assert a + b == a;
    } else {
      SelectConcat(a, b[..|b| - 1], q);
      assert (a + b)[..|a + b| - 1] == a + b[..|b| - 1];
    }
  }

  lemma {:induction false} SelectBag<T>(a: seq<Identity<T>>, b: seq<Identity<T>>, q: string)
    requires multiset(a) == multiset(b)
    ensures multiset(Select(a, q)) == multiset(Select(b, q))
    decreases |a|
  {
    hide Qualified;
    if a == [] {
      assert |b| == |multiset(b)| == 0;
    } else {
      var x := a[|a| - 1];
      assert a == a[..|a| - 1] + [x];
      assert x in multiset(b);
      var before, after := TakeOut(b, x);
      SelectBag(a[..|a| - 1], before + after, q);
      SelectConcat(before + [x], after, q);
      SelectConcat(before, [x], q);
      SelectConcat(before, after, q);
      SelectConcat(a[..|a| - 1], [x], q);
    }
  }

  lemma {:induction false} FlattenConcat(a: seq<seq<string>>, b: seq<seq<string>>)
    ensures Flatten(a + b) == Flatten(a) + Flatten(b)
    decreases |b|
  {
    if b == [] {
      assert a + b == a;
    } else {
      FlattenConcat(a, b[..|b| - 1]);
      assert (a + b)[..|a + b| - 1] == a + b[..|b| - 1];
    }
  }

  lemma {:induction false} FlattenBag(a: seq<seq<string>>, b: seq<seq<string>>)
    requires multiset(a) == multiset(b)
    ensures multiset(Flatten(a)) == multiset(Flatten(b))
    decreases |a|
  {
    if a == [] {
      assert |b| == |multiset(b)| == 0;
    } else {
      var x := a[|a| - 1];
      assert a == a[..|a| - 1] + [x];
      assert x in multiset(b);
      var before, after := TakeOut(b, x);
      FlattenBag(a[..|a| - 1], before + after);
      FlattenConcat(before + [x], after);
      FlattenConcat(before, [x]);
      FlattenConcat(before, after);
      FlattenConcat(a[..|a| - 1], [x]);
    }
  }

  // ---------------------------------------------------------------- sorting leaves no choice

  lemma {:induction false} SortedUnique(a: seq<string>, b: seq<string>)
    requires Sorted(a) && Sorted(b) && multiset(a) == multiset(b)
    ensures a == b
    decreases |a|
  {
    hide Le, Sorted;
    assert |a| == |multiset(a)| == |b|;
    if a != [] {
      assert a[0] in multiset(b) && b[0] in multiset(a);
      SortedTail(a);
      SortedTail(b);
      FirstIsLeast(a, b[0]);
      FirstIsLeast(b, a[0]);
      LeTotal(a[0], b[0]);
      assert a == [a[0]] + a[1..] && b == [b[0]] + b[1..];
      assert multiset(a[1..]) == multiset(a) - multiset{a[0]};
      assert multiset(b[1..]) == multiset(b) - multiset{b[0]};
      SortedUnique(a[1..], b[1..]);
    }
  }

  lemma SortedTail(s: seq<string>)
    requires Sorted(s) && s != []
    ensures Sorted(s[1..])
  {
  }

  lemma FirstIsLeast(s: seq<string>, x: string)
    requires Sorted(s) && x in s
    ensures Le(s[0], x)
  {
    hide Le;
    LeTotal(x, x);
  }

  /** Steps with the same name are the same step. */
  ghost predicate Unambiguous(steps: seq<PlanStep>) { forall s, t | s in steps && t in steps && s.step == t.step :: s == t }

  lemma {:induction false} NamesConcat(a: seq<PlanStep>, b: seq<PlanStep>)
    ensures Names(a + b) == Names(a) + Names(b)
  {
  }

  lemma {:induction false} NamesBag(a: seq<PlanStep>, b: seq<PlanStep>)
    requires multiset(a) == multiset(b)
    ensures multiset(Names(a)) == multiset(Names(b))
    decreases |a|
  {
    if a == [] {
      assert |b| == |multiset(b)| == 0;
    } else {
      var x := a[|a| - 1];
      assert a == a[..|a| - 1] + [x];
      assert x in multiset(b);
      var before, after := TakeOut(b, x);
      NamesBag(a[..|a| - 1], before + after);
      NamesConcat(before + [x], after);
      NamesConcat(before, [x]);
      NamesConcat(before, after);
      NamesConcat(a[..|a| - 1], [x]);
    }
  }

  /** Unambiguous steps have one sorted order, whatever the sorting algorithm. */
  lemma StepsUnique(a: seq<PlanStep>, b: seq<PlanStep>)
    requires Sorted(Names(a)) && Sorted(Names(b)) && multiset(a) == multiset(b) && Unambiguous(a)
    ensures a == b
  {
    hide Sorted;
    NamesBag(a, b);
    SortedUnique(Names(a), Names(b));
    assert |a| == |multiset(a)| == |b|;
    forall i | 0 <= i < |a| ensures a[i] == b[i] {
      assert b[i] in multiset(a);
      assert Names(a)[i] == Names(b)[i];
    }
  }

  lemma HasMember(s: seq<string>)
    ensures s != [] ==> exists x :: x in s
  {
    if s != [] { assert s[0] in s; }
  }

  lemma {:induction false} StrictUnique(a: seq<string>, b: seq<string>)
    requires forall i, j | 0 <= i < j < |a| :: Le(a[i], a[j]) && a[i] != a[j]
    requires forall i, j | 0 <= i < j < |b| :: Le(b[i], b[j]) && b[i] != b[j]
    requires forall x :: x in a <==> x in b
    ensures a == b
    decreases |a|
  {
    hide Le;
    HasMember(a);
    HasMember(b);
    if a != [] {
      assert a[0] in b && b[0] in a;
      FirstIsLeast(a, b[0]);
      FirstIsLeast(b, a[0]);
      LeTotal(a[0], b[0]);
      assert a == [a[0]] + a[1..] && b == [b[0]] + b[1..];
      assert a[0] !in a[1..] && b[0] !in b[1..];
      forall x ensures x in a[1..] <==> x in b[1..] {
        assert x in a <==> x == a[0] || x in a[1..];
        assert x in b <==> x == b[0] || x in b[1..];
      }
      StrictUnique(a[1..], b[1..]);
    }
  }

  // ---------------------------------------------------------------- the canonical plan

  /** Step grants of one repository in the plan that share a name are equal; in particular when no step is listed twice. */
  ghost predicate Consistent(ids: seq<RepoIdentity>, steps: seq<StepIdentity>) {
    forall x, y | x in steps && y in steps && Qualified(x) == Qualified(y) && Mentions(ids, Qualified(x)) ::
      x.item.step == y.item.step ==> x.item == y.item
  }

  lemma {:induction false} Selected<T>(ids: seq<Identity<T>>, q: string, x: T)
    ensures x in Select(ids, q) <==> exists id :: id in ids && id.item == x && Qualified(id) == q
    decreases |ids|
  {
    hide Qualified;
    if ids != [] {
      var front, last := ids[..|ids| - 1], ids[|ids| - 1];
      Selected(front, q, x);
      assert forall id :: id in ids <==> id in front || id == last;
    }
  }

  lemma SelectUnambiguous(ids: seq<RepoIdentity>, steps: seq<StepIdentity>, q: string)
    requires Consistent(ids, steps) && Mentions(ids, q)
    ensures Unambiguous(Select(steps, q))
  {
    hide Qualified, Select, Mentions;
    var chosen := Select(steps, q);
    forall s, t | s in chosen && t in chosen && s.step == t.step ensures s == t {
      Selected(steps, q, s);
      Selected(steps, q, t);
    }
  }

  lemma MentionsBag(a: seq<RepoIdentity>, b: seq<RepoIdentity>, q: string)
    requires multiset(a) == multiset(b)
    ensures Mentions(a, q) == Mentions(b, q)
  {
    hide Qualified;
    assert forall id :: id in a <==> id in multiset(a);
    assert forall id :: id in b <==> id in multiset(b);
  }

  lemma EntryUnique(r: PlanRepo, ids: seq<RepoIdentity>, steps: seq<StepIdentity>,
                    s: PlanRepo, ids': seq<RepoIdentity>, steps': seq<StepIdentity>)
    requires IsEntry(r, ids, steps) && IsEntry(s, ids', steps') && r.repo == s.repo
    requires multiset(ids) == multiset(ids') && multiset(steps) == multiset(steps')
    requires Consistent(ids, steps) && Mentions(ids, r.repo)
    ensures r == s
  {
    hide Sorted, Select, Unambiguous, Consistent, Flatten, Mentions;
    SelectBag(ids, ids', r.repo);
    FlattenBag(Select(ids, r.repo), Select(ids', r.repo));
    SortedUnique(r.paths, s.paths);
    SelectBag(steps, steps', r.repo);
    SelectUnambiguous(ids, steps, r.repo);
    UnambiguousAgain(Select(steps, r.repo), r.steps);
    StepsUnique(r.steps, s.steps);
  }

  lemma UnambiguousAgain(a: seq<PlanStep>, b: seq<PlanStep>)
    requires multiset(a) == multiset(b) && Unambiguous(a)
    ensures Unambiguous(b)
  {
    assert forall s :: s in b ==> s in multiset(b);
    assert forall s :: s in multiset(a) ==> s in a;
  }

  function Repos(plan: seq<PlanRepo>): (repos: seq<string>)
    ensures |repos| == |plan| && forall i | 0 <= i < |plan| :: repos[i] == plan[i].repo
  {
    if plan == [] then [] else Repos(plan[..|plan| - 1]) + [plan[|plan| - 1].repo]
  }

  lemma SameRepos(a: seq<PlanRepo>, ids: seq<RepoIdentity>, steps: seq<StepIdentity>,
                  b: seq<PlanRepo>, ids': seq<RepoIdentity>, steps': seq<StepIdentity>)
    requires IsPlan(a, ids, steps) && IsPlan(b, ids', steps') && multiset(ids) == multiset(ids')
    ensures Repos(a) == Repos(b)
  {
    hide Mentions, IsEntry, Le;
    forall q ensures q in Repos(a) <==> q in Repos(b) {
      MentionsBag(ids, ids', q);
      InRepos(a, q);
      InRepos(b, q);
    }
    StrictUnique(Repos(a), Repos(b));
  }

  lemma InRepos(plan: seq<PlanRepo>, q: string)
    ensures q in Repos(plan) <==> exists i | 0 <= i < |plan| :: plan[i].repo == q
  {
  }

  /**
   The plan does not depend on the order of either input list, on map iteration
   or on the stability of the sort, provided no step is listed in two versions.
   */
  lemma PlanIsCanonical(a: seq<PlanRepo>, ids: seq<RepoIdentity>, steps: seq<StepIdentity>,
                        b: seq<PlanRepo>, ids': seq<RepoIdentity>, steps': seq<StepIdentity>)
    requires IsPlan(a, ids, steps) && IsPlan(b, ids', steps')
    requires multiset(ids) == multiset(ids') && multiset(steps) == multiset(steps') && Consistent(ids, steps)
    ensures a == b && Preimage(a) == Preimage(b)
  {
    hide IsEntry, Mentions, Consistent, Le;
    SameRepos(a, ids, steps, b, ids', steps');
    forall i | 0 <= i < |a| ensures a[i] == b[i] {
      assert Repos(a)[i] == Repos(b)[i] && a[i] in a && b[i] in b;
      EntryUnique(a[i], ids, steps, b[i], ids', steps');
    }
  }

  // ---------------------------------------------------------------- and when it is not

  function Swap<T>(s: seq<T>, i: nat, j: nat): (r: seq<T>)
    requires i < |s| && j < |s|
    ensures |r| == |s| && multiset(r) == multiset(s)
  {
    s[i := s[j]][j := s[i]]
  }

  /** Two versions of a step can stand in either order, and the orders have different preimages. */
  lemma OtherOrder(plan: seq<PlanRepo>, ids: seq<RepoIdentity>, steps: seq<StepIdentity>, k: nat, i: nat, j: nat)
    requires IsPlan(plan, ids, steps) && ValidPlan(plan) && k < |plan| && i < |plan[k].steps| && j < |plan[k].steps|
    requires plan[k].steps[i].step == plan[k].steps[j].step && plan[k].steps[i] != plan[k].steps[j]
    ensures var other := plan[k := plan[k].(steps := Swap(plan[k].steps, i, j))];
            IsPlan(other, ids, steps) && Preimage(other) != Preimage(plan)
  {
    hide Le, Mentions, Preimage, IsEntry, ValidRepo, Swap;
    var r := plan[k];
    var r' := r.(steps := Swap(r.steps, i, j));
    var other := plan[k := r'];
    assert plan[k] in plan;
    SwapEntry(r, ids, steps, i, j);
    SwapStays(plan, k, r', ids, steps);
    assert other[k] != plan[k];
    if Preimage(other) == Preimage(plan) { PreimageInjective(other, plan); }
  }

  lemma SwapEntry(r: PlanRepo, ids: seq<RepoIdentity>, steps: seq<StepIdentity>, i: nat, j: nat)
    requires IsEntry(r, ids, steps) && ValidRepo(r) && i < |r.steps| && j < |r.steps|
    requires r.steps[i].step == r.steps[j].step && r.steps[i] != r.steps[j]
    ensures var r' := r.(steps := Swap(r.steps, i, j)); IsEntry(r', ids, steps) && ValidRepo(r') && r' != r
  {
    hide Le, Sorted, ValidStep, Select, Flatten;
    var swapped := Swap(r.steps, i, j);
    assert Names(swapped) == Names(r.steps);
    assert swapped[i] != r.steps[i];
    assert forall s :: s in multiset(swapped) <==> s in multiset(r.steps);
  }

  lemma SwapStays(plan: seq<PlanRepo>, k: nat, r: PlanRepo, ids: seq<RepoIdentity>, steps: seq<StepIdentity>)
    requires IsPlan(plan, ids, steps) && k < |plan| && r.repo == plan[k].repo && IsEntry(r, ids, steps)
    ensures IsPlan(plan[k := r], ids, steps)
  {
    hide Le, Mentions, IsEntry;
    var other := plan[k := r];
    assert forall i | 0 <= i < |plan| :: other[i].repo == plan[i].repo;
    forall q ensures Mentions(ids, q) <==> exists i | 0 <= i < |other| :: other[i].repo == q {
      if i :| 0 <= i < |plan| && plan[i].repo == q { assert other[i].repo == q; }
    }
    forall x | x in other ensures IsEntry(x, ids, steps) { assert x == r || x in plan; }
  }

  /**
   What is hashed is determined by the two input lists as bags exactly when they
   are consistent: otherwise it shows the order of the input or of the sort.
   */
  lemma PreimageDeterminedIff(plan: seq<PlanRepo>, ids: seq<RepoIdentity>, steps: seq<StepIdentity>)
    requires IsPlan(plan, ids, steps) && ValidPlan(plan)
    ensures Consistent(ids, steps) <==> forall other | IsPlan(other, ids, steps) :: Preimage(other) == Preimage(plan)
  {
    hide IsPlan, ValidPlan, Preimage, Mentions, Qualified;
    if Consistent(ids, steps) {
      forall other | IsPlan(other, ids, steps) ensures Preimage(other) == Preimage(plan) {
        PlanIsCanonical(other, ids, steps, plan, ids, steps);
      }
    } else {
      var x, y :| x in steps && y in steps && Qualified(x) == Qualified(y) && Mentions(ids, Qualified(x)) &&
                  x.item.step == y.item.step && x.item != y.item;
      var k, i := Placed(plan, ids, steps, x);
      var l, j := Placed(plan, ids, steps, y);
      OtherOrder(plan, ids, steps, k, i, j);
    }
  }

  /** Where a step grant stands in the plan. */
  lemma Placed(plan: seq<PlanRepo>, ids: seq<RepoIdentity>, steps: seq<StepIdentity>, x: StepIdentity) returns (k: nat, i: nat)
    requires IsPlan(plan, ids, steps) && x in steps && Mentions(ids, Qualified(x))
    ensures k < |plan| && plan[k].repo == Qualified(x) && i < |plan[k].steps| && plan[k].steps[i] == x.item
    ensures forall l | 0 <= l < |plan| && plan[l].repo == Qualified(x) :: l == k
  {
    hide Le, Qualified, Select;
    k :| 0 <= k < |plan| && plan[k].repo == Qualified(x);
    assert plan[k] in plan;
    Selected(steps, Qualified(x), x.item);
    assert x.item in multiset(plan[k].steps);
    i :| 0 <= i < |plan[k].steps| && plan[k].steps[i] == x.item;
  }

  /** The policy of a repository: the prefix and the name with slashes and dots replaced. */
  lemma {:induction false} PolicyIs(q: string)
    ensures |Policy(q)| == 12 + |q| && Policy(q)[..12] == "oberth-argo-"
    ensures forall i | 0 <= i < |q| :: Policy(q)[12 + i] == if q[i] == '/' || q[i] == '.' then '-' else q[i]
  {
    SafeIs(q);
  }

  lemma {:induction false} SafeIs(q: string)
    ensures |Safe(q)| == |q| && forall i | 0 <= i < |q| :: Safe(q)[i] == if q[i] == '/' || q[i] == '.' then '-' else q[i]
    decreases |q|
  {
    if q != [] { SafeIs(q[..|q| - 1]); }
  }
}
