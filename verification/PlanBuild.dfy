/** `planDigestFromIdentities`: build the plan with maps and sorts, then encode it. */
module PlanBuild {
  import opened PlanEncoding
  import opened PlanOrder

  // ---------------------------------------------------------------- sorting

  lemma InsertSorted(r: seq<string>, k: nat, x: string)
    requires Sorted(r) && k <= |r| && (forall i | 0 <= i < k :: Le(r[i], x)) && (k < |r| ==> Le(x, r[k]))
    ensures Sorted(r[..k] + [x] + r[k..])
  {
    hide Le;
    var s := r[..k] + [x] + r[k..];
    forall i, j | 0 <= i < j < |s| ensures Le(s[i], s[j]) {
      if i == k && j > k + 1 { LeTransitive(x, r[k], r[j - 1]); }
    }
  }

  /** Where `x` belongs in a sorted list. */
  method Position(r: seq<string>, x: string) returns (k: nat)
    requires Sorted(r)
    ensures k <= |r| && Sorted(r[..k] + [x] + r[k..])
  {
    hide Le, Sorted;
    k := 0;
    while k < |r| && Le(r[k], x)
      invariant k <= |r| && forall i | 0 <= i < k :: Le(r[i], x)
    {
      k := k + 1;
    }
    if k < |r| { LeTotal(r[k], x); }
    InsertSorted(r, k, x);
  }

  method SortStrings(s: seq<string>) returns (r: seq<string>)
    ensures Sorted(r) && multiset(r) == multiset(s)
  {
    hide Le;
    r := [];
    for i := 0 to |s|
      invariant Sorted(r) && multiset(r) == multiset(s[..i])
    {
      var k := Position(r, s[i]);
      assert r == r[..k] + r[k..] && s[..i + 1] == s[..i] + [s[i]];
      r := r[..k] + [s[i]] + r[k..];
    }
    assert s[..|s|] == s;
  }

  method SortSteps(s: seq<PlanStep>) returns (r: seq<PlanStep>)
    ensures Sorted(Names(r)) && multiset(r) == multiset(s)
  {
    hide Le, Names;
    r := [];
    for i := 0 to |s|
      invariant Sorted(Names(r)) && multiset(r) == multiset(s[..i])
    {
      var k := Position(Names(r), s[i].step);
      assert r == r[..k] + r[k..] && s[..i + 1] == s[..i] + [s[i]];
      assert Names(r[..k] + [s[i]] + r[k..]) == Names(r)[..k] + [s[i].step] + Names(r)[k..];
      r := r[..k] + [s[i]] + r[k..];
    }
    assert s[..|s|] == s;
  }

  // ---------------------------------------------------------------- grouping

  /** Every repository with its paths in input order. */
  ghost predicate Grouped(groups: map<string, seq<string>>, ids: seq<RepoIdentity>) {
    forall q :: (q in groups <==> Mentions(ids, q)) && (if q in groups then groups[q] else []) == Flatten(Select(ids, q))
  }

  lemma {:induction false} SelectSnoc<T>(ids: seq<Identity<T>>, id: Identity<T>, q: string)
    ensures Select(ids + [id], q) == Select(ids, q) + if Qualified(id) == q then [id.item] else []
  {
  }

  lemma {:induction false} FlattenSnoc(lists: seq<seq<string>>, list: seq<string>)
    ensures Flatten(lists + [list]) == Flatten(lists) + list && Flatten(lists + []) == Flatten(lists)
  {
    assert (lists + [list])[..|lists|] == lists;
    assert lists + [] == lists;
  }

  lemma MentionsSnoc(ids: seq<RepoIdentity>, id: RepoIdentity, q: string)
    ensures Mentions(ids + [id], q) <==> Mentions(ids, q) || Qualified(id) == q
  {
  }

  lemma GroupedSnoc(groups: map<string, seq<string>>, ids: seq<RepoIdentity>, id: RepoIdentity)
    requires Grouped(groups, ids)
    ensures var q := Qualified(id);
            Grouped(groups[q := (if q in groups then groups[q] else []) + id.item], ids + [id])
  {
    hide Qualified, Mentions, Select, Flatten;
    forall q ensures Select(ids + [id], q) == Select(ids, q) + (if Qualified(id) == q then [id.item] else []) {
      SelectSnoc(ids, id, q);
    }
    forall q ensures Mentions(ids + [id], q) <==> Mentions(ids, q) || Qualified(id) == q { MentionsSnoc(ids, id, q); }
    forall q { FlattenSnoc(Select(ids, q), id.item); }
  }

  method GroupPaths(ids: seq<RepoIdentity>) returns (groups: map<string, seq<string>>)
    ensures Grouped(groups, ids)
  {
    hide Qualified;
    groups := map[];
    for i := 0 to |ids|
      invariant Grouped(groups, ids[..i])
    {
      hide Grouped;
      var q := Qualified(ids[i]);
      assert ids[..i + 1] == ids[..i] + [ids[i]];
      GroupedSnoc(groups, ids[..i], ids[i]);
      groups := groups[q := (if q in groups then groups[q] else []) + ids[i].item];
    }
    assert ids[..|ids|] == ids;
  }

  method GroupSteps(steps: seq<StepIdentity>) returns (groups: map<string, seq<PlanStep>>)
    ensures forall q :: (if q in groups then groups[q] else []) == Select(steps, q)
  {
    hide Qualified;
    groups := map[];
    for i := 0 to |steps|
      invariant forall q :: (if q in groups then groups[q] else []) == Select(steps[..i], q)
    {
      var q := Qualified(steps[i]);
      assert steps[..i + 1][..i] == steps[..i];
      groups := groups[q := (if q in groups then groups[q] else []) + [steps[i].item]];
    }
    assert steps[..|steps|] == steps;
  }

  /** The keys of a map in the arbitrary order of iteration, each once. */
  method KeysInSomeOrder<T(==)>(keys: set<T>) returns (list: seq<T>)
    ensures forall q :: q in list <==> q in keys
    ensures forall i, j | 0 <= i < j < |list| :: list[i] != list[j]
  {
    list := [];
    var todo := keys;
    while todo != {}
      invariant forall q :: q in list <==> q in keys && q !in todo
      invariant todo <= keys
      invariant forall i, j | 0 <= i < j < |list| :: list[i] != list[j]
      decreases todo
    {
      var q :| q in todo;
      todo, list := todo - {q}, list + [q];
    }
  }

  lemma StrictAgain(list: seq<string>, sorted: seq<string>)
    requires multiset(list) == multiset(sorted) && Sorted(sorted)
    requires forall i, j | 0 <= i < j < |list| :: list[i] != list[j]
    ensures forall i, j | 0 <= i < j < |sorted| :: Le(sorted[i], sorted[j]) && sorted[i] != sorted[j]
    ensures forall q :: q in sorted <==> q in list
  {
    hide Le;
    forall i, j | 0 <= i < j < |sorted| ensures sorted[i] != sorted[j] {
      OnceEach(list, sorted[i]);
      TwiceIfRepeated(sorted, i, j);
    }
    assert forall q :: q in sorted <==> q in multiset(sorted);
    assert forall q :: q in list <==> q in multiset(list);
  }

  lemma {:induction false} OnceEach(list: seq<string>, x: string)
    requires forall i, j | 0 <= i < j < |list| :: list[i] != list[j]
    ensures multiset(list)[x] <= 1
    decreases |list|
  {
    if list != [] {
      var front, last := list[..|list| - 1], list[|list| - 1];
      OnceEach(front, x);
      assert list == front + [last];
      assert last !in front;
    }
  }

  lemma TwiceIfRepeated(s: seq<string>, i: nat, j: nat)
    requires i < j < |s|
    ensures s[i] == s[j] ==> multiset(s)[s[i]] >= 2
  {
    assert s == s[..i] + [s[i]] + s[i + 1..j] + [s[j]] + s[j + 1..];
  }

  /** The plan is the canonical one, and what is hashed is its preimage. */
  method PlanFromIdentities(ids: seq<RepoIdentity>, steps: seq<StepIdentity>) returns (plan: seq<PlanRepo>, preimage: string)
    ensures IsPlan(plan, ids, steps) && preimage == Preimage(plan)
  {
    hide Le, Sorted, Preimage, IsPlan, IsEntry, Mentions, Select, Flatten;
    var paths := GroupPaths(ids);
    var unsorted := KeysInSomeOrder(paths.Keys);
    var repos := SortStrings(unsorted);
    StrictAgain(unsorted, repos);
    var byRepo := GroupSteps(steps);
    plan := [];
    for i := 0 to |repos|
      invariant |plan| == i && forall j | 0 <= j < i :: plan[j].repo == repos[j] && IsEntry(plan[j], ids, steps)
    {
      var q := repos[i];
      assert q in repos;
      var entry := PlanEntry(q, paths[q], if q in byRepo then byRepo[q] else [], ids, steps);
      plan := plan + [entry];
    }
    Assembled(plan, repos, ids, steps);
    preimage := WritePreimage(plan);
  }

  method PlanEntry(repo: string, paths: seq<string>, unsorted: seq<PlanStep>,
                   ghost ids: seq<RepoIdentity>, ghost steps: seq<StepIdentity>) returns (entry: PlanRepo)
    requires paths == Flatten(Select(ids, repo)) && unsorted == Select(steps, repo)
    ensures entry.repo == repo && IsEntry(entry, ids, steps)
  {
    hide Sorted, Names, Select, Flatten, Policy;
    var sortedPaths := SortStrings(paths);
    var sortedSteps := SortSteps(unsorted);
    entry := PlanRepo(repo, Policy(repo), sortedPaths, sortedSteps);
  }

  lemma Assembled(plan: seq<PlanRepo>, repos: seq<string>, ids: seq<RepoIdentity>, steps: seq<StepIdentity>)
    requires |plan| == |repos| && forall j | 0 <= j < |plan| :: plan[j].repo == repos[j] && IsEntry(plan[j], ids, steps)
    requires forall i, j | 0 <= i < j < |repos| :: Le(repos[i], repos[j]) && repos[i] != repos[j]
    requires forall q :: q in repos <==> Mentions(ids, q)
    ensures IsPlan(plan, ids, steps)
  {
  }

  // ---------------------------------------------------------------- what the plan covers

  lemma {:induction false} OneMoreStep(steps: seq<StepIdentity>, x: StepIdentity)
    ensures multiset(Select(steps + [x], Qualified(x))) == multiset(Select(steps, Qualified(x))) + multiset{x.item}
    ensures forall q | q != Qualified(x) :: Select(steps + [x], q) == Select(steps, q)
  {
    SelectSnoc(steps, x, Qualified(x));
    forall q | q != Qualified(x) ensures Select(steps + [x], q) == Select(steps, q) { SelectSnoc(steps, x, q); }
  }

  /** A step grant is outside the plan exactly when its repository has no repository identity. */
  lemma OutsideThePlanIff(plan: seq<PlanRepo>, ids: seq<RepoIdentity>, steps: seq<StepIdentity>, x: StepIdentity)
    requires IsPlan(plan, ids, steps)
    ensures IsPlan(plan, ids, steps + [x]) <==> !Mentions(ids, Qualified(x))
  {
    hide Le, Sorted, Names, Flatten, Policy, Qualified, Select;
    var q := Qualified(x);
    OneMoreStep(steps, x);
    if Mentions(ids, q) {
      var i :| 0 <= i < |plan| && plan[i].repo == q;
      assert plan[i] in plan && IsEntry(plan[i], ids, steps);
      assert |multiset(Select(steps + [x], q))| == |multiset(Select(steps, q))| + 1;
      assert !IsEntry(plan[i], ids, steps + [x]);
    } else {
      forall r | r in plan ensures IsEntry(r, ids, steps + [x]) {
        var i :| 0 <= i < |plan| && plan[i] == r;
        assert Mentions(ids, r.repo);
      }
    }
  }
}
