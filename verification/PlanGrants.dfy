/**
 From the approval table to the plan digest: which grants the table can hold,
 the identities that are derived from its rows, and what the digest says about
 access.
 */
module PlanGrants {
  import opened PlanEncoding
  import opened PlanOrder
  import opened PlanBuild

  const WILDCARD := "*"

  /** An active approval; every row is there once. */
  datatype Row = Row(repo: string, step: string, secret: string)

  // ---------------------------------------------------------------- what can be granted

  predicate SafeChar(c: char) {
    'A' <= c <= 'Z' || 'a' <= c <= 'z' || '0' <= c <= '9' || c == '.' || c == '_' || c == '/' || c == '-'
  }

  predicate SafeText(s: string) { s != "" && forall c | c in s :: SafeChar(c) }

  /** What `Grant` accepts. */
  predicate Grantable(row: Row) {
    SafeText(row.repo) && (row.step == WILDCARD || SafeText(row.step)) && SafeText(row.secret)
  }

  /** A path that can be granted is one that the encoding can carry. */
  lemma GrantablePath(p: string)
    requires SafeText(p)
    ensures NUL !in p && PathLike(p)
  {
    assert |p| > 4 ==> p[4] in p;
  }

  // ---------------------------------------------------------------- qualified names

  /** `strings.Split` at slashes. */
  function Segments(s: string): (parts: seq<string>)
    ensures parts != []
  {
    if s == [] then [""]
    else
      var parts, c := Segments(s[..|s| - 1]), s[|s| - 1];
      if c == '/' then parts + [""] else parts[|parts| - 1 := parts[|parts| - 1] + [c]]
  }

  function Joined(parts: seq<string>): string {
    if parts == [] then [] else if |parts| == 1 then parts[0] else Joined(parts[..|parts| - 1]) + "/" + parts[|parts| - 1]
  }

  lemma {:induction false} JoinedSegments(s: string)
    ensures Joined(Segments(s)) == s
    decreases |s|
  {
    if s != [] {
      var front, c := s[..|s| - 1], s[|s| - 1];
      var parts := Segments(front);
      JoinedSegments(front);
      assert s == front + [c];
      if c == '/' {
        assert (parts + [""])[..|parts|] == parts;
        assert front + "/" + "" == s;
      } else {
        var n := |parts| - 1;
        assert parts[n := parts[n] + [c]][..n] == parts[..n];
        if n > 0 { assert Joined(parts[..n]) + "/" + (parts[n] + [c]) == Joined(parts[..n]) + "/" + parts[n] + [c]; }
      }
    }
  }

  /** Upstream, organization and repository. */
  predicate Three(q: string) { |Segments(q)| == 3 }

  function IdOf<T>(q: string, item: T): Identity<T>
    requires Three(q)
  {
    var parts := Segments(q); Identity(parts[0], parts[1], parts[2], item)
  }

  lemma {:induction false} IdOfQualified<T>(q: string, item: T)
    requires Three(q)
    ensures Qualified(IdOf(q, item)) == q
  {
    hide Segments;
    JoinedSegments(q);
    var parts := Segments(q);
    assert parts[..2][..1] == [parts[0]] && Joined(parts[..2]) == parts[0] + "/" + parts[1];
  }

  // ---------------------------------------------------------------- access

  ghost predicate HasRepo(rows: seq<Row>, q: string) { Three(q) && exists row :: row in rows && row.repo == q }

  /** Every step of the repository may read the secret. */
  predicate RepoReads(rows: seq<Row>, q: string, x: string) { Three(q) && Row(q, "*", x) in rows }

  /** The step is named in some grant. */
  ghost predicate HasStep(rows: seq<Row>, q: string, step: string) {
    Three(q) && step != "*" && exists x :: Row(q, step, x) in rows
  }

  /** The step may read the secret, by its own grant or by the repository's. */
  predicate StepReads(rows: seq<Row>, q: string, step: string, x: string) {
    Three(q) && (Row(q, step, x) in rows || Row(q, "*", x) in rows)
  }

  /** The same steps are named and everyone reads the same secrets. */
  ghost predicate SameAccess(a: seq<Row>, b: seq<Row>) {
    && (forall q, x :: RepoReads(a, q, x) == RepoReads(b, q, x))
    && (forall q, step :: HasStep(a, q, step) == HasStep(b, q, step))
    && (forall q, step, x | HasStep(a, q, step) :: StepReads(a, q, step, x) == StepReads(b, q, step, x))
  }

  lemma SameRepositories(a: seq<Row>, b: seq<Row>, q: string)
    requires SameAccess(a, b) && HasRepo(a, q)
    ensures HasRepo(b, q)
  {
    var row :| row in a && row.repo == q;
    if row.step == WILDCARD {
      assert row == Row(q, WILDCARD, row.secret) && RepoReads(a, q, row.secret);
      assert RepoReads(b, q, row.secret);
    } else {
      assert row == Row(q, row.step, row.secret) && HasStep(a, q, row.step);
      assert HasStep(b, q, row.step);
    }
  }

  // ---------------------------------------------------------------- the identities of a table

  ghost predicate NoRepeat<T(!new)>(s: seq<T>) { forall i, j | 0 <= i < j < |s| :: s[i] != s[j] }

  ghost predicate Strict(s: seq<string>) { forall i, j | 0 <= i < j < |s| :: Le(s[i], s[j]) && s[i] != s[j] }

  /** Exactly the wildcard grants of a repository, once each if the table has no row twice. */
  ghost predicate WildGrants(list: seq<string>, rows: seq<Row>, q: string) {
    (NoRepeat(rows) ==> NoRepeat(list)) && forall x :: x in list <==> RepoReads(rows, q, x)
  }

  /** One identity per repository, also for one without wildcard grants, with its wildcard grants. */
  ghost predicate RepoIds(ids: seq<RepoIdentity>, rows: seq<Row>) {
    && (forall i, j | 0 <= i < j < |ids| :: Qualified(ids[i]) != Qualified(ids[j]))
    && (forall q :: Mentions(ids, q) <==> HasRepo(rows, q))
    && (forall id | id in ids :: WildGrants(id.item, rows, Qualified(id)))
  }

  /** The derived name of a step identity. */
  type Naming = (string, string) -> string

  ghost predicate StepShape(s: PlanStep, q: string, rows: seq<Row>, name: Naming) {
    s.policy == name(q, s.step) && Strict(s.paths) && forall x :: x in s.paths <==> StepReads(rows, q, s.step, x)
  }

  /** No step of a repository is listed twice. */
  ghost predicate DistinctPairs(steps: seq<StepIdentity>) {
    forall i, j | 0 <= i < j < |steps| ::
      Qualified(steps[i]) != Qualified(steps[j]) || steps[i].item.step != steps[j].item.step
  }

  ghost predicate Listed(steps: seq<StepIdentity>, q: string, step: string) {
    exists s :: s in steps && Qualified(s) == q && s.item.step == step
  }

  /** One identity per named step, with its own and the inherited grants. */
  ghost predicate StepIds(steps: seq<StepIdentity>, rows: seq<Row>, name: Naming) {
    && DistinctPairs(steps)
    && (forall q, step :: Listed(steps, q, step) <==> HasStep(rows, q, step))
    && (forall s | s in steps :: StepShape(s.item, Qualified(s), rows, name))
  }

  /** An orphaned step grant needs a second table, which names a step of a repository that the first did not have. */
  lemma OrphanIff(ids: seq<RepoIdentity>, rows: seq<Row>, steps: seq<StepIdentity>, later: seq<Row>, name: Naming)
    requires RepoIds(ids, rows) && StepIds(steps, later, name)
    ensures (exists s :: s in steps && !Mentions(ids, Qualified(s))) <==>
            (exists q, step :: HasStep(later, q, step) && !HasRepo(rows, q))
  {
    hide Mentions, HasRepo, HasStep, Qualified, StepShape;
    if s :| s in steps && !Mentions(ids, Qualified(s)) {
      assert Listed(steps, Qualified(s), s.item.step);
    }
    if q, step :| HasStep(later, q, step) && !HasRepo(rows, q) {
      assert Listed(steps, q, step);
      var s :| s in steps && Qualified(s) == q && s.item.step == step;
      assert !Mentions(ids, Qualified(s));
    }
  }

  /** Identities of one table: no step grant is outside the plan, and no step is listed in two versions. */
  lemma OneTableIsConsistent(ids: seq<RepoIdentity>, steps: seq<StepIdentity>, rows: seq<Row>, name: Naming)
    requires RepoIds(ids, rows) && StepIds(steps, rows, name)
    ensures Consistent(ids, steps) && forall s | s in steps :: Mentions(ids, Qualified(s))
  {
    hide Mentions, Qualified, StepShape;
    forall x, y | x in steps && y in steps && Qualified(x) == Qualified(y) && x.item.step == y.item.step
      ensures x.item == y.item
    {
      var i :| 0 <= i < |steps| && steps[i] == x;
      var j :| 0 <= j < |steps| && steps[j] == y;
    }
    forall s | s in steps ensures Mentions(ids, Qualified(s)) {
      assert Listed(steps, Qualified(s), s.item.step);
      var x :| Row(Qualified(s), s.item.step, x) in rows;
      assert Row(Qualified(s), s.item.step, x).repo == Qualified(s);
    }
  }

  // ---------------------------------------------------------------- the plan of a table

  ghost predicate RepoShape(r: PlanRepo, rows: seq<Row>, name: Naming) {
    && r.policy == Policy(r.repo)
    && Strict(r.paths) && (forall x :: x in r.paths <==> RepoReads(rows, r.repo, x))
    && Strict(Names(r.steps)) && (forall step :: step in Names(r.steps) <==> HasStep(rows, r.repo, step))
    && (forall s | s in r.steps :: StepShape(s, r.repo, rows, name))
  }

  /** The plan in terms of the table alone. */
  ghost predicate Shape(plan: seq<PlanRepo>, rows: seq<Row>, name: Naming) {
    && Strict(Repos(plan)) && (forall q :: q in Repos(plan) <==> HasRepo(rows, q))
    && (forall r | r in plan :: RepoShape(r, rows, name))
  }

  lemma {:induction false} SelectNone<T>(ids: seq<Identity<T>>, q: string)
    requires forall id | id in ids :: Qualified(id) != q
    ensures Select(ids, q) == []
    decreases |ids|
  {
    if ids != [] { SelectNone(ids[..|ids| - 1], q); }
  }

  lemma {:induction false} SelectOnly(ids: seq<RepoIdentity>, id: RepoIdentity)
    requires id in ids && forall i, j | 0 <= i < j < |ids| :: Qualified(ids[i]) != Qualified(ids[j])
    ensures Select(ids, Qualified(id)) == [id.item]
    decreases |ids|
  {
    hide Qualified;
    var front, last := ids[..|ids| - 1], ids[|ids| - 1];
    if last == id {
      forall x | x in front ensures Qualified(x) != Qualified(id) {
        var i :| 0 <= i < |front| && front[i] == x;
        assert ids[i] == x;
      }
      SelectNone(front, Qualified(id));
    } else {
      assert id in front;
      SelectOnly(front, id);
      var i :| 0 <= i < |front| && front[i] == id;
      assert ids[i] == id;
    }
  }

  lemma {:induction false} SelectNames(steps: seq<StepIdentity>, q: string)
    requires DistinctPairs(steps)
    ensures NoRepeat(Names(Select(steps, q)))
    decreases |steps|
  {
    hide Qualified;
    if steps != [] {
      var front, last := steps[..|steps| - 1], steps[|steps| - 1];
      SelectNames(front, q);
      var earlier := Select(front, q);
      if Qualified(last) == q {
        forall k | 0 <= k < |earlier| ensures Names(earlier)[k] != last.item.step {
          Selected(front, q, earlier[k]);
          var id :| id in front && id.item == earlier[k] && Qualified(id) == q;
          var i :| 0 <= i < |front| && front[i] == id;
          assert steps[i] == id;
        }
        NamesConcat(earlier, [last.item]);
      }
    }
  }

  lemma RepoHasShape(r: PlanRepo, ids: seq<RepoIdentity>, steps: seq<StepIdentity>, rows: seq<Row>, name: Naming)
    requires NoRepeat(rows) && RepoIds(ids, rows) && StepIds(steps, rows, name)
    requires IsEntry(r, ids, steps) && Mentions(ids, r.repo)
    ensures RepoShape(r, rows, name)
  {
    hide Le, Qualified, Policy, StepShape, Select, RepoReads, HasStep, HasRepo, Mentions;
    PathsShape(r, ids, steps, rows);
    StepsShape(r, ids, steps, rows, name);
  }

  lemma Mentioned(ids: seq<RepoIdentity>, q: string) returns (id: RepoIdentity)
    requires Mentions(ids, q)
    ensures id in ids && Qualified(id) == q
  {
    id :| id in ids && Qualified(id) == q;
  }

  lemma PathsShape(r: PlanRepo, ids: seq<RepoIdentity>, steps: seq<StepIdentity>, rows: seq<Row>)
    requires NoRepeat(rows) && RepoIds(ids, rows) && IsEntry(r, ids, steps) && Mentions(ids, r.repo)
    ensures Strict(r.paths) && forall x :: x in r.paths <==> RepoReads(rows, r.repo, x)
  {
    hide Le, Qualified, Policy, RepoReads, HasRepo, Names, Select, Sorted, Mentions;
    var id := Mentioned(ids, r.repo);
    SelectOnly(ids, id);
    assert [id.item][..0] == [] && Flatten([id.item]) == [] + id.item == id.item;
    StrictAgain(id.item, r.paths);
  }

  lemma StepsShape(r: PlanRepo, ids: seq<RepoIdentity>, steps: seq<StepIdentity>, rows: seq<Row>, name: Naming)
    requires StepIds(steps, rows, name) && IsEntry(r, ids, steps)
    ensures Strict(Names(r.steps)) && forall step :: step in Names(r.steps) <==> HasStep(rows, r.repo, step)
    ensures forall s | s in r.steps :: StepShape(s, r.repo, rows, name)
  {
    hide Le, Qualified, Policy, StepShape, HasStep, Sorted, Select, Flatten;
    var chosen := Select(steps, r.repo);
    SelectNames(steps, r.repo);
    NamesBag(chosen, r.steps);
    StrictAgain(Names(chosen), Names(r.steps));
    forall step ensures step in Names(r.steps) <==> HasStep(rows, r.repo, step) {
      NamesListed(steps, r.repo, step);
    }
    forall s | s in r.steps ensures StepShape(s, r.repo, rows, name) {
      assert s in multiset(r.steps) && s in multiset(chosen);
      Selected(steps, r.repo, s);
    }
  }

  lemma NamesListed(steps: seq<StepIdentity>, q: string, step: string)
    ensures step in Names(Select(steps, q)) <==> Listed(steps, q, step)
  {
    hide Qualified, Select;
    var chosen := Select(steps, q);
    if step in Names(chosen) {
      var k :| 0 <= k < |chosen| && Names(chosen)[k] == step;
      Selected(steps, q, chosen[k]);
    }
    if s :| s in steps && Qualified(s) == q && s.item.step == step {
      Selected(steps, q, s.item);
      var k :| 0 <= k < |chosen| && chosen[k] == s.item;
      assert Names(chosen)[k] == step;
    }
  }

  /** Whatever order and sort were used, the plan is the one that the table describes. */
  lemma PlanHasShape(plan: seq<PlanRepo>, ids: seq<RepoIdentity>, steps: seq<StepIdentity>, rows: seq<Row>, name: Naming)
    requires NoRepeat(rows) && RepoIds(ids, rows) && StepIds(steps, rows, name) && IsPlan(plan, ids, steps)
    ensures Shape(plan, rows, name)
  {
    hide Le, Mentions, RepoShape, IsEntry, HasRepo, StepIds;
    forall r | r in plan ensures RepoShape(r, rows, name) {
      var i :| 0 <= i < |plan| && plan[i] == r;
      assert Mentions(ids, r.repo);
      RepoHasShape(r, ids, steps, rows, name);
    }
    forall q ensures q in Repos(plan) <==> HasRepo(rows, q) { InRepos(plan, q); }
  }

  // ---------------------------------------------------------------- deriving the identities

  function Get<K, V>(m: map<K, seq<V>>, key: K): seq<V> { if key in m then m[key] else [] }

  function AppendUnique(list: seq<string>, x: string): seq<string> { if x in list then list else list + [x] }

  /** The wildcard grants of every repository so far; a repository with named grants only has an empty list. */
  ghost predicate Collected(byRepo: map<string, seq<string>>, rows: seq<Row>) {
    && (forall q :: q in byRepo <==> HasRepo(rows, q))
    && (forall q :: WildGrants(Get(byRepo, q), rows, q))
  }

  lemma RepoSnoc(rows: seq<Row>, row: Row, q: string)
    ensures HasRepo(rows + [row], q) <==> HasRepo(rows, q) || (row.repo == q && Three(q))
  {
    hide Three;
    assert row in rows + [row];
  }

  lemma CollectedStep(byRepo: map<string, seq<string>>, rows: seq<Row>, row: Row)
    requires Collected(byRepo, rows)
    ensures var grants := Get(byRepo, row.repo) + (if row.step == WILDCARD then [row.secret] else []);
            Collected(if Three(row.repo) then byRepo[row.repo := grants] else byRepo, rows + [row])
  {
    hide HasRepo, Three, WildGrants;
    var grants := Get(byRepo, row.repo) + if row.step == WILDCARD then [row.secret] else [];
    var next := if Three(row.repo) then byRepo[row.repo := grants] else byRepo;
    forall q ensures q in next <==> HasRepo(rows + [row], q) { RepoSnoc(rows, row, q); }
    forall q ensures WildGrants(Get(next, q), rows + [row], q) {
      GrantsStep(Get(byRepo, q), rows, row, q);
    }
  }

  lemma GrantsStep(list: seq<string>, rows: seq<Row>, row: Row, q: string)
    requires WildGrants(list, rows, q)
    ensures var more := if q == row.repo && Three(q) && row.step == WILDCARD then [row.secret] else [];
            WildGrants(list + more, rows + [row], q) && (more == [] ==> WildGrants(list, rows + [row], q))
  {
    hide Three, NoRepeat;
    assert row == Row(row.repo, row.step, row.secret);
    assert forall r :: r in rows + [row] <==> r in rows || r == row;
    if NoRepeat(rows + [row]) { NoRepeatFront(rows, row); }
    GrantsGrow(list, row);
    assert list + [] == list;
  }

  lemma NoRepeatFront(rows: seq<Row>, row: Row)
    requires NoRepeat(rows + [row])
    ensures NoRepeat(rows) && row !in rows
  {
    var all := rows + [row];
    assert forall i | 0 <= i < |rows| :: all[i] == rows[i] && all[i] != all[|rows|];
  }

  lemma GrantsGrow(list: seq<string>, row: Row)
    ensures var grants := list + (if row.step == WILDCARD then [row.secret] else []);
            && (NoRepeat(list) && (row.step == WILDCARD ==> row.secret !in list) ==> NoRepeat(grants))
            && forall x :: x in grants <==> x in list || (row.step == WILDCARD && x == row.secret)
  {
    assert list + [] == list;
  }

  /** The listing is refused: it has rows, but none with a qualified name. */
  predicate Drifted(rows: seq<Row>) { rows != [] && forall row | row in rows :: !Three(row.repo) }

  lemma DriftedIff(rows: seq<Row>, byRepo: map<string, seq<string>>)
    requires Collected(byRepo, rows)
    ensures Drifted(rows) <==> rows != [] && byRepo == map[]
  {
    hide Three, WildGrants;
    if q :| q in byRepo { assert HasRepo(rows, q); }
    if row :| row in rows && Three(row.repo) { assert HasRepo(rows, row.repo) && row.repo in byRepo; }
  }

  /** The repository identities of `ParseAccessListJSON`; rows with a bare name are skipped. */
  method RepoIdentities(rows: seq<Row>) returns (ids: seq<RepoIdentity>, ok: bool)
    ensures ok <==> !Drifted(rows)
    ensures ok ==> RepoIds(ids, rows)
  {
    hide Three, Collected, RepoReads, HasRepo, Drifted;
    var byRepo: map<string, seq<string>> := map[];
    NothingCollected();
    for i := 0 to |rows|
      invariant Collected(byRepo, rows[..i])
    {
      var row := rows[i];
      assert rows[..i + 1] == rows[..i] + [row];
      CollectedStep(byRepo, rows[..i], row);
      if !Three(row.repo) { continue; }
      byRepo := byRepo[row.repo := Get(byRepo, row.repo) + if row.step == WILDCARD then [row.secret] else []];
    }
    assert rows[..|rows|] == rows;
    DriftedIff(rows, byRepo);
    if rows != [] && byRepo == map[] { return [], false; }
    ids := NameRepos(byRepo, rows);
    ok := true;
  }

  lemma NothingCollected()
    ensures Collected(map[], [])
  {
  }

  method NameRepos(byRepo: map<string, seq<string>>, ghost rows: seq<Row>) returns (ids: seq<RepoIdentity>)
    requires Collected(byRepo, rows)
    ensures RepoIds(ids, rows)
  {
    hide Segments, RepoReads, Qualified, Le, Sorted;
    var keys := KeysInSomeOrder(byRepo.Keys);
    ids := [];
    for i := 0 to |keys|
      invariant |ids| == i && forall j | 0 <= j < i :: Qualified(ids[j]) == keys[j]
      invariant forall j | 0 <= j < i :: WildGrants(ids[j].item, rows, keys[j])
    {
      var q := keys[i];
      assert q in keys && q in byRepo && HasRepo(rows, q) && byRepo[q] == Get(byRepo, q);
      var grants := SortStrings(byRepo[q]);
      SortedKeeps(byRepo[q], grants);
      IdOfQualified(q, grants);
      ids := ids + [IdOf(q, grants)];
    }
    RepoIdsFromKeys(ids, keys, rows);
  }

  lemma SortedKeeps(list: seq<string>, sorted: seq<string>)
    requires multiset(list) == multiset(sorted) && Sorted(sorted)
    ensures (NoRepeat(list) ==> NoRepeat(sorted)) && forall x :: x in sorted <==> x in list
  {
    hide Le, Sorted;
    if NoRepeat(list) { StrictAgain(list, sorted); }
    assert forall q :: q in sorted <==> q in multiset(sorted);
    assert forall q :: q in list <==> q in multiset(list);
  }

  lemma RepoIdsFromKeys(ids: seq<RepoIdentity>, keys: seq<string>, rows: seq<Row>)
    requires |ids| == |keys| && NoRepeat(keys) && (forall q :: q in keys <==> HasRepo(rows, q))
    requires forall j | 0 <= j < |ids| :: Qualified(ids[j]) == keys[j]
    requires forall j | 0 <= j < |ids| :: WildGrants(ids[j].item, rows, keys[j])
    ensures RepoIds(ids, rows)
  {
    hide HasRepo, RepoReads, Qualified;
    forall q ensures Mentions(ids, q) <==> HasRepo(rows, q) {
      if q in keys {
        var j :| 0 <= j < |keys| && keys[j] == q;
        assert ids[j] in ids;
      }
      if id :| id in ids && Qualified(id) == q {
        var j :| 0 <= j < |ids| && ids[j] == id;
        assert keys[j] in keys;
      }
    }
  }

  /** The wildcard grants of every repository so far. */
  ghost predicate Wild(wild: map<string, seq<string>>, rows: seq<Row>) {
    forall q :: NoRepeat(Get(wild, q)) && forall x :: x in Get(wild, q) <==> RepoReads(rows, q, x)
  }

  /** The own grants of every named step so far. */
  ghost predicate Named(named: map<(string, string), seq<string>>, rows: seq<Row>) {
    && (forall key :: key in named <==> HasStep(rows, key.0, key.1))
    && (forall key | key in named :: NoRepeat(named[key]) && forall x :: x in named[key] <==> Row(key.0, key.1, x) in rows)
  }

  lemma StepSnoc(rows: seq<Row>, row: Row, q: string, step: string)
    ensures HasStep(rows + [row], q, step) <==>
            HasStep(rows, q, step) || (Three(q) && step != WILDCARD && row.repo == q && row.step == step)
  {
    hide Three;
    assert row == Row(row.repo, row.step, row.secret) && row in rows + [row];
  }

  lemma UniqueAppended(list: seq<string>, x: string)
    requires NoRepeat(list)
    ensures NoRepeat(AppendUnique(list, x)) && forall y :: y in AppendUnique(list, x) <==> y in list || y == x
  {
  }

  lemma WildStep(wild: map<string, seq<string>>, rows: seq<Row>, row: Row)
    requires Wild(wild, rows)
    ensures var list := AppendUnique(Get(wild, row.repo), row.secret);
            Wild(if Three(row.repo) && row.step == WILDCARD then wild[row.repo := list] else wild, rows + [row])
  {
    hide Three, AppendUnique, NoRepeat;
    UniqueAppended(Get(wild, row.repo), row.secret);
    assert row == Row(row.repo, row.step, row.secret);
    assert forall r :: r in rows + [row] <==> r in rows || r == row;
    var list := AppendUnique(Get(wild, row.repo), row.secret);
    var next := if Three(row.repo) && row.step == WILDCARD then wild[row.repo := list] else wild;
    forall q ensures NoRepeat(Get(next, q)) && forall x :: x in Get(next, q) <==> RepoReads(rows + [row], q, x) {
      assert Get(next, q) == if Three(row.repo) && row.step == WILDCARD && q == row.repo then list else Get(wild, q);
    }
  }

  lemma NamedStep(named: map<(string, string), seq<string>>, rows: seq<Row>, row: Row)
    requires Named(named, rows)
    ensures var key := (row.repo, row.step);
            var list := AppendUnique(Get(named, key), row.secret);
            Named(if Three(row.repo) && row.step != WILDCARD then named[key := list] else named, rows + [row])
  {
    hide Three, AppendUnique, HasStep, NoRepeat;
    var key := (row.repo, row.step);
    var list := AppendUnique(Get(named, key), row.secret);
    var next := if Three(row.repo) && row.step != WILDCARD then named[key := list] else named;
    NothingRepeats();
    UniqueAppended(Get(named, key), row.secret);
    assert row == Row(row.repo, row.step, row.secret);
    assert forall r :: r in rows + [row] <==> r in rows || r == row;
    forall k ensures k in next <==> HasStep(rows + [row], k.0, k.1) { StepSnoc(rows, row, k.0, k.1); }
    forall k | k in next ensures NoRepeat(next[k]) && forall x :: x in next[k] <==> Row(k.0, k.1, x) in rows + [row] {
      if k == key {
        assert HasStep(rows + [row], key.0, key.1);
        StepIsNamed(rows + [row], key.0, key.1);
        if key !in named { NotNamed(rows, key.0, key.1); }
      } else {
        assert next[k] == named[k];
      }
    }
  }

  lemma NothingRepeats()
    ensures NoRepeat<string>([])
  {
  }

  lemma StepIsNamed(rows: seq<Row>, q: string, step: string)
    requires HasStep(rows, q, step)
    ensures Three(q) && step != WILDCARD
  {
  }

  lemma NotNamed(rows: seq<Row>, q: string, step: string)
    requires !HasStep(rows, q, step)
    ensures Three(q) && step != WILDCARD ==> forall x :: Row(q, step, x) !in rows
  {
  }

  lemma NothingIndexed()
    ensures Wild(map[], []) && Named(map[], [])
  {
  }

  /** `DerivePerStepIdentities`: own grants first, then the inherited ones that are not there yet, sorted. */
  method StepIdentities(rows: seq<Row>, name: Naming) returns (steps: seq<StepIdentity>)
    ensures StepIds(steps, rows, name)
  {
    hide Three, Named, Wild, AppendUnique;
    var wild: map<string, seq<string>> := map[];
    var named: map<(string, string), seq<string>> := map[];
    NothingIndexed();
    for i := 0 to |rows|
      invariant Wild(wild, rows[..i]) && Named(named, rows[..i])
    {
      var row := rows[i];
      assert rows[..i + 1] == rows[..i] + [row];
      WildStep(wild, rows[..i], row);
      NamedStep(named, rows[..i], row);
      if !Three(row.repo) { continue; }
      if row.step == WILDCARD {
        wild := wild[row.repo := AppendUnique(Get(wild, row.repo), row.secret)];
      } else {
        var key := (row.repo, row.step);
        named := named[key := AppendUnique(Get(named, key), row.secret)];
      }
    }
    assert rows[..|rows|] == rows;
    steps := NameSteps(wild, named, rows, name);
  }

  method Merge(own: seq<string>, inherited: seq<string>) returns (merged: seq<string>)
    requires NoRepeat(own)
    ensures Strict(merged) && forall x :: x in merged <==> x in own || x in inherited
  {
    hide Le, AppendUnique, Sorted;
    var all := own;
    for i := 0 to |inherited|
      invariant NoRepeat(all) && forall x :: x in all <==> x in own || x in inherited[..i]
    {
      UniqueAppended(all, inherited[i]);
      all := AppendUnique(all, inherited[i]);
    }
    merged := SortStrings(all);
    StrictAgain(all, merged);
  }

  method NameSteps(wild: map<string, seq<string>>, named: map<(string, string), seq<string>>,
                   ghost rows: seq<Row>, name: Naming)
    returns (steps: seq<StepIdentity>)
    requires Wild(wild, rows) && Named(named, rows)
    ensures StepIds(steps, rows, name)
  {
    hide Segments, Qualified, RepoReads, Strict;
    var keys := KeysInSomeOrder(named.Keys);
    steps := [];
    for i := 0 to |keys|
      invariant |steps| == i && forall j | 0 <= j < i :: Qualified(steps[j]) == keys[j].0 && steps[j].item.step == keys[j].1
      invariant forall j | 0 <= j < i :: StepShape(steps[j].item, keys[j].0, rows, name)
    {
      var (q, step) := keys[i];
      assert keys[i] in keys && (q, step) in named && HasStep(rows, q, step);
      var paths := Merge(named[(q, step)], Get(wild, q));
      forall x ensures x in paths <==> StepReads(rows, q, step, x) {
        ReadsEither(rows, q, step, x);
      }
      var item := PlanStep(step, name(q, step), paths);
      IdOfQualified(q, item);
      steps := steps + [IdOf(q, item)];
    }
    StepIdsFromKeys(steps, keys, rows, name);
  }

  lemma ReadsEither(rows: seq<Row>, q: string, step: string, x: string)
    ensures StepReads(rows, q, step, x) <==> (Three(q) && Row(q, step, x) in rows) || RepoReads(rows, q, x)
  {
  }

  lemma StepIdsFromKeys(steps: seq<StepIdentity>, keys: seq<(string, string)>, rows: seq<Row>, name: Naming)
    requires |steps| == |keys| && NoRepeat(keys) && (forall q, step :: (q, step) in keys <==> HasStep(rows, q, step))
    requires forall j | 0 <= j < |steps| :: Qualified(steps[j]) == keys[j].0 && steps[j].item.step == keys[j].1
    requires forall j | 0 <= j < |steps| :: StepShape(steps[j].item, keys[j].0, rows, name)
    ensures StepIds(steps, rows, name)
  {
    hide HasStep, Qualified, StepShape;
    forall q, step ensures Listed(steps, q, step) <==> HasStep(rows, q, step) {
      if (q, step) in keys {
        var j :| 0 <= j < |keys| && keys[j] == (q, step);
        assert steps[j] in steps;
      }
      if s :| s in steps && Qualified(s) == q && s.item.step == step {
        var j :| 0 <= j < |steps| && steps[j] == s;
        assert keys[j] == (q, step) && keys[j] in keys;
      }
    }
    assert forall i, j | 0 <= i < j < |steps| :: keys[i] != keys[j];
  }

  /** The plan and what is hashed, from one reading of the table, unless the listing is refused. */
  method PlanFromRows(rows: seq<Row>, name: Naming) returns (plan: seq<PlanRepo>, preimage: string, ok: bool)
    ensures ok <==> !Drifted(rows)
    ensures ok && NoRepeat(rows) ==> Shape(plan, rows, name)
    ensures ok ==> preimage == Preimage(plan)
  {
    hide NoRepeat, Shape, RepoIds, StepIds, IsPlan, Preimage, Drifted;
    plan, preimage := [], "";
    var ids: seq<RepoIdentity>;
    ids, ok := RepoIdentities(rows);
    if !ok { return; }
    var steps := StepIdentities(rows, name);
    plan, preimage := PlanFromIdentities(ids, steps);
    if NoRepeat(rows) { PlanHasShape(plan, ids, steps, rows, name); }
  }

  // ---------------------------------------------------------------- the digest and access

  lemma StepEqual(s: PlanStep, t: PlanStep, q: string, a: seq<Row>, b: seq<Row>, name: Naming)
    requires StepShape(s, q, a, name) && StepShape(t, q, b, name) && s.step == t.step
    requires SameAccess(a, b) && HasStep(a, q, s.step)
    ensures s == t
  {
    hide Le, RepoReads, HasStep, StepReads;
    StrictUnique(s.paths, t.paths);
  }

  lemma StepsEqual(s: seq<PlanStep>, t: seq<PlanStep>, q: string, a: seq<Row>, b: seq<Row>, name: Naming)
    requires Names(s) == Names(t) && SameAccess(a, b) && forall step | step in Names(s) :: HasStep(a, q, step)
    requires (forall x | x in s :: StepShape(x, q, a, name)) && (forall x | x in t :: StepShape(x, q, b, name))
    ensures s == t
  {
    hide StepShape, SameAccess, HasStep;
    forall i | 0 <= i < |s| ensures s[i] == t[i] {
      assert Names(s)[i] == Names(t)[i] && Names(s)[i] in Names(s) && s[i] in s && t[i] in t;
      StepEqual(s[i], t[i], q, a, b, name);
    }
  }

  lemma RepoEqual(r: PlanRepo, s: PlanRepo, a: seq<Row>, b: seq<Row>, name: Naming)
    requires RepoShape(r, a, name) && RepoShape(s, b, name) && r.repo == s.repo && SameAccess(a, b)
    ensures r == s
  {
    hide Le, StepShape, RepoReads, HasStep, StepReads, Policy;
    StrictUnique(r.paths, s.paths);
    StrictUnique(Names(r.steps), Names(s.steps));
    StepsEqual(r.steps, s.steps, r.repo, a, b, name);
  }

  lemma SameAccessBack(a: seq<Row>, b: seq<Row>)
    requires SameAccess(a, b)
    ensures SameAccess(b, a)
  {
    hide RepoReads, HasStep, StepReads;
  }

  lemma PlanEqual(p: seq<PlanRepo>, q: seq<PlanRepo>, a: seq<Row>, b: seq<Row>, name: Naming)
    requires Shape(p, a, name) && Shape(q, b, name) && SameAccess(a, b)
    ensures p == q
  {
    hide Le, RepoShape, SameAccess, HasRepo;
    SameAccessBack(a, b);
    forall x ensures x in Repos(p) <==> x in Repos(q) {
      if HasRepo(a, x) { SameRepositories(a, b, x); }
      if HasRepo(b, x) { SameRepositories(b, a, x); }
    }
    StrictUnique(Repos(p), Repos(q));
    forall i | 0 <= i < |p| ensures p[i] == q[i] {
      assert Repos(p)[i] == Repos(q)[i] && p[i] in p && q[i] in q;
      RepoEqual(p[i], q[i], a, b, name);
    }
  }

  /** The entry of a repository. */
  lemma EntryOf(plan: seq<PlanRepo>, rows: seq<Row>, name: Naming, q: string) returns (r: PlanRepo)
    requires Shape(plan, rows, name) && HasRepo(rows, q)
    ensures r in plan && r.repo == q && RepoShape(r, rows, name)
  {
    hide Le, RepoShape, HasRepo;
    var i :| 0 <= i < |Repos(plan)| && Repos(plan)[i] == q;
    r := plan[i];
  }

  lemma ReadsTold(plan: seq<PlanRepo>, a: seq<Row>, b: seq<Row>, name: Naming, q: string, x: string)
    requires Shape(plan, a, name) && Shape(plan, b, name) && RepoReads(a, q, x)
    ensures RepoReads(b, q, x)
  {
    hide Le, StepShape, Policy;
    assert Row(q, WILDCARD, x).repo == q;
    var r := EntryOf(plan, a, name, q);
    assert RepoShape(r, b, name);
  }

  lemma StepTold(plan: seq<PlanRepo>, a: seq<Row>, b: seq<Row>, name: Naming, q: string, step: string)
    requires Shape(plan, a, name) && Shape(plan, b, name) && HasStep(a, q, step)
    ensures HasStep(b, q, step) && forall x :: StepReads(a, q, step, x) == StepReads(b, q, step, x)
  {
    hide Le, Policy, StepReads, Strict;
    var x :| Row(q, step, x) in a;
    assert Row(q, step, x).repo == q;
    var r := EntryOf(plan, a, name, q);
    assert RepoShape(r, a, name) && RepoShape(r, b, name);
    var i :| 0 <= i < |r.steps| && Names(r.steps)[i] == step;
    assert r.steps[i] in r.steps && StepShape(r.steps[i], q, a, name) && StepShape(r.steps[i], q, b, name);
  }

  lemma PlanTellsAccess(plan: seq<PlanRepo>, a: seq<Row>, b: seq<Row>, name: Naming)
    requires Shape(plan, a, name) && Shape(plan, b, name)
    ensures SameAccess(a, b)
  {
    hide Shape, RepoReads, HasStep, StepReads;
    forall q, x ensures RepoReads(a, q, x) == RepoReads(b, q, x) {
      if RepoReads(a, q, x) { ReadsTold(plan, a, b, name, q, x); }
      if RepoReads(b, q, x) { ReadsTold(plan, b, a, name, q, x); }
    }
    forall q, step ensures HasStep(a, q, step) == HasStep(b, q, step) {
      if HasStep(a, q, step) { StepTold(plan, a, b, name, q, step); }
      if HasStep(b, q, step) { StepTold(plan, b, a, name, q, step); }
    }
    forall q, step, x | HasStep(a, q, step) ensures StepReads(a, q, step, x) == StepReads(b, q, step, x) {
      StepTold(plan, a, b, name, q, step);
    }
  }

  lemma {:induction false} SafeKeepsNulFree(s: string)
    requires NUL !in s
    ensures NUL !in Safe(s)
    decreases |s|
  {
    if s != [] {
      assert s[|s| - 1] in s;
      SafeKeepsNulFree(s[..|s| - 1]);
    }
  }

  lemma PolicyNulFree(q: string)
    requires NUL !in q
    ensures NUL !in Policy(q)
  {
    SafeKeepsNulFree(q);
  }

  /** A table of grantable rows gives a plan that the encoding can carry. */
  lemma PlanIsValid(plan: seq<PlanRepo>, rows: seq<Row>, name: Naming)
    requires Shape(plan, rows, name)
    requires (forall row | row in rows :: Grantable(row)) && (forall q, step :: NUL !in name(q, step))
    ensures ValidPlan(plan)
  {
    hide Le, RepoShape, ValidRepo, Grantable;
    forall r | r in plan ensures ValidRepo(r) {
      var i :| 0 <= i < |plan| && plan[i] == r;
      assert Repos(plan)[i] == r.repo;
      RepoIsValid(r, rows, name);
    }
  }

  lemma RepoIsValid(r: PlanRepo, rows: seq<Row>, name: Naming)
    requires RepoShape(r, rows, name) && HasRepo(rows, r.repo)
    requires (forall row | row in rows :: Grantable(row)) && (forall q, step :: NUL !in name(q, step))
    ensures ValidRepo(r)
  {
    hide Le, Policy, SafeText, PathLike, Strict;
    var row :| row in rows && row.repo == r.repo;
    GrantablePath(row.repo);
    PolicyNulFree(r.repo);
    forall p | p in r.paths ensures NUL !in p && PathLike(p) {
      assert Grantable(Row(r.repo, WILDCARD, p));
      GrantablePath(p);
    }
    forall s | s in r.steps ensures ValidStep(s) {
      var i :| 0 <= i < |r.steps| && r.steps[i] == s;
      assert Names(r.steps)[i] == s.step && HasStep(rows, r.repo, s.step);
      StepIsValid(s, r.repo, rows, name);
    }
  }

  lemma StepIsValid(s: PlanStep, q: string, rows: seq<Row>, name: Naming)
    requires StepShape(s, q, rows, name) && HasStep(rows, q, s.step)
    requires (forall row | row in rows :: Grantable(row)) && (forall r, step :: NUL !in name(r, step))
    ensures ValidStep(s)
  {
    hide Le, SafeText, PathLike, Strict;
    var x :| Row(q, s.step, x) in rows;
    assert Grantable(Row(q, s.step, x));
    GrantablePath(s.step);
    forall p | p in s.paths ensures NUL !in p && PathLike(p) {
      assert StepReads(rows, q, s.step, p);
      var row := if Row(q, s.step, p) in rows then Row(q, s.step, p) else Row(q, WILDCARD, p);
      assert Grantable(row);
      GrantablePath(p);
    }
  }

  /**
   What is hashed for two tables is the same exactly when they give the same
   access: the same named steps, and everyone reads the same secrets.  Only a
   hash collision can hide a difference in access, and a change to the table
   that does not change access does not change the digest.
   */
  lemma PreimageMeansAccess(p: seq<PlanRepo>, a: seq<Row>, q: seq<PlanRepo>, b: seq<Row>, name: Naming)
    requires Shape(p, a, name) && Shape(q, b, name)
    requires (forall row | row in a + b :: Grantable(row)) && (forall r, step :: NUL !in name(r, step))
    ensures Preimage(p) == Preimage(q) <==> SameAccess(a, b)
  {
    hide Shape, Grantable, Preimage, SameAccess;
    assert (forall row | row in a :: row in a + b) && (forall row | row in b :: row in a + b);
    if SameAccess(a, b) { PlanEqual(p, q, a, b, name); }
    if Preimage(p) == Preimage(q) {
      PlanIsValid(p, a, name);
      PlanIsValid(q, b, name);
      PreimageInjective(p, q);
      PlanTellsAccess(p, a, b, name);
    }
  }
}
