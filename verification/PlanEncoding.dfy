/** The byte encoding whose SHA-256 is the secret-store plan digest. */
module PlanEncoding {

  datatype PlanStep = PlanStep(step: string, policy: string, paths: seq<string>)

  datatype PlanRepo = PlanRepo(repo: string, policy: string, paths: seq<string>, steps: seq<PlanStep>)

  const NUL := '\0'
  const HEADER := "oberth-secretstore-plan-v1\0"
  const STEP := "step:"

  // ---------------------------------------------------------------- encoding

  function Terminated(s: string): string { s + [NUL] }

  function EncodePaths(paths: seq<string>): string {
    if paths == [] then [] else Terminated(paths[0]) + EncodePaths(paths[1..])
  }

  function EncodeStep(s: PlanStep): string { Terminated(STEP + s.step) + Terminated(s.policy) + EncodePaths(s.paths) }

  function EncodeSteps(steps: seq<PlanStep>): string {
    if steps == [] then [] else EncodeStep(steps[0]) + EncodeSteps(steps[1..])
  }

  function EncodeRepo(r: PlanRepo): string {
    Terminated(r.repo) + Terminated(r.policy) + EncodePaths(r.paths) + EncodeSteps(r.steps) + [NUL]
  }

  function EncodeRepos(repos: seq<PlanRepo>): string {
    if repos == [] then [] else EncodeRepo(repos[0]) + EncodeRepos(repos[1..])
  }

  /** The digest preimage of a plan. */
  function Preimage(repos: seq<PlanRepo>): string { HEADER + EncodeRepos(repos) }

  lemma Regroup<T>(a: seq<T>, b: seq<T>, c: seq<T>)
    ensures a + b + c == a + (b + c)
  {
  }

  /** `computePlanDigestLocal` up to the hash: nested loops that write field after field. */
  method WritePreimage(repos: seq<PlanRepo>) returns (h: string)
    ensures h == Preimage(repos)
  {
    hide EncodeRepo;
    h := HEADER;
    for i := 0 to |repos|
      invariant h + EncodeRepos(repos[i..]) == Preimage(repos)
    {
      Regroup(h, EncodeRepo(repos[i]), EncodeRepos(repos[i + 1..]));
      assert repos[i..][1..] == repos[i + 1..];
      h := WriteRepo(h, repos[i]);
    }
    assert h + [] == h;
  }

  method WriteRepo(h: string, repo: PlanRepo) returns (out: string)
    ensures out == h + EncodeRepo(repo)
  {
    hide EncodePaths, EncodeSteps;
    out := h + Terminated(repo.repo) + Terminated(repo.policy);
    out := WritePaths(out, repo.paths);
    out := WriteSteps(out, repo.steps);
    out := out + [NUL];
  }

  method WriteSteps(h: string, steps: seq<PlanStep>) returns (out: string)
    ensures out == h + EncodeSteps(steps)
  {
    hide EncodeStep;
    out := h;
    for i := 0 to |steps|
      invariant out + EncodeSteps(steps[i..]) == h + EncodeSteps(steps)
    {
      Regroup(out, EncodeStep(steps[i]), EncodeSteps(steps[i + 1..]));
      assert steps[i..][1..] == steps[i + 1..];
      out := WriteStep(out, steps[i]);
    }
    assert out + [] == out;
  }

  method WriteStep(h: string, step: PlanStep) returns (out: string)
    ensures out == h + EncodeStep(step)
  {
    hide EncodePaths;
    out := h + STEP + Terminated(step.step) + Terminated(step.policy);
    out := WritePaths(out, step.paths);
  }

  method WritePaths(h: string, paths: seq<string>) returns (out: string)
    ensures out == h + EncodePaths(paths)
  {
    hide Terminated;
    out := h;
    for i := 0 to |paths|
      invariant out + EncodePaths(paths[i..]) == h + EncodePaths(paths)
    {
      Regroup(out, Terminated(paths[i]), EncodePaths(paths[i + 1..]));
      assert paths[i..][1..] == paths[i + 1..];
      out := out + Terminated(paths[i]);
    }
    assert out + [] == out;
  }

  // ---------------------------------------------------------------- the fields behind the bytes

  function StepFields(steps: seq<PlanStep>): seq<string> {
    if steps == [] then [] else [STEP + steps[0].step, steps[0].policy] + steps[0].paths + StepFields(steps[1..])
  }

  function Fields(repos: seq<PlanRepo>): seq<string> {
    if repos == [] then []
    else [repos[0].repo, repos[0].policy] + repos[0].paths + (StepFields(repos[0].steps) + ([""] + Fields(repos[1..])))
  }

  lemma {:induction false} PathsConcat(a: seq<string>, b: seq<string>)
    ensures EncodePaths(a + b) == EncodePaths(a) + EncodePaths(b)
    decreases |a|
  {
    hide Terminated;
    if a == [] {
      assert a + b == b;
    } else {
      PathsConcat(a[1..], b);
      assert (a + b)[1..] == a[1..] + b;
      Regroup(Terminated(a[0]), EncodePaths(a[1..]), EncodePaths(b));
    }
  }

  lemma {:induction false} PathsOne(s: string)
    ensures EncodePaths([s]) == Terminated(s) && EncodePaths([]) == []
  {
  }

  lemma {:induction false} PathsTwo(s: string, t: string)
    ensures EncodePaths([s, t]) == Terminated(s) + Terminated(t)
  {
    assert [s, t][1..] == [t];
    PathsOne(t);
  }

  lemma {:induction false} StepsAreFields(steps: seq<PlanStep>)
    ensures EncodeSteps(steps) == EncodePaths(StepFields(steps))
    decreases |steps|
  {
    hide EncodePaths;
    if steps == [] {
      PathsOne("");
    } else {
      var s := steps[0];
      StepsAreFields(steps[1..]);
      PathsTwo(STEP + s.step, s.policy);
      PathsConcat([STEP + s.step, s.policy], s.paths);
      PathsConcat([STEP + s.step, s.policy] + s.paths, StepFields(steps[1..]));
    }
  }

  lemma {:induction false} ReposAreFields(repos: seq<PlanRepo>)
    ensures EncodeRepos(repos) == EncodePaths(Fields(repos))
    decreases |repos|
  {
    hide EncodePaths, EncodeSteps, StepFields;
    PathsOne("");
    if repos != [] {
      var r, rest := repos[0], Fields(repos[1..]);
      ReposAreFields(repos[1..]);
      PathsTwo(r.repo, r.policy);
      PathsConcat([r.repo, r.policy], r.paths);
      PathsConcat([r.repo, r.policy] + r.paths, StepFields(r.steps) + ([""] + rest));
      PathsConcat(StepFields(r.steps), [""] + rest);
      PathsConcat([""], rest);
      StepsAreFields(r.steps);
      assert Terminated("") == [NUL];
    }
  }

  // ---------------------------------------------------------------- fields are recoverable

  predicate NulFree(fields: seq<string>) { forall s | s in fields :: NUL !in s }

  /** A field ends at the first terminator. */
  lemma FirstField(s: string, a: string, t: string, b: string)
    requires NUL !in s && NUL !in t && Terminated(s) + a == Terminated(t) + b
    ensures s == t && a == b
  {
    var whole := Terminated(s) + a;
    assert whole[|s|] == NUL && whole[|t|] == NUL;
    assert forall i | 0 <= i < |s| :: whole[i] == s[i];
    assert forall i | 0 <= i < |t| :: whole[i] == t[i];
    assert |s| == |t|;
    assert s == whole[..|s|] && t == whole[..|t|];
    assert a == whole[|s| + 1..] && b == whole[|t| + 1..];
  }

  lemma {:induction false} FieldsInjective(a: seq<string>, b: seq<string>)
    requires NulFree(a) && NulFree(b) && EncodePaths(a) == EncodePaths(b)
    ensures a == b
    decreases |a|
  {
    if a != [] && b != [] {
      FirstField(a[0], EncodePaths(a[1..]), b[0], EncodePaths(b[1..]));
      FieldsInjective(a[1..], b[1..]);
      assert a == [a[0]] + a[1..] && b == [b[0]] + b[1..];
    }
  }

  // ---------------------------------------------------------------- plans are recoverable

  predicate IsStep(s: string) { STEP <= s }

  /** A field that cannot be mistaken for the end of a list of paths. */
  predicate PathLike(s: string) { s != "" && !IsStep(s) }

  predicate ValidPaths(paths: seq<string>) { forall p | p in paths :: NUL !in p && PathLike(p) }

  predicate ValidStep(s: PlanStep) { NUL !in s.step && NUL !in s.policy && ValidPaths(s.paths) }

  predicate ValidRepo(r: PlanRepo) {
    NUL !in r.repo && NUL !in r.policy && ValidPaths(r.paths) && forall s | s in r.steps :: ValidStep(s)
  }

  /** NUL-free strings, and no path that is empty or starts with `step:`. */
  predicate ValidPlan(repos: seq<PlanRepo>) { forall r | r in repos :: ValidRepo(r) }

  /** How many fields at the front are paths. */
  function PathCount(fields: seq<string>): (n: nat)
    ensures n <= |fields|
  {
    if fields == [] || !PathLike(fields[0]) then 0 else 1 + PathCount(fields[1..])
  }

  datatype Steps = Steps(steps: seq<PlanStep>, rest: seq<string>)

  /** Reads the steps of one repository. */
  function ReadSteps(fields: seq<string>): (r: Steps)
    ensures |r.rest| <= |fields|
    decreases |fields|
  {
    if |fields| < 2 || !IsStep(fields[0]) then Steps([], fields)
    else
      var n := PathCount(fields[2..]);
      var more := ReadSteps(fields[2 + n..]);
      Steps([PlanStep(fields[0][|STEP|..], fields[1], fields[2..2 + n])] + more.steps, more.rest)
  }

  /** Reads a plan back from its fields. */
  function ReadRepos(fields: seq<string>): seq<PlanRepo>
    decreases |fields|
  {
    if |fields| < 3 then []
    else
      var n := PathCount(fields[2..]);
      var steps := ReadSteps(fields[2 + n..]);
      [PlanRepo(fields[0], fields[1], fields[2..2 + n], steps.steps)] +
      (if steps.rest == [] then [] else ReadRepos(steps.rest[1..]))
  }

  lemma {:induction false} CountPaths(paths: seq<string>, rest: seq<string>)
    requires ValidPaths(paths) && rest != [] && !PathLike(rest[0])
    ensures PathCount(paths + rest) == |paths|
    decreases |paths|
  {
    if paths == [] {
      assert paths + rest == rest;
    } else {
      CountPaths(paths[1..], rest);
      assert (paths + rest)[1..] == paths[1..] + rest;
    }
  }

  /** The first two fields, the paths and the remainder of what follows them. */
  lemma FrontFields(x: string, y: string, paths: seq<string>, rest: seq<string>)
    requires ValidPaths(paths) && rest != [] && !PathLike(rest[0])
    ensures var fields := [x, y] + paths + rest;
            && fields[0] == x && fields[1] == y && PathCount(fields[2..]) == |paths|
            && fields[2..2 + |paths|] == paths && fields[2 + |paths|..] == rest
  {
    hide PathCount, ValidPaths, PathLike;
    var fields := [x, y] + paths + rest;
    assert fields[2..] == paths + rest;
    CountPaths(paths, rest);
  }

  lemma {:induction false} ReadOneStep(s: PlanStep, more: seq<string>)
    requires ValidStep(s) && more != [] && !PathLike(more[0])
    ensures var fields := [STEP + s.step, s.policy] + s.paths + more;
            && ReadSteps(fields) == Steps([s] + ReadSteps(more).steps, ReadSteps(more).rest)
            && !PathLike(fields[0])
  {
    hide PathCount, ValidPaths;
    var fields := [STEP + s.step, s.policy] + s.paths + more;
    FrontFields(STEP + s.step, s.policy, s.paths, more);
    assert IsStep(fields[0]) && fields[0][|STEP|..] == s.step;
  }

  lemma {:induction false} StepsEnd(rest: seq<string>)
    requires rest != [] && rest[0] == ""
    ensures ReadSteps(rest) == Steps([], rest) && !PathLike(rest[0])
  {
  }

  lemma {:induction false} StepsRoundTrip(steps: seq<PlanStep>, rest: seq<string>)
    requires (forall s | s in steps :: ValidStep(s)) && rest != [] && rest[0] == ""
    ensures ReadSteps(StepFields(steps) + rest) == Steps(steps, rest)
    ensures !PathLike((StepFields(steps) + rest)[0])
    decreases |steps|
  {
    hide PathCount, ValidStep, PathLike, ReadSteps;
    if steps == [] {
      assert StepFields(steps) + rest == rest;
      StepsEnd(rest);
    } else {
      var s, more := steps[0], StepFields(steps[1..]) + rest;
      assert s in steps;
      StepsRoundTrip(steps[1..], rest);
      ReadOneStep(s, more);
      Regroup([STEP + s.step, s.policy] + s.paths, StepFields(steps[1..]), rest);
      assert steps == [s] + steps[1..];
    }
  }

  /** A plan can be read back from its fields. */
  lemma {:induction false} PlanRoundTrip(repos: seq<PlanRepo>)
    requires ValidPlan(repos)
    ensures ReadRepos(Fields(repos)) == repos
    decreases |repos|
  {
    hide PathCount, StepFields, ReadSteps, ValidStep, PathLike;
    if repos != [] {
      var r, tail := repos[0], [""] + Fields(repos[1..]);
      var rest := StepFields(r.steps) + tail;
      assert r in repos;
      PlanRoundTrip(repos[1..]);
      StepsRoundTrip(r.steps, tail);
      FrontFields(r.repo, r.policy, r.paths, rest);
      assert Fields(repos) == [r.repo, r.policy] + r.paths + rest;
      assert tail[1..] == Fields(repos[1..]);
      assert repos == [r] + repos[1..];
    }
  }

  lemma {:induction false} StepFieldsNulFree(steps: seq<PlanStep>)
    requires forall s | s in steps :: ValidStep(s)
    ensures NulFree(StepFields(steps))
    decreases |steps|
  {
    if steps != [] {
      assert steps[0] in steps;
      StepFieldsNulFree(steps[1..]);
      assert NUL !in STEP + steps[0].step;
    }
  }

  lemma {:induction false} FieldsNulFree(repos: seq<PlanRepo>)
    requires ValidPlan(repos)
    ensures NulFree(Fields(repos))
    decreases |repos|
  {
    if repos != [] {
      assert repos[0] in repos;
      FieldsNulFree(repos[1..]);
      StepFieldsNulFree(repos[0].steps);
    }
  }

  /** The preimage determines the plan, so only a hash collision can make two plans share a digest. */
  lemma PreimageInjective(a: seq<PlanRepo>, b: seq<PlanRepo>)
    requires ValidPlan(a) && ValidPlan(b) && Preimage(a) == Preimage(b)
    ensures a == b
  {
    hide ValidPlan, Fields, EncodeRepos, EncodePaths;
    assert EncodeRepos(a) == Preimage(a)[|HEADER|..] && EncodeRepos(b) == Preimage(b)[|HEADER|..];
    ReposAreFields(a);
    ReposAreFields(b);
    FieldsNulFree(a);
    FieldsNulFree(b);
    FieldsInjective(Fields(a), Fields(b));
    PlanRoundTrip(a);
    PlanRoundTrip(b);
  }

  // ---------------------------------------------------------------- why paths are restricted, and the older format

  /** A path that starts with `step:` reads as a step: such plans collide with plans that have one. */
  lemma StepPathCollides(repo: string, policy: string, name: string, path: string)
    ensures Preimage([PlanRepo(repo, policy, [STEP + name, path], [])]) ==
            Preimage([PlanRepo(repo, policy, [], [PlanStep(name, path, [])])])
  {
    hide EncodePaths;
    var a, b := PlanRepo(repo, policy, [STEP + name, path], []), PlanRepo(repo, policy, [], [PlanStep(name, path, [])]);
    PathsTwo(STEP + name, path);
    PathsOne("");
    assert [PlanStep(name, path, [])][1..] == [];
    assert EncodeSteps(b.steps) == Terminated(STEP + name) + Terminated(path);
    assert EncodeRepo(a) == EncodeRepo(b);
    assert [a][1..] == [] && [b][1..] == [];
  }

  /** An empty path reads as the end of a repository: such plans collide with plans of two. */
  lemma EmptyPathCollides(repo: string, policy: string, other: string, otherPolicy: string)
    ensures Preimage([PlanRepo(repo, policy, ["", other, otherPolicy], [])]) ==
            Preimage([PlanRepo(repo, policy, [], []), PlanRepo(other, otherPolicy, [], [])])
  {
    hide EncodePaths;
    var a := PlanRepo(repo, policy, ["", other, otherPolicy], []);
    var b, c := PlanRepo(repo, policy, [], []), PlanRepo(other, otherPolicy, [], []);
    PathsTwo(other, otherPolicy);
    PathsOne("");
    PathsConcat([""], [other, otherPolicy]);
    assert [""] + [other, otherPolicy] == a.paths;
    assert EncodeRepo(a) == EncodeRepo(b) + EncodeRepo(c);
    assert [a][1..] == [] && [b, c][1..] == [c] && [c][1..] == [];
    assert EncodeRepos([a]) == EncodeRepo(a) && EncodeRepos([c]) == EncodeRepo(c);
    assert EncodeRepos([b, c]) == EncodeRepo(b) + EncodeRepos([c]);
  }

  /** A NUL inside a path reads as the end of one: such plans collide with plans of two paths. */
  lemma NulPathCollides(repo: string, policy: string, front: string, back: string)
    ensures Preimage([PlanRepo(repo, policy, [front + [NUL] + back], [])]) ==
            Preimage([PlanRepo(repo, policy, [front, back], [])])
  {
    hide EncodePaths;
    var a, b := PlanRepo(repo, policy, [front + [NUL] + back], []), PlanRepo(repo, policy, [front, back], []);
    PathsTwo(front, back);
    PathsOne(front + [NUL] + back);
    assert EncodeRepo(a) == EncodeRepo(b);
    assert [a][1..] == [] && [b][1..] == [];
  }

  /** Every string is NUL-free and every path, of a repository or of a step, is an allowed one. */
  ghost predicate Uses(repos: seq<PlanRepo>, allowed: string -> bool) {
    forall r | r in repos ::
      && NUL !in r.repo && NUL !in r.policy && (forall p | p in r.paths :: NUL !in p && allowed(p))
      && (forall s | s in r.steps :: NUL !in s.step && NUL !in s.policy && forall p | p in s.paths :: NUL !in p && allowed(p))
  }

  /** Over plans with allowed paths, the preimage determines the plan. */
  ghost predicate Determines(allowed: string -> bool) {
    forall a, b | Uses(a, allowed) && Uses(b, allowed) && Preimage(a) == Preimage(b) :: a == b
  }

  /**
   For NUL-free strings the encoding is injective exactly over the path
   alphabets without the empty path and without paths that start with `step:`.
   */
  lemma InjectiveIff(allowed: string -> bool)
    requires forall p | allowed(p) :: NUL !in p
    ensures Determines(allowed) <==> forall p | allowed(p) :: PathLike(p)
  {
    hide Preimage;
    if forall p | allowed(p) :: PathLike(p) {
      forall a, b | Uses(a, allowed) && Uses(b, allowed) && Preimage(a) == Preimage(b) ensures a == b {
        UsesIsValid(a, allowed);
        UsesIsValid(b, allowed);
        PreimageInjective(a, b);
      }
    } else {
      var p :| allowed(p) && !PathLike(p);
      var a, b := Twins(p);
      assert Uses(a, allowed) && Uses(b, allowed);
    }
  }

  lemma UsesIsValid(repos: seq<PlanRepo>, allowed: string -> bool)
    requires Uses(repos, allowed) && forall p | allowed(p) :: PathLike(p)
    ensures ValidPlan(repos)
  {
  }

  /** Two plans with the same preimage whose only path is `p`. */
  lemma Twins(p: string) returns (a: seq<PlanRepo>, b: seq<PlanRepo>)
    requires NUL !in p && !PathLike(p)
    ensures a != b && Preimage(a) == Preimage(b)
    ensures Uses(a, q => q == p) && Uses(b, q => q == p)
  {
    hide Preimage;
    if p == "" {
      EmptyPathCollides("", "", "", "");
      a, b := [PlanRepo("", "", ["", "", ""], [])], [PlanRepo("", "", [], []), PlanRepo("", "", [], [])];
    } else {
      var name := p[|STEP|..];
      assert p == STEP + name;
      StepPathCollides("", "", name, p);
      a, b := [PlanRepo("", "", [p, p], [])], [PlanRepo("", "", [], [PlanStep(name, p, [])])];
    }
    assert a[0].paths != b[0].paths;
  }

  /** The format before steps existed. */
  function EncodeWithoutSteps(repos: seq<PlanRepo>): string {
    if repos == [] then []
    else
      var r := repos[0];
      Terminated(r.repo) + Terminated(r.policy) + EncodePaths(r.paths) + [NUL] + EncodeWithoutSteps(repos[1..])
  }

  /** Plans without steps keep their digest. */
  lemma {:induction false} StepFreeUnchanged(repos: seq<PlanRepo>)
    requires forall r | r in repos :: r.steps == []
    ensures EncodeRepos(repos) == EncodeWithoutSteps(repos)
    decreases |repos|
  {
    hide EncodePaths;
    if repos != [] {
      assert repos[0] in repos;
      StepFreeUnchanged(repos[1..]);
    }
  }

  /** The frozen format: header, then for every repository its name, policy, paths, tagged steps and an empty field. */
  lemma FrozenFormat(repo: string, policy: string, path: string, step: string, stepPolicy: string, stepPath: string)
    ensures Preimage([]) == "oberth-secretstore-plan-v1" + [NUL]
    ensures Preimage([PlanRepo(repo, policy, [path], [PlanStep(step, stepPolicy, [stepPath])])]) ==
            "oberth-secretstore-plan-v1" + [NUL] + repo + [NUL] + policy + [NUL] + path + [NUL] +
            "step:" + step + [NUL] + stepPolicy + [NUL] + stepPath + [NUL] + [NUL]
  {
    hide EncodePaths;
    var s := PlanStep(step, stepPolicy, [stepPath]);
    var r := PlanRepo(repo, policy, [path], [s]);
    PathsOne(path);
    PathsOne(stepPath);
    assert [s][1..] == [] && [r][1..] == [];
    assert EncodeSteps([s]) == EncodeStep(s) && EncodeRepos([r]) == EncodeRepo(r);
    assert HEADER == "oberth-secretstore-plan-v1" + [NUL];
  }
}
