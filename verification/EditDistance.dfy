/** Command suggestions: the two-row edit-distance table and the nearest command. */
module EditDistance {

  function Min(a: int, b: int): int { if a < b then a else b }

  function Cost(x: char, y: char): nat { if x == y then 0 else 1 }

  function Init(s: string): string
    requires s != []
  {
    s[..|s| - 1]
  }

  function Last(s: string): char
    requires s != []
  {
    s[|s| - 1]
  }

  /** The recurrence that the table tabulates. */
  function Distance(a: string, b: string): nat
    decreases |a| + |b|
  {
    if a == [] then |b|
    else if b == [] then |a|
    else Min(Distance(a, Init(b)) + 1, Min(Distance(Init(a), b) + 1, Distance(Init(a), Init(b)) + Cost(Last(a), Last(b))))
  }

  // ---------------------------------------------------------------- the table

  /** `commandDistance`: two rows, the second filled from the first and from itself. */
  method CommandDistance(a: string, b: string) returns (distance: int)
    ensures distance == Distance(a, b)
  {
    hide Distance;
    var previous := new int[|b| + 1](j => j);
    forall j | 0 <= j <= |b| ensures previous[j] == Distance(a[..0], b[..j]) { Edges(a, b, 0, j); }
    for i := 1 to |a| + 1
      invariant previous.Length == |b| + 1
      invariant forall j | 0 <= j <= |b| :: previous[j] == Distance(a[..i - 1], b[..j])
    {
      previous := NextRow(a, b, i, previous);
    }
    assert a[..|a|] == a && b[..|b|] == b;
    distance := previous[|b|];
  }

  /** The inner loop. */
  method NextRow(a: string, b: string, i: nat, previous: array<int>) returns (next: array<int>)
    requires 0 < i <= |a| && previous.Length == |b| + 1
    requires forall j | 0 <= j <= |b| :: previous[j] == Distance(a[..i - 1], b[..j])
    ensures fresh(next) && next.Length == |b| + 1
    ensures forall j | 0 <= j <= |b| :: next[j] == Distance(a[..i], b[..j])
  {
    hide Distance;
    next := new int[|b| + 1];
    next[0] := i;
    Edges(a, b, i, 0);
    for j := 1 to |b| + 1
      invariant forall k | 0 <= k < j :: next[k] == Distance(a[..i], b[..k])
    {
      Cell(a, b, i, j);
      var cost := if a[i - 1] != b[j - 1] then 1 else 0;
      next[j] := Min(next[j - 1] + 1, Min(previous[j] + 1, previous[j - 1] + cost));
    }
  }

  lemma {:induction false} Edges(a: string, b: string, i: nat, j: nat)
    requires i <= |a| && j <= |b|
    ensures i == 0 ==> Distance(a[..i], b[..j]) == j
    ensures j == 0 ==> Distance(a[..i], b[..j]) == i
  {
  }

  /** One cell in terms of its three neighbours. */
  lemma {:induction false} Cell(a: string, b: string, i: nat, j: nat)
    requires 0 < i <= |a| && 0 < j <= |b|
    ensures Distance(a[..i], b[..j]) ==
            Min(Distance(a[..i], b[..j - 1]) + 1,
                Min(Distance(a[..i - 1], b[..j]) + 1, Distance(a[..i - 1], b[..j - 1]) + Cost(a[i - 1], b[j - 1])))
  {
    hide Distance;
    Unfold(a[..i], b[..j]);
    assert Init(a[..i]) == a[..i - 1] && Init(b[..j]) == b[..j - 1];
  }

  lemma {:induction false} Unfold(a: string, b: string)
    requires a != [] && b != []
    ensures Distance(a, b) ==
            Min(Distance(a, Init(b)) + 1, Min(Distance(Init(a), b) + 1, Distance(Init(a), Init(b)) + Cost(Last(a), Last(b))))
  {
  }

  // ---------------------------------------------------------------- a metric

  lemma {:induction false} ZeroIffEqual(a: string, b: string)
    ensures Distance(a, b) == 0 <==> a == b
    decreases |a| + |b|
  {
    if a != [] && b != [] {
      ZeroIffEqual(Init(a), Init(b));
      assert a == Init(a) + [Last(a)] && b == Init(b) + [Last(b)];
    }
  }

  lemma {:induction false} Symmetric(a: string, b: string)
    ensures Distance(a, b) == Distance(b, a)
    decreases |a| + |b|
  {
    if a != [] && b != [] {
      Symmetric(a, Init(b));
      Symmetric(Init(a), b);
      Symmetric(Init(a), Init(b));
    }
  }

  /** Lengths bound the distance from below. */
  lemma {:induction false} LengthBound(a: string, b: string)
    ensures |a| - |b| <= Distance(a, b) && |b| - |a| <= Distance(a, b)
    decreases |a| + |b|
  {
    if a != [] && b != [] {
      LengthBound(a, Init(b));
      LengthBound(Init(a), b);
      LengthBound(Init(a), Init(b));
    }
  }

  lemma {:induction false} Triangle(a: string, b: string, c: string)
    ensures Distance(a, c) <= Distance(a, b) + Distance(b, c)
    decreases |a| + |b| + |c|
  {
    if a == [] || c == [] || b == [] {
      LengthBound(a, b);
      LengthBound(b, c);
      if b == [] && a != [] && c != [] { LengthSum(a, c); }
    } else {
      Triangle(Init(a), b, c);
      Triangle(a, b, Init(c));
      Triangle(a, Init(b), c);
      Triangle(Init(a), Init(b), c);
      Triangle(a, Init(b), Init(c));
      Triangle(Init(a), Init(b), Init(c));
    }
  }

  lemma {:induction false} LengthSum(a: string, c: string)
    ensures Distance(a, c) <= |a| + |c|
    decreases |a| + |c|
  {
    if a != [] && c != [] { LengthSum(Init(a), c); }
  }

  // ---------------------------------------------------------------- edits

  datatype Edit = Insert(at: nat, ch: char) | Delete(at: nat) | Substitute(at: nat, ch: char)

  predicate Applies(s: string, e: Edit) { if e.Insert? then e.at <= |s| else e.at < |s| }

  /** A single-character edit. */
  function Apply(s: string, e: Edit): string
    requires Applies(s, e)
  {
    match e
    case Insert(at, ch) => s[..at] + [ch] + s[at..]
    case Delete(at) => s[..at] + s[at + 1..]
    case Substitute(at, ch) => s[..at] + [ch] + s[at + 1..]
  }

  /** A sequence of edits that leads from `a` to `b`. */
  ghost predicate Leads(a: string, edits: seq<Edit>, b: string)
    decreases |edits|
  {
    if edits == [] then a == b else Applies(a, edits[0]) && Leads(Apply(a, edits[0]), edits[1..], b)
  }

  /** A shared last character costs nothing. */
  lemma {:induction false} CommonSuffix(u: string, v: string, w: string)
    ensures Distance(u + w, v + w) <= Distance(u, v)
    decreases |w|
  {
    if w == [] {
      assert u + w == u && v + w == v;
    } else {
      CommonSuffix(u, v, Init(w));
      assert Init(u + w) == u + Init(w) && Init(v + w) == v + Init(w);
    }
  }

  lemma OneEdit(s: string, e: Edit)
    requires Applies(s, e)
    ensures Distance(s, Apply(s, e)) <= 1
  {
    hide Distance;
    var front := s[..e.at];
    match e
    case Insert(at, ch) =>
      AppendOne(front, ch);
      CommonSuffix(front, front + [ch], s[at..]);
      assert s == front + s[at..];
    case Delete(at) =>
      AppendOne(front, s[at]);
      Symmetric(front, front + [s[at]]);
      CommonSuffix(front + [s[at]], front, s[at + 1..]);
      assert s == front + [s[at]] + s[at + 1..];
    case Substitute(at, ch) =>
      ReplaceOne(front, s[at], ch);
      CommonSuffix(front + [s[at]], front + [ch], s[at + 1..]);
      assert s == front + [s[at]] + s[at + 1..];
  }

  lemma ReplaceOne(s: string, x: char, y: char)
    ensures Distance(s + [x], s + [y]) <= 1
  {
    ZeroIffEqual(s, s);
    assert Init(s + [x]) == s && Init(s + [y]) == s;
  }

  lemma AppendOne(s: string, ch: char)
    ensures Distance(s, s + [ch]) <= 1
  {
    ZeroIffEqual(s, s);
    assert Init(s + [ch]) == s;
  }

  /** No sequence of edits is shorter than the distance. */
  lemma {:induction false} NoShorter(a: string, edits: seq<Edit>, b: string)
    requires Leads(a, edits, b)
    ensures Distance(a, b) <= |edits|
    decreases |edits|
  {
    if edits == [] {
      ZeroIffEqual(a, b);
    } else {
      var c := Apply(a, edits[0]);
      OneEdit(a, edits[0]);
      NoShorter(c, edits[1..], b);
      Triangle(a, c, b);
    }
  }

  lemma {:induction false} LeadsConcat(a: string, first: seq<Edit>, b: string, then': seq<Edit>, c: string)
    requires Leads(a, first, b) && Leads(b, then', c)
    ensures Leads(a, first + then', c)
    decreases |first|
  {
    hide Apply, Applies;
    if first == [] {
      assert first + then' == then';
    } else {
      LeadsConcat(Apply(a, first[0]), first[1..], b, then', c);
      assert (first + then')[1..] == first[1..] + then' && (first + then')[0] == first[0];
    }
  }

  lemma ApplyBefore(a: string, e: Edit, suffix: string)
    requires Applies(a, e)
    ensures Applies(a + suffix, e) && Apply(a + suffix, e) == Apply(a, e) + suffix
  {
  }

  /** Edits inside a prefix work the same with more text behind it. */
  lemma {:induction false} LeadsBefore(a: string, edits: seq<Edit>, b: string, suffix: string)
    requires Leads(a, edits, b)
    ensures Leads(a + suffix, edits, b + suffix)
    decreases |edits|
  {
    hide Apply, Applies;
    if edits != [] {
      LeadsBefore(Apply(a, edits[0]), edits[1..], b, suffix);
      ApplyBefore(a, edits[0], suffix);
    }
  }

  lemma LeadsThen(a: string, edits: seq<Edit>, b: string, e: Edit, c: string)
    requires Leads(a, edits, b) && Applies(b, e) && Apply(b, e) == c
    ensures Leads(a, edits + [e], c)
  {
    hide Apply, Applies;
    assert [e][1..] == [] && Leads(b, [e], c);
    LeadsConcat(a, edits, b, [e], c);
  }

  /** Some sequence of edits is as short as the distance. */
  lemma {:induction false} Achieved(a: string, b: string) returns (edits: seq<Edit>)
    ensures Leads(a, edits, b) && |edits| == Distance(a, b)
    decreases |a| + |b|
  {
    hide Leads, Apply, Applies;
    if a == [] && b == [] {
      edits := [];
      NoEdits(a);
    } else if a == [] || (b != [] && Distance(a, b) == Distance(a, Init(b)) + 1) {
      edits := Achieved(a, Init(b));
      InsertLast(a, edits, b);
      edits := edits + [Insert(|b| - 1, Last(b))];
    } else if b == [] || Distance(a, b) == Distance(Init(a), b) + 1 {
      edits := Achieved(Init(a), b);
      DeleteLast(a, edits, b);
      edits := [Delete(|a| - 1)] + edits;
    } else {
      edits := Achieved(Init(a), Init(b));
      LeadsBefore(Init(a), edits, Init(b), [Last(a)]);
      assert a == Init(a) + [Last(a)] && b == Init(b) + [Last(b)];
      if Last(a) != Last(b) {
        SubstituteLast(a, edits, b, Last(a));
        edits := edits + [Substitute(|b| - 1, Last(b))];
      }
    }
  }

  lemma NoEdits(a: string)
    ensures Leads(a, [], a)
  {
  }

  lemma InsertLast(a: string, edits: seq<Edit>, b: string)
    requires b != [] && Leads(a, edits, Init(b))
    ensures Leads(a, edits + [Insert(|b| - 1, Last(b))], b)
  {
    hide Leads;
    var e := Insert(|b| - 1, Last(b));
    assert Apply(Init(b), e) == b;
    LeadsThen(a, edits, Init(b), e, b);
  }

  lemma DeleteLast(a: string, edits: seq<Edit>, b: string)
    requires a != [] && Leads(Init(a), edits, b)
    ensures Leads(a, [Delete(|a| - 1)] + edits, b)
  {
    var e := Delete(|a| - 1);
    assert Apply(a, e) == Init(a);
    assert ([e] + edits)[1..] == edits;
  }

  lemma SubstituteLast(a: string, edits: seq<Edit>, b: string, x: char)
    requires b != [] && Leads(a, edits, Init(b) + [x])
    ensures Leads(a, edits + [Substitute(|b| - 1, Last(b))], b)
  {
    hide Leads;
    var mid, e := Init(b) + [x], Substitute(|b| - 1, Last(b));
    assert Apply(mid, e) == b;
    LeadsThen(a, edits, mid, e, b);
  }

  /** The distance is the least number of single-character insertions, deletions and substitutions. */
  lemma DistanceIsLeast(a: string, b: string)
    ensures exists edits :: Leads(a, edits, b) && |edits| == Distance(a, b)
    ensures forall edits | Leads(a, edits, b) :: Distance(a, b) <= |edits|
  {
    var best := Achieved(a, b);
    forall edits | Leads(a, edits, b) ensures Distance(a, b) <= |edits| {
      NoShorter(a, edits, b);
    }
  }

  // ---------------------------------------------------------------- the nearest command

  const COMMANDS: seq<string> := [
    "access", "admin", "admission", "artifacts", "audit", "backup", "branch", "fragments", "git-ssh", "init", "install",
    "issues", "log", "mcp", "outbox", "preflight", "promotion", "publication", "repo", "repos", "resource", "restore",
    "run", "runs", "schedules", "secretstore", "serve", "setup", "size", "status", "uplink", "upgrade", "upstream",
    "validate", "version", "wait-idle"]

  /** The k-th command is the first of those closest to the input, and close enough to suggest. */
  ghost predicate Nearest(input: string, commands: seq<string>, k: nat) {
    && k < |commands| && Distance(input, commands[k]) < 3
    && (forall i | 0 <= i < |commands| :: Distance(input, commands[k]) <= Distance(input, commands[i]))
    && (forall i | 0 <= i < k :: Distance(input, commands[k]) < Distance(input, commands[i]))
  }

  /** `nearestCommand` over any command list; a short input gets no suggestion. */
  method NearestAmong(input: string, commands: seq<string>) returns (best: string)
    ensures |input| < 3 ==> best == ""
    ensures |input| >= 3 ==>
              || (exists k: nat :: Nearest(input, commands, k) && best == commands[k])
              || (best == "" && forall i | 0 <= i < |commands| :: Distance(input, commands[i]) >= 3)
  {
    var distance := 3;
    best := "";
    ghost var k: nat := 0;
    for i := 0 to |commands|
      invariant distance <= 3 && forall j | 0 <= j < i :: distance <= Distance(input, commands[j])
      invariant distance == 3 ==> best == ""
      invariant distance < 3 ==> k < i && best == commands[k] && distance == Distance(input, commands[k])
      invariant distance < 3 ==> forall j | 0 <= j < k :: distance < Distance(input, commands[j])
    {
      var candidate := CommandDistance(input, commands[i]);
      if candidate < distance {
        best, distance, k := commands[i], candidate, i;
      }
    }
    if |input| < 3 { return ""; }
    assert distance < 3 ==> Nearest(input, commands, k);
  }

  method NearestCommand(input: string) returns (best: string)
    ensures |input| < 3 ==> best == ""
    ensures |input| >= 3 ==>
              || (exists k: nat :: Nearest(input, COMMANDS, k) && best == COMMANDS[k])
              || (best == "" && forall i | 0 <= i < |COMMANDS| :: Distance(input, COMMANDS[i]) >= 3)
  {
    best := NearestAmong(input, COMMANDS);
  }
}
