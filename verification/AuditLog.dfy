/** The audit log as the remote `audit_list` tool serves it: newest first, in pages. */
module AuditLog {
  /** `matching` says whether the fixed filter of this tail keeps the entry. */
  datatype Entry = Entry(id: int, view: string, matching: bool)

  type Log = seq<Entry>

  /** Ids are positive and grow with every append. */
  ghost predicate ValidLog(log: Log) {
    && (forall i | 0 <= i < |log| :: log[i].id >= 1)
    && (forall i, j | 0 <= i < j < |log| :: log[i].id < log[j].id)
  }

  function LastId(log: Log): int { if log == [] then 0 else log[|log| - 1].id }

  function One(e: Entry, lo: int, hi: int): seq<Entry> {
    if e.matching && lo < e.id <= hi then [e] else []
  }

  /** The matching entries with lo < id <= hi, newest first. */
  function Descending(log: Log, lo: int, hi: int): seq<Entry> {
    if log == [] then [] else One(log[|log| - 1], lo, hi) + Descending(log[..|log| - 1], lo, hi)
  }

  function Reverse<T>(s: seq<T>): (r: seq<T>)
    ensures |r| == |s| && forall i | 0 <= i < |s| :: r[i] == s[|s| - 1 - i]
  {
    if s == [] then [] else [s[|s| - 1]] + Reverse(s[..|s| - 1])
  }

  lemma ReverseConcat<T>(a: seq<T>, b: seq<T>)
    ensures Reverse(a + b) == Reverse(b) + Reverse(a)
  {
  }

  datatype Page = Page(entries: seq<Entry>, headID: int, nextBefore: int)

  /** One server call: the head is read from an earlier log than the entries. */
  function Serve(headLog: Log, entryLog: Log, before: int, limit: int): Page
    requires limit > 0
  {
    var all := Descending(entryLog, 0, if before == 0 then LastId(entryLog) else before - 1);
    var entries := if |all| > limit then all[..limit] else all;
    Page(entries, LastId(headLog), if |entries| == limit then entries[|entries| - 1].id else 0)
  }

  // ---------------------------------------------------------------- descending ranges

  ghost predicate Within(d: seq<Entry>, lo: int, hi: int) {
    forall e | e in d :: e.matching && lo < e.id <= hi
  }

  ghost predicate Decreasing(d: seq<Entry>) {
    forall i, j | 0 <= i < j < |d| :: d[i].id > d[j].id
  }

  lemma {:induction false} Members(log: Log, lo: int, hi: int)
    requires ValidLog(log)
    ensures Within(Descending(log, lo, hi), lo, hi) && Within(Descending(log, lo, hi), lo, LastId(log))
    ensures Decreasing(Descending(log, lo, hi))
    decreases |log|
  {
    if log != [] {
      var front, last := log[..|log| - 1], log[|log| - 1];
      Members(front, lo, hi);
      assert LastId(front) < last.id;
      ConsDecreasing(last, Descending(front, lo, hi), lo, LastId(front));
    }
  }

  lemma ConsDecreasing(e: Entry, d: seq<Entry>, lo: int, hi: int)
    requires Within(d, lo, hi) && Decreasing(d) && hi < e.id
    ensures Decreasing([e] + d)
  {
  }

  lemma Regroup<T>(a: seq<T>, b: seq<T>, c: seq<T>)
    ensures a + (b + c) == a + b + c
  {
  }

  lemma {:induction false} Split(log: Log, lo: int, mid: int, hi: int)
    requires ValidLog(log) && lo <= mid <= hi
    ensures Descending(log, lo, hi) == Descending(log, mid, hi) + Descending(log, lo, mid)
    decreases |log|
  {
    if log != [] {
      var front, last := log[..|log| - 1], log[|log| - 1];
      Split(front, lo, mid, hi);
      if last.id <= mid {
        Above(front, mid, hi);
        assert One(last, lo, hi) == One(last, lo, mid);
        assert Descending(log, mid, hi) == [];
        assert Descending(front, lo, hi) == Descending(front, lo, mid);
      } else {
        assert One(last, lo, hi) == One(last, mid, hi) && One(last, lo, mid) == [];
        assert Descending(log, lo, mid) == Descending(front, lo, mid);
        Regroup(One(last, mid, hi), Descending(front, mid, hi), Descending(front, lo, mid));
      }
    }
  }

  /** Nothing lies above the last id. */
  lemma {:induction false} Above(log: Log, lo: int, hi: int)
    requires ValidLog(log) && LastId(log) <= lo
    ensures Descending(log, lo, hi) == []
    decreases |log|
  {
    if log != [] {
      Above(log[..|log| - 1], lo, hi);
    }
  }

  lemma {:induction false} EmptyRange(log: Log, at: int)
    ensures Descending(log, at, at) == []
    decreases |log|
  {
    if log != [] {
      EmptyRange(log[..|log| - 1], at);
    }
  }

  /** Appends do not change what lies at or below an id that was already reached. */
  lemma {:induction false} Stable(log: Log, more: Log, lo: int, hi: int)
    requires ValidLog(more) && log <= more && hi <= LastId(log)
    ensures Descending(more, lo, hi) == Descending(log, lo, hi)
    decreases |more|
  {
    if more != log {
      var front := more[..|more| - 1];
      assert log <= front;
      if log == [] {
        assert hi < more[|more| - 1].id;
      }
      Stable(log, front, lo, hi);
    }
  }

  /** Cutting a descending range after an entry is cutting it at that entry's id. */
  lemma CutAt(log: Log, lo: int, hi: int, n: nat)
    requires ValidLog(log) && 0 < n <= |Descending(log, lo, hi)|
    ensures var d := Descending(log, lo, hi);
            lo < d[n - 1].id <= hi && d[..n] == Descending(log, d[n - 1].id - 1, hi)
  {
    var d := Descending(log, lo, hi);
    Members(log, lo, hi);
    var x := d[n - 1].id;
    Split(log, lo, x - 1, hi);
    Members(log, x - 1, hi);
    Members(log, lo, x - 1);
    assert d[n - 1] in d;
    CutBetween(Descending(log, x - 1, hi), Descending(log, lo, x - 1), n, x, hi);
  }

  lemma CutBetween(upper: seq<Entry>, lower: seq<Entry>, n: nat, x: int, hi: int)
    requires Within(upper, x - 1, hi)
    requires forall e | e in lower :: e.id < x
    requires Decreasing(upper + lower)
    requires 0 < n <= |upper + lower| && (upper + lower)[n - 1].id == x
    ensures (upper + lower)[..n] == upper
  {
    var d := upper + lower;
    assert forall i | 0 <= i < |upper| :: d[i] == upper[i] && upper[i] in upper;
    assert forall i | |upper| <= i < |d| :: d[i] == lower[i - |upper|] && lower[i - |upper|] in lower;
    assert n < |d| ==> d[n].id < x;
    assert n == |upper|;
  }

  /** The client's own filter: entries above the last id it has seen. */
  function Newer(entries: seq<Entry>, last: int): seq<Entry> {
    if entries == [] then []
    else (if entries[0].id > last then [entries[0]] else []) + Newer(entries[1..], last)
  }

  lemma {:induction false} NewerConcat(a: seq<Entry>, b: seq<Entry>, last: int)
    ensures Newer(a + b, last) == Newer(a, last) + Newer(b, last)
    decreases |a|
  {
    if a == [] {
      assert a + b == b;
    } else {
      NewerConcat(a[1..], b, last);
      assert (a + b)[1..] == a[1..] + b;
    }
  }

  lemma {:induction false} NewerRange(log: Log, lo: int, hi: int, last: int)
    requires ValidLog(log)
    ensures Newer(Descending(log, lo, hi), last) == Descending(log, if lo < last then last else lo, hi)
    decreases |log|
  {
    if log != [] {
      var front, e := log[..|log| - 1], log[|log| - 1];
      var low := if lo < last then last else lo;
      NewerRange(front, lo, hi, last);
      NewerConcat(One(e, lo, hi), Descending(front, lo, hi), last);
      assert Newer(One(e, lo, hi), last) == One(e, low, hi);
    }
  }

  lemma {:induction false} DescendingMembers(log: Log, lo: int, hi: int)
    ensures forall e :: e in Descending(log, lo, hi) <==> e in log && e.matching && lo < e.id <= hi
    decreases |log|
  {
    if log != [] {
      DescendingMembers(log[..|log| - 1], lo, hi);
      assert log == log[..|log| - 1] + [log[|log| - 1]];
    }
  }

  /** What one call returns: the newest matching entries below the cursor, all of them unless the page is full. */
  lemma PageIs(headLog: Log, entryLog: Log, before: int, limit: int)
    requires ValidLog(entryLog) && before >= 0 && limit > 0
    ensures var page := Serve(headLog, entryLog, before, limit);
            && page.headID == (if headLog == [] then 0 else headLog[|headLog| - 1].id)
            && |page.entries| <= limit && Decreasing(page.entries)
            && (forall e | e in page.entries :: e in entryLog && e.matching && (before == 0 || e.id < before))
            && (|page.entries| < limit ==> page.nextBefore == 0)
            && (|page.entries| == limit ==> page.nextBefore == page.entries[limit - 1].id)
            && (forall e | e in entryLog && e.matching && (before == 0 || e.id < before) && e !in page.entries ::
                  e.id < page.nextBefore)
  {
    hide Descending;
    var hi := if before == 0 then LastId(entryLog) else before - 1;
    var all := Descending(entryLog, 0, hi);
    var page := Serve(headLog, entryLog, before, limit);
    Members(entryLog, 0, hi);
    DescendingMembers(entryLog, 0, hi);
    forall e | e in entryLog && e.matching && (before == 0 || e.id < before) && e !in page.entries
      ensures e.id < page.nextBefore
    {
      var i :| 0 <= i < |entryLog| && entryLog[i] == e;
      assert e in all;
      var k :| 0 <= k < |all| && all[k] == e;
      assert |all| > limit && page.entries == all[..limit];
      assert forall m | 0 <= m < limit :: all[m] == page.entries[m] && page.entries[m] in page.entries;
      assert k >= limit;
      assert page.nextBefore == all[limit - 1].id;
    }
  }
}
