/** `oberth audit --tail`: page through a log that grows while it is read. */
module AuditTail {
  import opened Wrappers
  import opened AuditLog

  /** The answer to the k-th call with a cursor and a limit; `None` is a failed call. */
  type Server = (nat, int, int) -> Option<Page>

  /** What the log holds at each read; call k reads the head at 2k and the entries at 2k + 1. */
  type History = nat -> Log

  const POLL_LIMIT := 200

  /** Append-only history; a call fails or answers truthfully.  Appends may happen between any two reads. */
  ghost predicate Honest(server: Server, logs: History) {
    && (forall i: nat :: ValidLog(logs(i)))
    && (forall i: nat, j: nat | i <= j :: logs(i) <= logs(j))
    && (forall k: nat, before: int, limit: int | before >= 0 && limit > 0 ::
          server(k, before, limit) in {None, Some(Serve(logs(2 * k), logs(2 * k + 1), before, limit))})
  }

  /** Call `k` of a scan failed. */
  ghost predicate FailsAt(server: Server, k: nat) { exists before: int :: server(k, before, POLL_LIMIT).None? }

  // ---------------------------------------------------------------- one page

  /** What one page contributes to a scan that has reached `top` of the log `start`. */
  lemma PageContributes(start: Log, head: Log, now: Log, before: int, top: int, last: int)
    requires ValidLog(now) && start <= now && 0 <= last <= top <= LastId(start)
    requires (before == 0 && now == start && top == LastId(start)) || before == top + 1
    ensures var page := Serve(head, now, before, POLL_LIMIT);
            && (page.nextBefore <= last ==> Newer(page.entries, last) == Descending(start, last, top))
            && (page.nextBefore > last ==>
                  page.nextBefore <= top && Newer(page.entries, last) == Descending(start, page.nextBefore - 1, top))
  {
    hide Descending, Newer;
    var page := Serve(head, now, before, POLL_LIMIT);
    Stable(start, now, 0, top);
    assert ValidLog(start);
    var all := Descending(start, 0, top);
    if |all| >= POLL_LIMIT {
      CutAt(start, 0, top, POLL_LIMIT);
      assert page.entries == all[..POLL_LIMIT];
      NewerRange(start, page.nextBefore - 1, top, last);
    } else {
      NewerRange(start, 0, top, last);
    }
  }

  /** Everything that matched when the first page was read lies at or below its high water. */
  lemma HighWaterCovers(head: Log, start: Log, high: int)
    requires ValidLog(start) && 0 <= high <= LastId(start)
    requires forall e | e in Serve(head, start, 0, POLL_LIMIT).entries :: e.id <= high
    ensures Descending(start, high, LastId(start)) == []
  {
    var all, page := Descending(start, 0, LastId(start)), Serve(head, start, 0, POLL_LIMIT);
    Split(start, 0, high, LastId(start));
    Members(start, high, LastId(start));
    var above := Descending(start, high, LastId(start));
    assert all != [] ==> page.entries != [] && all[0] == page.entries[0];
  }

  // ---------------------------------------------------------------- the loop, turn by turn

  /** A page in hand with its cursor and what was found above it; or the end. */
  datatype Loop = Reading(page: Page, before: int, found: seq<Entry>) | Stopped(entries: seq<Entry>) | Failed

  /** One turn, with call `k` if it needs one. */
  function Turn(server: Server, last: int, k: nat, loop: Loop): Loop {
    match loop
    case Reading(page, before, found) =>
      var more := found + Newer(page.entries, last);
      if page.nextBefore <= last then Stopped(more)
      else if before != 0 && page.nextBefore >= before then Failed
      else (match server(k, page.nextBefore, POLL_LIMIT)
            case None => Failed
            case Some(page') => Reading(page', page.nextBefore, more))
    case done => done
  }

  /** Where the polling loop stands after its first call and `n` turns, if nothing stops it. */
  function LoopAt(server: Server, first: nat, last: int, n: nat): Loop {
    if n == 0 then
      match server(first, 0, POLL_LIMIT)
      case None => Failed
      case Some(page) => Reading(page, 0, [])
    else Turn(server, last, first + n, LoopAt(server, first, last, n - 1))
  }

  ghost predicate Ends(server: Server, first: nat, last: int) {
    exists n: nat :: !LoopAt(server, first, last, n).Reading?
  }

  /** After `budget` calls behind the first the loop still needs another. */
  predicate Unfinished(server: Server, first: nat, last: int, budget: nat) {
    var loop := LoopAt(server, first, last, budget);
    loop.Reading? && loop.page.nextBefore > last && (loop.before == 0 || loop.page.nextBefore < loop.before)
  }

  // ---------------------------------------------------------------- polling

  /** `auditHighWater`: the head or the newest entry, whichever is later. */
  method AuditHighWater(page: Page) returns (high: int)
    ensures high >= page.headID && forall e | e in page.entries :: e.id <= high
    ensures high == page.headID || exists e :: e in page.entries && e.id == high
  {
    high := page.headID;
    for i := 0 to |page.entries|
      invariant high >= page.headID && forall j | 0 <= j < i :: page.entries[j].id <= high
      invariant high == page.headID || exists e :: e in page.entries && e.id == high
    {
      if page.entries[i].id > high { high := page.entries[i].id; }
    }
  }

  /** A poll that began with call `first` ended before call `next`: its last call failed, or it needed one too many. */
  ghost predicate PollFails(server: Server, first: nat, last: int, budget: nat, next: nat)
    requires first < next
  {
    || (FailsAt(server, next - 1) && LoopAt(server, first, last, next - first) == Failed)
    || Unfinished(server, first, last, budget)
  }

  /** The later of the last seen id and the page's high water. */
  ghost predicate IsHighWater(high: int, last: int, page: Page) {
    && high >= last && high >= page.headID && (forall e | e in page.entries :: e.id <= high)
    && (high == last || high == page.headID || exists e :: e in page.entries && e.id == high)
  }

  method Collect(entries: seq<Entry>, last: int, unseen: seq<Entry>) returns (more: seq<Entry>)
    ensures more == unseen + Newer(entries, last)
  {
    more := unseen;
    for i := 0 to |entries|
      invariant more + Newer(entries[i..], last) == unseen + Newer(entries, last)
    {
      if entries[i].id > last { more := more + [entries[i]]; }
    }
    assert entries[|entries|..] == [];
  }

  /**
   `pollAudit` from call `first` on; `budget` is the number of calls after the
   first that its context leaves time for.  Against any server and from any id
   it is the loop above: it returns what the loop found, fails where the loop
   fails or where it needs one call too many, and from a non-negative id makes
   boundedly many calls whatever the budget.  The new high water is the first
   page's, never lower than the old one; on failure nothing is reported.
   Against an honest server it fails only when its last call did or the budget
   is used up, and otherwise returns, newest first, exactly the matching entries
   above `last` up to the new high water, which covers everything in the log when
   the poll began, whatever is appended later.
   */
  method PollAudit(server: Server, first: nat, last: int, budget: nat, ghost logs: History)
    returns (unseen: seq<Entry>, highWater: int, ok: bool, next: nat)
    ensures first < next && (last >= 0 && next > first + 1 ==>
              var page := server(first, 0, POLL_LIMIT); page.Some? && next - first <= 1 + page.value.nextBefore - last)
    ensures ok ==> LoopAt(server, first, last, next - first) == Stopped(unseen)
    ensures ok ==> server(first, 0, POLL_LIMIT).Some? && IsHighWater(highWater, last, server(first, 0, POLL_LIMIT).value)
    ensures !ok ==> LoopAt(server, first, last, next - first) == Failed || Unfinished(server, first, last, budget)
    ensures !ok ==> unseen == [] && highWater == last
    ensures Honest(server, logs) && 0 <= last <= LastId(logs(2 * first)) && ok ==>
              && LastId(logs(2 * first)) <= highWater <= LastId(logs(2 * first + 1))
              && forall m: nat | m > 2 * first :: unseen == Descending(logs(m), last, highWater)
    ensures Honest(server, logs) && 0 <= last <= LastId(logs(2 * first)) && !ok ==>
              FailsAt(server, next - 1) || Unfinished(server, first, last, budget)
  {
    hide Turn, Unfinished;
    unseen, highWater, ok, next := [], last, false, first + 1;
    var answer := server(first, 0, POLL_LIMIT);
    if answer.None? {
      FailedStays(server, first, last, 0);
      return;
    }
    var high := AuditHighWater(answer.value);
    high := if high < last then last else high;
    ghost var honest := Honest(server, logs) && 0 <= last <= LastId(logs(2 * first));
    if honest { FirstPage(server, logs, first, last, answer.value, high); }
    unseen, ok, next := ScanPages(server, first, last, budget, answer.value, logs);
    if honest { ScanComplete(server, logs, first, last, high); }
    if ok { highWater := high; } else { unseen := []; }
  }

  lemma {:induction false} FailedStays(server: Server, first: nat, last: int, n: nat)
    requires LoopAt(server, first, last, n) == Failed
    ensures LoopAt(server, first, last, n + 1) == Failed
  {
  }

  /** One turn of the loop at any position. */
  lemma {:induction false} LoopNext(server: Server, first: nat, last: int, n: nat)
    ensures LoopAt(server, first, last, n + 1) == Turn(server, last, first + n + 1, LoopAt(server, first, last, n))
  {
  }

  /** The loop of `pollAudit`: from a non-negative id the cursor falls strictly and stays above it. */
  method ScanPages(server: Server, first: nat, last: int, budget: nat, newest: Page, ghost logs: History)
    returns (found: seq<Entry>, ok: bool, next: nat)
    requires server(first, 0, POLL_LIMIT) == Some(newest)
    ensures first < next && (last >= 0 && next > first + 1 ==> next - first <= 1 + newest.nextBefore - last)
    ensures if ok then LoopAt(server, first, last, next - first) == Stopped(found)
            else LoopAt(server, first, last, next - first) == Failed || Unfinished(server, first, last, budget)
    ensures Honest(server, logs) && Scanning(logs, first, last, [], 0, newest, first + 1) ==>
              if ok then found == Descending(logs(2 * first + 1), last, LastId(logs(2 * first + 1)))
              else FailsAt(server, next - 1) || Unfinished(server, first, last, budget)
  {
    hide Scanning, Honest, Newer, LoopAt;
    found, ok, next := [], false, first + 1;
    var page, before := newest, 0;
    LoopBegins(server, first, last);
    ghost var honest := Honest(server, logs) && Scanning(logs, first, last, found, before, page, next);
    while true
      invariant first < next <= first + budget + 1
      invariant last >= 0 && before == 0 ==> next == first + 1 && page == newest
      invariant last >= 0 && before != 0 ==> last < before <= newest.nextBefore && next - first <= 2 + newest.nextBefore - before
      invariant LoopAt(server, first, last, next - first - 1) == Reading(page, before, found)
      invariant honest ==> Scanning(logs, first, last, found, before, page, next)
      decreases first + budget + 1 - next
    {
      LoopNext(server, first, last, next - first - 1);
      if honest { ScanStep(server, logs, first, last, found, before, page, next); }
      found := Collect(page.entries, last, found);
      if page.nextBefore <= last { break; }
      if before != 0 && page.nextBefore >= before { return; }
      if next > first + budget { return; }
      before := page.nextBefore;
      var more := server(next, before, POLL_LIMIT);
      next := next + 1;
      if more.None? {
        LoopNext(server, first, last, next - first - 1);
        return;
      }
      page := more.value;
    }
    ok := true;
  }

  lemma LoopBegins(server: Server, first: nat, last: int)
    ensures LoopAt(server, first, last, 0) ==
            match server(first, 0, POLL_LIMIT) case None => Failed case Some(page) => Reading(page, 0, [])
  {
  }

  /** A scan that holds everything above its cursor and has the page below it in hand. */
  ghost predicate Scanning(logs: History, first: nat, last: int, found: seq<Entry>, before: int, page: Page, next: nat) {
    var start := logs(2 * first + 1);
    var top := if before == 0 then LastId(start) else before - 1;
    && next > first && before >= 0 && (before == 0 ==> next == first + 1)
    && 0 <= last <= top <= LastId(start) && found == Descending(start, top, LastId(start))
    && page == Serve(logs(2 * (next - 1)), logs(2 * (next - 1) + 1), before, POLL_LIMIT)
  }

  lemma ScanStep(server: Server, logs: History, first: nat, last: int, found: seq<Entry>, before: int, page: Page, next: nat)
    requires Honest(server, logs) && Scanning(logs, first, last, found, before, page, next)
    ensures var start := logs(2 * first + 1);
            var more := found + Newer(page.entries, last);
            if page.nextBefore <= last then more == Descending(start, last, LastId(start))
            else && (before == 0 || page.nextBefore < before)
                 && var answer := server(next, page.nextBefore, POLL_LIMIT);
                    answer.None? || Scanning(logs, first, last, more, page.nextBefore, answer.value, next + 1)
  {
    hide Serve, Newer, Descending;
    var start := logs(2 * first + 1);
    var top := if before == 0 then LastId(start) else before - 1;
    PageContributes(start, logs(2 * (next - 1)), logs(2 * (next - 1) + 1), before, top, last);
    if page.nextBefore <= last {
      Split(start, last, top, LastId(start));
    } else {
      Split(start, page.nextBefore - 1, top, LastId(start));
    }
  }

  lemma FirstPage(server: Server, logs: History, first: nat, last: int, page: Page, high: int)
    requires Honest(server, logs) && 0 <= last <= LastId(logs(2 * first))
    requires server(first, 0, POLL_LIMIT) == Some(page)
    requires high >= last && high >= page.headID && (forall e | e in page.entries :: e.id <= high)
    requires high == last || high == page.headID || exists e :: e in page.entries && e.id == high
    ensures last <= high <= LastId(logs(2 * first + 1)) && LastId(logs(2 * first)) <= high
    ensures Scanning(logs, first, last, [], 0, page, first + 1)
    ensures Descending(logs(2 * first + 1), high, LastId(logs(2 * first + 1))) == []
  {
    var start := logs(2 * first + 1);
    LastGrows(logs(2 * first), start);
    Members(start, 0, LastId(start));
    Above(start, LastId(start), LastId(start));
    HighWaterCovers(logs(2 * first), start, high);
  }

  lemma LastGrows(log: Log, more: Log)
    requires ValidLog(more) && log <= more
    ensures LastId(log) <= LastId(more)
  {
  }

  lemma ScanComplete(server: Server, logs: History, first: nat, last: int, high: int)
    requires Honest(server, logs)
    requires last <= high <= LastId(logs(2 * first + 1))
    requires Descending(logs(2 * first + 1), high, LastId(logs(2 * first + 1))) == []
    ensures forall m: nat | m > 2 * first ::
              Descending(logs(2 * first + 1), last, LastId(logs(2 * first + 1))) == Descending(logs(m), last, high)
  {
    var start := logs(2 * first + 1);
    Split(start, last, high, LastId(start));
    forall m: nat | m > 2 * first
      ensures Descending(start, last, LastId(start)) == Descending(logs(m), last, high)
    {
      Stable(start, logs(m), last, high);
    }
  }

  // ---------------------------------------------------------------- tailing

  /**
   `tailAudit` for any number of polls: the newest page, oldest first, then
   every poll's entries, oldest first.  Against an honest server, what is
   printed after the first page is exactly the matching entries above `from` up
   to `last`, once each and in ascending order, however the log grew meanwhile
   and wherever the tail was cut short.  `from` is the first page's high water:
   at least the head and at most the end of the log that the page was read from.
   `last` covers everything in the log when the last of the `done` polls began;
   the tail ends early only by a failed call or a poll out of time.
   */
  method TailAudit(server: Server, limit: int, polls: nat, budget: nat, ghost logs: History)
    returns (backlog: seq<Entry>, followed: seq<Entry>, from: int, last: int, next: nat, done: nat, ok: bool)
    requires limit > 0 && Honest(server, logs)
    ensures backlog == if server(0, 0, limit).None? then [] else Reverse(Serve(logs(0), logs(1), 0, limit).entries)
    ensures server(0, 0, limit).Some? ==>
              LastId(logs(0)) <= from <= LastId(logs(1)) && IsHighWater(from, LastId(logs(0)), server(0, 0, limit).value)
    ensures 0 <= from <= last <= LastId(logs(2 * next)) && (forall e | e in backlog :: e.id <= from)
    ensures server(0, 0, limit).Some? ==> LastId(logs(2 * done)) <= last
    ensures followed == Reverse(Descending(logs(2 * next), from, last))
    ensures done <= polls && done < next
    ensures if ok then done == polls && server(0, 0, limit).Some?
            else server(0, 0, limit).None? || exists first: nat | done < first < next ::
                   PollFails(server, first, last, budget, next)
  {
    hide Honest, Serve, Descending, Reverse, LastId, FailsAt, Unfinished, LoopAt, IsHighWater;
    TruthfulAnswer(server, logs, 0, limit);
    backlog, followed, from, last, next, done, ok := [], [], 0, 0, 1, 0, false;
    EmptyRange(logs(2), 0);
    var answer := server(0, 0, limit);
    if answer.None? { return; }
    var page := answer.value;
    from := AuditHighWater(page);
    ok := true;
    FirstHighWater(server, logs, limit, page, from);
    backlog, followed, last := Reverse(page.entries), [], from;
    EmptyRange(logs(2), from);
    while done < polls
      invariant done <= polls && done < next && ok
      invariant 0 <= from <= last <= LastId(logs(2 * next)) && LastId(logs(2 * done)) <= last
      invariant followed == Reverse(Descending(logs(2 * next), from, last))
    {
      var unseen, high, completed, after := PollAudit(server, next, last, budget, logs);
      if !completed {
        PrintedStays(server, logs, from, last, next, after);
        assert PollFails(server, next, last, budget, after);
        next, ok := after, false;
        return;
      }
      PollExtends(server, logs, from, last, high, next, after);
      LastIdGrows(server, logs, 2 * (done + 1), 2 * next);
      followed := followed + Reverse(unseen);
      last, next, done := high, after, done + 1;
    }
  }

  lemma LastIdGrows(server: Server, logs: History, i: nat, j: nat)
    requires Honest(server, logs) && i <= j
    ensures LastId(logs(i)) <= LastId(logs(j))
  {
    LastGrows(logs(i), logs(j));
  }

  lemma TruthfulAnswer(server: Server, logs: History, k: nat, limit: int)
    requires Honest(server, logs) && limit > 0
    ensures server(k, 0, limit) in {None, Some(Serve(logs(2 * k), logs(2 * k + 1), 0, limit))}
    ensures LastId(logs(2)) >= 0
  {
  }

  lemma FirstHighWater(server: Server, logs: History, limit: int, page: Page, high: int)
    requires Honest(server, logs) && limit > 0 && page == Serve(logs(0), logs(1), 0, limit)
    requires high >= page.headID && (forall e | e in page.entries :: e.id <= high)
    requires high == page.headID || exists e :: e in page.entries && e.id == high
    ensures 0 <= LastId(logs(0)) <= high <= LastId(logs(1)) <= LastId(logs(2))
    ensures IsHighWater(high, LastId(logs(0)), page)
  {
    LastGrows(logs(0), logs(1));
    LastGrows(logs(1), logs(2));
    Members(logs(1), 0, LastId(logs(1)));
    var all := Descending(logs(1), 0, LastId(logs(1)));
    assert forall e | e in page.entries :: e in all;
    assert LastId(logs(0)) >= 0 by { assert ValidLog(logs(0)); }
  }

  /** A poll continues the range already printed. */
  lemma PollExtends(server: Server, logs: History, from: int, last: int, high: int, next: nat, after: nat)
    requires Honest(server, logs) && next < after
    requires from <= last <= high && last <= LastId(logs(2 * next)) && high <= LastId(logs(2 * next + 1))
    ensures high <= LastId(logs(2 * after))
    ensures Reverse(Descending(logs(2 * after), from, high)) ==
            Reverse(Descending(logs(2 * next), from, last)) + Reverse(Descending(logs(2 * after), last, high))
  {
    var now := logs(2 * after);
    LastGrows(logs(2 * next + 1), now);
    Split(now, from, last, high);
    Stable(logs(2 * next), now, from, last);
    ReverseConcat(Descending(now, last, high), Descending(now, from, last));
  }

  /** What was printed stays what the grown log holds. */
  lemma PrintedStays(server: Server, logs: History, from: int, last: int, next: nat, after: nat)
    requires Honest(server, logs) && next < after && last <= LastId(logs(2 * next))
    ensures last <= LastId(logs(2 * after))
    ensures Descending(logs(2 * after), from, last) == Descending(logs(2 * next), from, last)
  {
    LastGrows(logs(2 * next), logs(2 * after));
    Stable(logs(2 * next), logs(2 * after), from, last);
  }

  /** The printed range is complete and has no repetition: ids ascend strictly, and membership is exact. */
  lemma ExactlyOnce(log: Log, lo: int, hi: int)
    requires ValidLog(log)
    ensures var out := Reverse(Descending(log, lo, hi));
            && (forall i, j | 0 <= i < j < |out| :: out[i].id < out[j].id)
            && (forall e :: e in out <==> e in log && e.matching && lo < e.id <= hi)
  {
    hide Descending;
    Members(log, lo, hi);
    DescendingMembers(log, lo, hi);
    ReverseMembers(Descending(log, lo, hi));
  }

  lemma ReverseMembers(d: seq<Entry>)
    ensures forall e :: e in Reverse(d) <==> e in d
  {
  }

  // ---------------------------------------------------------------- termination against any server

  lemma {:induction false} CursorFalls(server: Server, first: nat, last: int, n: nat)
    requires last >= 0 && n > 0 && LoopAt(server, first, last, n).Reading?
    ensures LoopAt(server, first, last, 0).Reading?
    ensures last < LoopAt(server, first, last, n).before <= LoopAt(server, first, last, 0).page.nextBefore - n + 1
    decreases n
  {
    if n > 1 {
      CursorFalls(server, first, last, n - 1);
    } else {
      assert LoopAt(server, first, last, 0).Reading?;
    }
  }

  /**
   The polling loop ends against every server exactly when the id to resume
   from is not negative.  Below zero, a page without a cursor (decoded as 0)
   already counts as unfinished, and an empty log is polled forever.
   */
  lemma PollEndsIffNonNegative(first: nat, last: int)
    ensures (forall server: Server :: Ends(server, first, last)) <==> last >= 0
  {
    if last >= 0 {
      forall server: Server ensures Ends(server, first, last) {
        var n := if LoopAt(server, first, last, 0).Reading? && LoopAt(server, first, last, 0).page.nextBefore > last
                 then LoopAt(server, first, last, 0).page.nextBefore - last + 1 else 1;
        if LoopAt(server, first, last, n).Reading? {
          CursorFalls(server, first, last, n);
        }
      }
    } else {
      var empty: Server := (k, before, limit) => Some(Page([], 0, 0));
      forall n: nat ensures LoopAt(empty, first, last, n).Reading? {
        StillReading(empty, first, last, n);
      }
      assert !Ends(empty, first, last);
    }
  }

  lemma {:induction false} StillReading(server: Server, first: nat, last: int, n: nat)
    requires last < 0
    requires forall k: nat, before: int, limit: int :: server(k, before, limit) == Some(Page([], 0, 0))
    ensures LoopAt(server, first, last, n) == Reading(Page([], 0, 0), 0, [])
    decreases n
  {
    if n > 0 {
      StillReading(server, first, last, n - 1);
    }
  }
}
