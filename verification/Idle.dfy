/** Observing an idle queue: the background sampler, the admin endpoint and the waiting client. */
module Idle {
  import opened Wrappers

  const READ_BUDGET := 5_000_000_000
  const MAX_AGE := 10_000_000_000
  const BACKOFF_LIMIT := 30_000_000_000

  datatype Status = Status(version: int, queued: int, running: int, branch: int, tag: int, promotion: int,
                           plan: int, apply: int, other: int) {
    function Critical(): int { tag + promotion + plan + apply + other }

    predicate Valid() {
      && (forall n | n in [queued, running, branch, tag, promotion, plan, apply, other] :: 0 <= n <= 1_000_000_000)
      && version == 1 && branch + Critical() == queued + running
    }
  }

  const ZERO := Status(0, 0, 0, 0, 0, 0, 0, 0, 0)

  datatype Mode = All | CriticalOnly

  /** No work of the kind the mode waits for. */
  predicate NoWork(s: Status, mode: Mode) {
    if mode.All? then s.queued == 0 && s.running == 0
    else s.tag == 0 && s.promotion == 0 && s.plan == 0 && s.apply == 0 && s.other == 0
  }

  // ---------------------------------------------------------------- sampler

  /**
   One queue read: when it started, when its budget was armed, when its result
   was checked, and what came of it.  `cancelled` is the sampler's own shutdown.
   */
  datatype Read = Read(start: int, armed: int, checked: int, failed: bool, cancelled: bool, status: Status) {
    /** Finished in budget without error, with a consistent status. */
    predicate Sound() { !failed && !cancelled && checked < armed + READ_BUDGET && status.Valid() }
  }

  /** What the sampler currently offers: the last published read, if it is sound. */
  function Sample(published: seq<Read>): Option<(Status, int)> {
    if published == [] then None
    else
      var last := published[|published| - 1];
      if last.Sound() then Some((last.status, last.start)) else None
  }

  function Fresh(sample: Option<(Status, int)>, now: int, expired: bool): Option<Status> {
    if expired || sample.None? || now - sample.value.1 >= MAX_AGE then None else Some(sample.value.0)
  }

  /** The published sample; `published` is its history. */
  class Snapshot {
    var state: Status
    var observed: int
    var valid: bool
    ghost var published: seq<Read>

    /** The fields are those of the last read. */
    ghost predicate Valid()
      reads this
    {
      if published == [] then !valid
      else
        var last := published[|published| - 1];
        state == last.status && observed == last.start && valid == last.Sound()
    }

    constructor ()
      ensures Valid() && published == []
    {
      state, observed, valid, published := ZERO, 0, false, [];
    }

    /** The end of one turn of `watch`: the sample carries the start of its read. */
    method Publish(read: Read)
      requires Valid()
      modifies this
      ensures Valid() && published == old(published) + [read]
    {
      var sound := !read.failed && read.checked < read.armed + READ_BUDGET && !read.cancelled && read.status.Valid();
      state, observed, valid := read.status, read.start, sound;
      published := published + [read];
    }

    /** `current`: a status is reported exactly if the last read was sound and started less than ten seconds ago. */
    method Current(now: int, expired: bool) returns (r: Option<Status>)
      requires Valid()
      ensures r.Some? <==>
              && !expired && published != []
              && published[|published| - 1].Sound() && now - published[|published| - 1].start < MAX_AGE
      ensures r.Some? ==> r.value == published[|published| - 1].status
      ensures r == Fresh(Sample(published), now, expired)
    {
      if expired { return None; }
      if !valid || now - observed >= MAX_AGE { return None; }
      return Some(state);
    }

    /** The endpoint on this snapshot: the answer of `IdleRuns`' system. */
    method Answer(now: int, expired: bool, mode: Mode) returns (reply: Reply)
      requires Valid()
      ensures reply == Handle(Fresh(Sample(published), now, expired), mode)
      ensures reply == Http(204, true, NoBody) <==>
              && !expired && published != [] && published[|published| - 1].Sound()
              && now - published[|published| - 1].start < MAX_AGE && NoWork(published[|published| - 1].status, mode)
    {
      var counts := Current(now, expired);
      NoContentMeansIdle(counts, mode);
      reply := Handle(counts, mode);
    }
  }

  // ---------------------------------------------------------------- endpoint

  datatype Body = NoBody | Oversized | NotJson | Json(status: Status)

  /** What the client gets; `versioned` is the idle-version header, `BodyLost` a read error after the header. */
  datatype Reply = Unreachable | Http(code: int, versioned: bool, body: Body) | BodyLost(code: int, versioned: bool)

  /** The `GET /v1/idle` handler on the sampler's answer. */
  function Handle(counts: Option<Status>, mode: Mode): Reply {
    if counts.None? || !counts.value.Valid() then Http(503, false, NotJson)
    else
      var s := counts.value;
      var busy := if mode.CriticalOnly? then s.Critical() != 0 else s.queued + s.running != 0;
      if busy then Http(409, true, Json(s)) else Http(204, true, NoBody)
  }

  /** A 204 is sent exactly for a valid status without the work in question. */
  lemma NoContentMeansIdle(counts: Option<Status>, mode: Mode)
    ensures Handle(counts, mode) == Http(204, true, NoBody) <==>
            counts.Some? && counts.value.Valid() && NoWork(counts.value, mode)
  {
    if counts.Some? && counts.value.Valid() {
      var s := counts.value;
      var all := [s.queued, s.running, s.branch, s.tag, s.promotion, s.plan, s.apply, s.other];
      assert forall i | 0 <= i < |all| :: 0 <= all[i] by { assert forall i | 0 <= i < |all| :: all[i] in all; }
      assert 0 <= all[0] && 0 <= all[1] && 0 <= all[3] && 0 <= all[4] && 0 <= all[5] && 0 <= all[6] && 0 <= all[7];
    }
  }

  /** The other answers: 409 with the counts exactly when there is such work, 503 exactly without a usable sample. */
  lemma OtherAnswers(counts: Option<Status>, mode: Mode)
    ensures Handle(counts, mode).Http? && Handle(counts, mode).code in {204, 409, 503}
    ensures Handle(counts, mode).code == 503 <==> counts.None? || !counts.value.Valid()
    ensures Handle(counts, mode).code == 409 ==> Handle(counts, mode) == Http(409, true, Json(counts.value))
    ensures Handle(counts, mode).code == 409 <==> counts.Some? && counts.value.Valid() && !NoWork(counts.value, mode)
  {
    NoContentMeansIdle(counts, mode);
  }

  /** A valid status adds up: every count is there once, as branch or as critical work. */
  lemma ValidAddsUp(s: Status)
    ensures s.Valid() ==> s.version == 1 && s.branch + s.tag + s.promotion + s.plan + s.apply + s.other == s.queued + s.running
    ensures s.Valid() <==>
            && s.version == 1 && s.branch + s.tag + s.promotion + s.plan + s.apply + s.other == s.queued + s.running
            && 0 <= s.queued <= 1_000_000_000 && 0 <= s.running <= 1_000_000_000 && 0 <= s.branch <= 1_000_000_000
            && 0 <= s.tag <= 1_000_000_000 && 0 <= s.promotion <= 1_000_000_000 && 0 <= s.plan <= 1_000_000_000
            && 0 <= s.apply <= 1_000_000_000 && 0 <= s.other <= 1_000_000_000
  {
    var all := [s.queued, s.running, s.branch, s.tag, s.promotion, s.plan, s.apply, s.other];
    assert forall n | n in all :: exists i | 0 <= i < |all| :: all[i] == n;
    assert (forall n | n in all :: 0 <= n <= 1_000_000_000) <==> (forall i | 0 <= i < |all| :: 0 <= all[i] <= 1_000_000_000) by {
      assert forall i | 0 <= i < |all| :: all[i] in all;
    }
    assert all[0] == s.queued && all[1] == s.running && all[2] == s.branch && all[3] == s.tag;
    assert all[4] == s.promotion && all[5] == s.plan && all[6] == s.apply && all[7] == s.other;
  }

  // ---------------------------------------------------------------- client

  datatype Probe = Free | Busy(known: bool) | Broken(transient: bool)

  /** `probeIdle`: what one reply establishes. */
  function Classify(reply: Reply, mode: Mode): Probe {
    match reply
    case Unreachable => Broken(true)
    case Http(code, versioned, body) =>
      if code != 204 && code != 409 then Broken(500 <= code <= 599)
      else if mode.CriticalOnly? && !versioned then Broken(false)
      else if code == 204 then Free
      else (match body
            case NoBody => if mode.CriticalOnly? then Broken(false) else Busy(false)
            case Json(status) => if status.Valid() then Busy(true) else Broken(false)
            case _ => Broken(false))
    case BodyLost(code, versioned) =>
      if code != 204 && code != 409 then Broken(500 <= code <= 599)
      else if mode.CriticalOnly? && !versioned then Broken(false)
      else if code == 204 then Free
      else Broken(true)
  }

  /** The server speaks the protocol that the mode needs. */
  predicate Supported(mode: Mode, versioned: bool) { mode.All? || versioned }

  /** The queue is free: 204 from a server that supports the mode. */
  predicate IsFree(reply: Reply, mode: Mode) { !reply.Unreachable? && reply.code == 204 && Supported(mode, reply.versioned) }

  /** A retryable failure: no connection, a server error, or a busy answer whose body was lost. */
  predicate IsTransient(reply: Reply, mode: Mode) {
    || reply.Unreachable?
    || 500 <= reply.code <= 599
    || (reply.BodyLost? && reply.code == 409 && Supported(mode, reply.versioned))
  }

  /** The queue is busy: 409 with valid counts, or from an older server without any when all work counts. */
  predicate IsBusy(reply: Reply, mode: Mode) {
    && reply.Http? && reply.code == 409 && Supported(mode, reply.versioned)
    && ((reply.body == NoBody && mode.All?) || (reply.body.Json? && reply.body.status.Valid()))
  }

  /** What each kind of reply establishes; everything else is a permanent failure. */
  lemma ClassifyIff(reply: Reply, mode: Mode)
    ensures Classify(reply, mode) == Free <==> IsFree(reply, mode)
    ensures Classify(reply, mode) == Broken(true) <==> IsTransient(reply, mode)
    ensures Classify(reply, mode).Busy? <==> IsBusy(reply, mode)
    ensures Classify(reply, mode).Busy? ==> Classify(reply, mode).known == reply.body.Json?
  {
  }

  /** The handler's own answers never stop a client for good: idle, busy, or try again. */
  lemma HandlerNeverRefuses(counts: Option<Status>, mode: Mode)
    ensures var reply := Handle(counts, mode);
            if counts.None? || !counts.value.Valid() then IsTransient(reply, mode)
            else if NoWork(counts.value, mode) then IsFree(reply, mode)
            else IsBusy(reply, mode)
  {
    NoContentMeansIdle(counts, mode);
  }

  /** The wait after the k-th failure in a row. */
  function Backoff(interval: int, k: nat): int {
    if k == 0 then interval
    else
      var previous := Backoff(interval, k - 1);
      if 2 * previous < BACKOFF_LIMIT then 2 * previous else BACKOFF_LIMIT
  }

  // ---------------------------------------------------------------- waiting

  datatype Waiter = Polling | Asked | Answered(reply: Reply, at: int) | SawIdle(at: int) | GaveUp

  /** What a reply evaluated at `at` makes of the waiting client; `late` says that its context has ended. */
  function React(reply: Reply, at: int, mode: Mode, late: bool): Waiter {
    match Classify(reply, mode)
    case Free => if late then GaveUp else SawIdle(at)
    case Broken(transient) => if late || !transient then GaveUp else Polling
    case Busy(_) => Polling
  }

  /**
   One turn of the loop: whether the context had ended before it, the reply and
   when it was evaluated, whether the context had ended after it, whether a
   progress line was due and could not be written, and whether the context ended
   during the pause.
   */
  datatype Turn = Turn(ended: bool, reply: Reply, at: int, late: bool, unwritable: bool, cut: bool)

  /** The client after one turn. */
  function After(turn: Turn, mode: Mode): Waiter {
    if turn.ended then GaveUp
    else
      var w := React(turn.reply, turn.at, mode, turn.late);
      if w.Polling? && (turn.unwritable || turn.cut) then GaveUp else w
  }

  /** The client after all turns; once decided it stays so. */
  function Fold(turns: seq<Turn>, mode: Mode): Waiter {
    if turns == [] then Polling
    else
      var w := Fold(turns[..|turns| - 1], mode);
      if w.Polling? then After(turns[|turns| - 1], mode) else w
  }

  /** Failures in a row that end with the last of the turns. */
  function Streak(turns: seq<Turn>, mode: Mode): nat {
    if turns == [] || !Classify(turns[|turns| - 1].reply, mode).Broken? then 0 else 1 + Streak(turns[..|turns| - 1], mode)
  }

  /** The pause that follows a turn: the interval after a busy reply, the backoff of the streak after a failure. */
  function Pause(turns: seq<Turn>, i: nat, interval: int, mode: Mode): int
    requires i < |turns|
  {
    if Classify(turns[i].reply, mode).Broken? then Backoff(interval, Streak(turns[..i], mode)) else interval
  }

  lemma {:induction false} StreakGrows(turns: seq<Turn>, i: nat, mode: Mode)
    requires i < |turns|
    ensures Streak(turns[..i + 1], mode) == if Classify(turns[i].reply, mode).Broken? then 1 + Streak(turns[..i], mode) else 0
    ensures Fold(turns[..i], mode).Polling? ==> Fold(turns[..i + 1], mode) == After(turns[i], mode)
  {
    assert turns[..i + 1][..i] == turns[..i];
  }

  lemma {:induction false} Decided(turns: seq<Turn>, k: nat, mode: Mode)
    requires k <= |turns| && !Fold(turns[..k], mode).Polling?
    ensures Fold(turns, mode) == Fold(turns[..k], mode)
    decreases |turns|
  {
    if k == |turns| {
      assert turns[..k] == turns;
    } else {
      assert turns[..|turns| - 1][..k] == turns[..k];
      Decided(turns[..|turns| - 1], k, mode);
    }
  }

  lemma NothingYet(mode: Mode)
    ensures Streak([], mode) == 0 && Fold([], mode) == Polling
  {
  }

  /** Pauses from turn to turn: the interval after a busy reply or a first failure, then twice the last, up to thirty seconds. */
  lemma PauseSteps(turns: seq<Turn>, i: nat, interval: int, mode: Mode)
    requires i < |turns| && forall j | 0 <= j <= i :: !IsFree(turns[j].reply, mode)
    ensures Pause(turns, i, interval, mode) ==
            if IsBusy(turns[i].reply, mode) || i == 0 || IsBusy(turns[i - 1].reply, mode) then interval
            else if 2 * Pause(turns, i - 1, interval, mode) < 30_000_000_000 then 2 * Pause(turns, i - 1, interval, mode)
            else 30_000_000_000
  {
    hide Classify, IsFree, IsBusy, IsTransient;
    ClassifyIff(turns[i].reply, mode);
    if i == 0 {
      assert turns[..0] == [];
    } else {
      ClassifyIff(turns[i - 1].reply, mode);
      assert turns[..i][..i - 1] == turns[..i - 1];
    }
  }

  datatype Verdict = Success | Expired | Refused | Unwritable | StillWaiting

  /** A turn after which the client probes again. */
  predicate Continues(turn: Turn, mode: Mode) {
    && !turn.ended && !turn.unwritable && !turn.cut
    && (IsBusy(turn.reply, mode) || (IsTransient(turn.reply, mode) && !turn.late))
  }

  /** What a deciding turn decides. */
  function Decision(turn: Turn, mode: Mode): Verdict {
    if turn.ended then Expired
    else if IsFree(turn.reply, mode) then (if turn.late then Expired else Success)
    else if IsTransient(turn.reply, mode) then (if turn.late then Expired else if turn.unwritable then Unwritable else Expired)
    else if IsBusy(turn.reply, mode) then (if turn.unwritable then Unwritable else Expired)
    else Refused
  }

  /**
   `waitIdle` over its turns.  The first turn that does not lead to another
   probe decides, as written out in `Decision`: a free queue in time is success,
   a reply that is neither free, busy nor retryable is a refusal.  That is the
   client of `Fold`.  `used` counts the turns up to the deciding one; `delays` are
   the pauses it started.
   */
  method WaitIdle(turns: seq<Turn>, interval: int, mode: Mode) returns (verdict: Verdict, used: nat, delays: seq<int>)
    ensures used <= |turns| && (verdict == StillWaiting ==> used == |turns|)
    ensures forall i | 0 <= i < (if verdict == StillWaiting then used else used - 1) :: Continues(turns[i], mode)
    ensures verdict != StillWaiting ==>
              used > 0 && !Continues(turns[used - 1], mode) && verdict == Decision(turns[used - 1], mode)
    ensures verdict == Success <==> Fold(turns, mode).SawIdle?
    ensures verdict == StillWaiting <==> Fold(turns, mode).Polling?
    ensures |delays| <= |turns| && forall i | 0 <= i < |delays| :: delays[i] == Pause(turns, i, interval, mode)
    ensures verdict == StillWaiting ==> |delays| == |turns|
  {
    hide Classify, Streak, Fold, After, IsFree, IsTransient, IsBusy;
    delays, used := [], 0;
    var backoff := interval;
    assert turns[..0] == [];
    NothingYet(mode);
    for i := 0 to |turns|
      invariant i == |delays| == used && Fold(turns[..i], mode).Polling?
      invariant forall j | 0 <= j < i :: Continues(turns[j], mode)
      invariant backoff == Backoff(interval, Streak(turns[..i], mode))
      invariant forall j | 0 <= j < i :: delays[j] == Pause(turns, j, interval, mode)
    {
      var turn := turns[i];
      used := i + 1;
      StreakGrows(turns, i, mode);
      if !Fold(turns[..i + 1], mode).Polling? { Decided(turns, i + 1, mode); }
      TurnDecides(turn, mode);
      ClassifyIff(turn.reply, mode);
      if turn.ended { return Expired, used, delays; }
      var delay := interval;
      match Classify(turn.reply, mode) {
        case Broken(transient) =>
          if !transient { return Refused, used, delays; }
          if turn.late { return Expired, used, delays; }
          if turn.unwritable { return Unwritable, used, delays; }
          delay, backoff := backoff, if 2 * backoff < BACKOFF_LIMIT then 2 * backoff else BACKOFF_LIMIT;
        case Free =>
          return if turn.late then Expired else Success, used, delays;
        case Busy(_) =>
          backoff := interval;
          if turn.unwritable { return Unwritable, used, delays; }
      }
      delays := delays + [delay];
      if turn.cut { return Expired, used, delays; }
    }
    assert turns[..|turns|] == turns;
    return StillWaiting, used, delays;
  }

  /** Which turns decide, and how. */
  lemma TurnDecides(turn: Turn, mode: Mode)
    ensures After(turn, mode).SawIdle? <==> !turn.ended && !turn.late && IsFree(turn.reply, mode)
    ensures After(turn, mode).Polling? <==> Continues(turn, mode)
  {
    ClassifyIff(turn.reply, mode);
  }

  function Power(k: nat): nat { if k == 0 then 1 else 2 * Power(k - 1) }

  /** The backoff doubles with every failure up to thirty seconds. */
  lemma {:induction false} BackoffDoubles(interval: int, k: nat)
    requires interval > 0
    ensures Backoff(interval, 0) == interval
    ensures k > 0 ==> Backoff(interval, k) == if Power(k) * interval < 30_000_000_000 then Power(k) * interval else 30_000_000_000
    decreases k
  {
    if k > 1 { BackoffDoubles(interval, k - 1); }
  }

  /** The pauses never exceed the longer of the interval and thirty seconds. */
  lemma {:induction false} BackoffBounded(interval: int, k: nat)
    requires interval > 0
    ensures 0 < Backoff(interval, k) <= if interval > BACKOFF_LIMIT then interval else BACKOFF_LIMIT
  {
    if k > 0 { BackoffBounded(interval, k - 1); }
  }
}
