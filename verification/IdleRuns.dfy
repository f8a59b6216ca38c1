/** Every interleaving of sampler, endpoint and waiting client. */
module IdleRuns {
  import opened Idle

  datatype Sampler = Sleeping | Started(start: int) | Armed(start: int, armed: int) | Finished(read: Read)

  /** `published` holds every sample ever published; the last one is current. */
  datatype System = System(now: int, sampler: Sampler, published: seq<Read>, waiter: Waiter, mode: Mode)

  /** Time passes, or one component takes one step.  `Fault` is a reply that is not the handler's. */
  datatype Move =
    | Tick(passed: nat)
    | StartRead
    | ArmBudget
    | FinishRead(status: Status, failed: bool, cancelled: bool)
    | PublishRead
    | Ask
    | Answer(expired: bool)
    | Fault(reply: Reply)
    | Receive(late: bool)
    | GiveUp

  function Step(sys: System, move: Move): System {
    match (move, sys.sampler, sys.waiter)
    case (Tick(passed), _, _) => sys.(now := sys.now + passed)
    case (StartRead, Sleeping, _) => sys.(sampler := Started(sys.now))
    case (ArmBudget, Started(start), _) => sys.(sampler := Armed(start, sys.now))
    case (FinishRead(status, failed, cancelled), Armed(start, armed), _) =>
      sys.(sampler := Finished(Read(start, armed, sys.now, failed, cancelled, status)))
    case (PublishRead, Finished(read), _) => sys.(sampler := Sleeping, published := sys.published + [read])
    case (Ask, _, Polling) => sys.(waiter := Asked)
    case (Answer(expired), _, Asked) =>
      sys.(waiter := Answered(Handle(Fresh(Sample(sys.published), sys.now, expired), sys.mode), sys.now))
    case (Fault(reply), _, Asked) =>
      if Classify(reply, sys.mode) == Free then sys else sys.(waiter := Answered(reply, sys.now))
    case (Receive(late), _, Answered(reply, at)) => sys.(waiter := React(reply, at, sys.mode, late))
    case (GiveUp, _, Polling) => sys.(waiter := GaveUp)
    case _ => sys
  }

  function Run(sys: System, moves: seq<Move>): System
    decreases |moves|
  {
    if moves == [] then sys else Run(Step(sys, moves[0]), moves[1..])
  }

  /** A published read that justifies calling the queue idle at `at`. */
  predicate Justifies(r: Read, mode: Mode, at: int) {
    && !r.failed && !r.cancelled && r.status.Valid() && NoWork(r.status, mode)
    && r.start <= r.armed <= r.checked <= at && r.checked - r.armed < 5_000_000_000 && at - r.start < 10_000_000_000
  }

  ghost predicate Evidence(published: seq<Read>, mode: Mode, at: int) { exists r :: r in published && Justifies(r, mode, at) }

  predicate Timely(r: Read, now: int) { r.start <= r.armed <= r.checked <= now }

  ghost predicate Inv(sys: System) {
    && (forall r | r in sys.published :: Timely(r, sys.now))
    && (match sys.sampler
        case Sleeping => true
        case Started(start) => start <= sys.now
        case Armed(start, armed) => start <= armed <= sys.now
        case Finished(read) => Timely(read, sys.now))
    && (match sys.waiter
        case Answered(reply, at) => Classify(reply, sys.mode) == Free ==> Evidence(sys.published, sys.mode, at)
        case SawIdle(at) => Evidence(sys.published, sys.mode, at)
        case _ => true)
  }

  lemma AnswerJustified(sys: System, expired: bool)
    requires Inv(sys)
    requires Classify(Handle(Fresh(Sample(sys.published), sys.now, expired), sys.mode), sys.mode) == Free
    ensures Evidence(sys.published, sys.mode, sys.now)
  {
    var counts := Fresh(Sample(sys.published), sys.now, expired);
    NoContentMeansIdle(counts, sys.mode);
    var last := sys.published[|sys.published| - 1];
    assert last in sys.published && Justifies(last, sys.mode, sys.now);
  }

  lemma EvidenceStays(published: seq<Read>, more: Read, mode: Mode, at: int)
    requires Evidence(published, mode, at)
    ensures Evidence(published + [more], mode, at)
  {
  }

  lemma StepKeepsInv(sys: System, move: Move)
    requires Inv(sys)
    ensures Inv(Step(sys, move))
  {
    hide Evidence, Classify, Handle, Fresh;
    match move {
      case Answer(expired) =>
        if sys.waiter.Asked? && Classify(Handle(Fresh(Sample(sys.published), sys.now, expired), sys.mode), sys.mode) == Free {
          AnswerJustified(sys, expired);
        }
      case PublishRead =>
        if sys.sampler.Finished? {
          var at := if sys.waiter.Answered? || sys.waiter.SawIdle? then sys.waiter.at else 0;
          if Evidence(sys.published, sys.mode, at) { EvidenceStays(sys.published, sys.sampler.read, sys.mode, at); }
        }
      case _ =>
    }
  }

  /**
   Sound idle verdict.  Whatever the interleaving, clock and failures: when the
   client reports an idle queue, some read started under ten seconds before the
   answer was evaluated, finished within its budget and without error, and
   counted no work of the kind waited for.
   */
  lemma {:induction false} IdleVerdictIsSound(sys: System, moves: seq<Move>)
    requires Inv(sys)
    ensures Inv(Run(sys, moves))
    ensures var end := Run(sys, moves);
            end.waiter.SawIdle? ==> exists r :: r in end.published && Justifies(r, end.mode, end.waiter.at)
    decreases |moves|
  {
    if moves != [] {
      StepKeepsInv(sys, moves[0]);
      IdleVerdictIsSound(Step(sys, moves[0]), moves[1..]);
    }
  }

  /** A daemon that has sampled nothing and a client about to poll. */
  lemma BootIsOk(now: int, mode: Mode)
    ensures Inv(System(now, Sleeping, [], Polling, mode))
  {
  }

  // ---------------------------------------------------------------- the client's own code

  /** What the client sees of a run: a turn for every reply it receives, and one for giving up between probes. */
  function Turns(sys: System, moves: seq<Move>): seq<Turn>
    decreases |moves|
  {
    if moves == [] then []
    else
      var seen := match (moves[0], sys.waiter)
                  case (Receive(late), Answered(reply, at)) => [Turn(false, reply, at, late, false, false)]
                  case (GiveUp, Polling) => [Turn(true, Unreachable, 0, false, false, false)]
                  case _ => [];
      seen + Turns(Step(sys, moves[0]), moves[1..])
  }

  /** A client between two verdicts is still polling. */
  function Settled(w: Waiter): Waiter { if w.SawIdle? || w.GaveUp? then w else Polling }

  lemma {:induction false} FoldOne(turn: Turn, turns: seq<Turn>, mode: Mode)
    ensures Fold([turn] + turns, mode) == if After(turn, mode).Polling? then Fold(turns, mode) else After(turn, mode)
    decreases |turns|
  {
    hide After;
    var all := [turn] + turns;
    if turns == [] {
      assert all == [turn] && all[..0] == [];
    } else {
      FoldOne(turn, turns[..|turns| - 1], mode);
      assert all[..|all| - 1] == [turn] + turns[..|turns| - 1];
    }
  }

  lemma {:induction false} StaysDecided(sys: System, moves: seq<Move>)
    requires sys.waiter.SawIdle? || sys.waiter.GaveUp?
    ensures Run(sys, moves).waiter == sys.waiter && Turns(sys, moves) == []
    decreases |moves|
  {
    if moves != [] { StaysDecided(Step(sys, moves[0]), moves[1..]); }
  }

  lemma {:induction false} RunKeepsMode(sys: System, moves: seq<Move>)
    ensures Run(sys, moves).mode == sys.mode
    decreases |moves|
  {
    if moves != [] { RunKeepsMode(Step(sys, moves[0]), moves[1..]); }
  }

  /** The client of a run is the one that `WaitIdle` computes from its turns. */
  lemma {:induction false} RunIsFold(sys: System, moves: seq<Move>)
    requires !sys.waiter.SawIdle? && !sys.waiter.GaveUp?
    ensures Settled(Run(sys, moves).waiter) == Fold(Turns(sys, moves), sys.mode)
    decreases |moves|
  {
    hide Fold;
    if moves == [] {
      NothingYet(sys.mode);
    } else {
      var next, rest := Step(sys, moves[0]), moves[1..];
      var turns := Turns(next, rest);
      assert [] + turns == turns;
      if next.waiter.SawIdle? || next.waiter.GaveUp? {
        StaysDecided(next, rest);
      } else {
        RunIsFold(next, rest);
      }
      match (moves[0], sys.waiter) {
        case (Receive(late), Answered(reply, at)) =>
          FoldOne(Turn(false, reply, at, late, false, false), turns, sys.mode);
        case (GiveUp, Polling) =>
          FoldOne(Turn(true, Unreachable, 0, false, false, false), turns, sys.mode);
        case _ =>
      }
    }
  }

  /**
   `waitIdle` is sound.  Over every interleaving: if the turns that the client
   sees make `WaitIdle` succeed, then a published read justifies the verdict.
   */
  lemma WaitIdleIsSound(sys: System, moves: seq<Move>)
    requires Inv(sys) && sys.waiter.Polling? && Fold(Turns(sys, moves), sys.mode).SawIdle?
    ensures var at := Fold(Turns(sys, moves), sys.mode).at;
            exists r :: r in Run(sys, moves).published && Justifies(r, sys.mode, at)
  {
    RunIsFold(sys, moves);
    RunKeepsMode(sys, moves);
    IdleVerdictIsSound(sys, moves);
  }
}
