/**
 The startup functions in their own imperative form: read, decide, write
 durably, write again.  `writesLeft` is the number of durable writes that this
 process completes before it dies; every method is proved to do exactly the
 prefix of the specified writes that the budget allows, in that order.
 */
module StartupHost {
  import opened Wrappers
  import opened AuditChain
  import opened Startup

  datatype Ending = Crashed | Finished(outcome: Outcome)

  /** `after` is what is left of `writes` with `left` of them done, and `ending` what the caller sees. */
  ghost predicate Performed(digest: Digest, before: World, left: nat, writes: seq<Write>, outcome: Outcome,
                            after: World, ending: Ending) {
    && after == ApplyAll(digest, before, Prefix(writes, left))
    && ending == if left < |writes| then Crashed else Finished(outcome)
  }

  lemma NothingPerformed(digest: Digest, w: World, left: nat)
    ensures forall outcome :: Performed(digest, w, left, [], outcome, w, Finished(outcome))
  {
  }

  class Host {
    const digest: Digest
    var db: Database
    var intents: seq<Intent>
    var pinned: seq<Tip>
    var writesLeft: nat

    constructor (digest: Digest, w: World, writesLeft: nat)
      ensures this.digest == digest && State() == w && this.writesLeft == writesLeft
    {
      this.digest := digest;
      this.db, this.intents, this.pinned := w.db, w.intents, w.pinned;
      this.writesLeft := writesLeft;
    }

    function State(): World
      reads this
    {
      World(db, intents, pinned)
    }

    /** One durable write, or the crash in front of it. */
    method Do(write: Write) returns (alive: bool)
      modifies this
      ensures alive == (old(writesLeft) > 0)
      ensures alive ==> State() == Apply(digest, old(State()), write) && writesLeft == old(writesLeft) - 1
      ensures !alive ==> State() == old(State()) && writesLeft == 0
    {
      alive := writesLeft > 0;
      if !alive { return; }
      writesLeft := writesLeft - 1;
      match write {
        case CreateFile => db := Unreadable;
        case RemoveFile => db := Absent;
        case Initialize => db := Current([], false, true);
        case Append(spec, at) =>
          if db.Current? { db := db.(actions := db.actions + [Link(digest, db.actions, spec, at)]); }
        case Prepare(intent) => intents := intents + [intent];
        case Migrate => if db.LegacyV1? { db := SchemaV2(db.legacyHead); }
      }
    }

    /** `recordWitnessChainReset` on the open database. */
    method RecordWitnessChainReset(tip: Tip, now: int) returns (ending: Ending)
      requires db.Current?
      modifies this
      ensures var r := RecordReset(digest, old(State()), [], old(db).actions, tip, now);
              Performed(digest, old(State()), old(writesLeft), r.writes, r.outcome, State(), ending)
    {
      if !CanAppend(digest, db.actions, now) { return Finished(Refused(AppendFailed)); }
      ghost var write := Append(ResetSpec(tip), now);
      assert [] + [write] == [write];
      ApplyPrefixOfOne(digest, State(), write, writesLeft);
      var id := HeadOf(db.actions).id + 1;
      var alive := Do(Append(ResetSpec(tip), now));
      if !alive { return Crashed; }
      if id != 1 { return Finished(Refused(NotFirstAction)); }
      return Finished(Opened(ResetAccepted));
    }

    /** `resumeWitnessChainReset`. */
    method ResumeWitnessChainReset(s: Start) returns (decided: bool, ending: Ending)
      modifies this
      ensures decided == ResumeReset(digest, old(State()), s).Done?
      ensures !decided ==> State() == old(State()) && writesLeft == old(writesLeft)
      ensures decided ==>
                var step := ResumeReset(digest, old(State()), s);
                Performed(digest, old(State()), old(writesLeft), step.writes, step.outcome, State(), ending)
    {
      ending := Crashed;
      if s.faults.flagInspect || !db.Current? { return false, ending; }
      if !LocallyVerified(digest, db, s.faults) { return false, ending; }
      if s.faults.anchors || db.anchored { return false, ending; }
      var head := HeadOf(db.actions);
      var recorded := head.id == 1 && !s.faults.sole && db.actions != [] && IsResetAck(db.actions[0]);
      if head.id != 0 && !recorded { return false, ending; }
      if s.faults.intents || s.faults.pinned { return true, Finished(Refused(ContinuityUnreadable)); }
      if intents != [] || pinned != [] { return false, ending; }
      if recorded && db.actions[0].spec.resourceID != s.flags.resetTip { return true, Finished(Refused(OtherTipRecorded)); }
      match AcknowledgedTip(s) {
        case TipRefused(why) => return true, Finished(Refused(why));
        case NoTip =>
          if recorded { return true, Finished(Refused(TipVanished)); }
          return false, ending;
        case TipIs(tip) =>
          if s.faults.open { return true, Finished(Refused(OpenFailed)); }
          if recorded { return true, Finished(Opened(ResetResumed)); }
          ending := RecordWitnessChainReset(tip, s.now);
          return true, ending;
      }
    }

    /** `adoptWitnessGenesis`: nothing is written before every refusal has been ruled out. */
    method AdoptWitnessGenesis(s: Start) returns (decided: bool, ending: Ending)
      modifies this
      ensures decided == AdoptGenesis(digest, old(State()), s).Done?
      ensures !decided ==> State() == old(State()) && writesLeft == old(writesLeft)
      ensures decided ==>
                var step := AdoptGenesis(digest, old(State()), s);
                Performed(digest, old(State()), old(writesLeft), step.writes, step.outcome, State(), ending)
    {
      ending := Crashed;
      if s.faults.flagInspect || !db.Current? { return false, ending; }
      if !LocallyVerified(digest, db, s.faults) { return false, ending; }
      if s.faults.intents || s.faults.pinned { return true, Finished(Refused(ContinuityUnreadable)); }
      if intents != [] || pinned != [] { return false, ending; }
      if !s.faults.tail && db.actions != [] && IsAdoptAck(db.actions[|db.actions| - 1]) {
        ending := ResumeWitnessGenesis(s, db.actions[|db.actions| - 1]);
      } else {
        ending := AppendWitnessGenesis(s);
      }
      return true, ending;
    }

    method ResumeWitnessGenesis(s: Start, tail: Action) returns (ending: Ending)
      requires db.Current?
      modifies this
      ensures var step := ResumeAdoption(old(State()), s, tail);
              Performed(digest, old(State()), old(writesLeft), step.writes, step.outcome, State(), ending)
    {
      var parsed := ParseAdopt(tail.spec.details);
      if parsed.None? { return Finished(Refused(DetailsMalformed)); }
      var details := parsed.value;
      var matchesBaseline := s.flags.adoptID == details.baselineID && Hex(s.flags.adoptSha) == details.baselineHex;
      var matchesAckHead := s.flags.adoptID == tail.id && s.flags.adoptSha == tail.sha;
      if !matchesBaseline && !matchesAckHead { return Finished(Refused(OtherBaselineRecorded)); }
      if s.faults.anchors { return Finished(Refused(AnchorsUnreadable)); }
      if db.anchored { return Finished(Refused(Checkpointed)); }
      var refusal := PublicHistoryRefusal(s);
      if refusal.Some? { return Finished(Refused(refusal.value)); }
      if s.faults.open { return Finished(Refused(OpenFailed)); }
      ApplyPrefixOfOne(digest, State(), Prepare(GenesisIntent(tail)), writesLeft);
      var alive := Do(Prepare(GenesisIntent(tail)));
      if !alive { return Crashed; }
      return Finished(Opened(AdoptionResumed));
    }

    method AppendWitnessGenesis(s: Start) returns (ending: Ending)
      requires db.Current?
      modifies this
      ensures var step := FreshAdoption(digest, old(State()), s);
              Performed(digest, old(State()), old(writesLeft), step.writes, step.outcome, State(), ending)
    {
      hide Performed, CanAppend, HeadOf, Link, AdoptSpec;
      NothingPerformed(digest, State(), writesLeft);
      if s.faults.anchors { return Finished(Refused(AnchorsUnreadable)); }
      if db.anchored { return Finished(Refused(Checkpointed)); }
      if HeadOf(db.actions) != Head(s.flags.adoptID, s.flags.adoptSha) { return Finished(Refused(HeadNotAcknowledged)); }
      var refusal := PublicHistoryRefusal(s);
      if refusal.Some? { return Finished(Refused(refusal.value)); }
      if s.faults.open { return Finished(Refused(OpenFailed)); }
      if !CanAppend(digest, db.actions, s.now) { return Finished(Refused(AppendFailed)); }
      ending := AppendAndPrepare(AdoptSpec(s.flags.adoptID, s.flags.adoptSha), s.now, s.flags.adoptID + 1);
    }

    /** Appends the acknowledgment, which must become action `want`, then prepares the intent that binds it. */
    method AppendAndPrepare(spec: Spec, now: int, want: int) returns (ending: Ending)
      requires db.Current?
      modifies this
      ensures var ack := Link(digest, old(db).actions, spec, now);
              if ack.id != want then
                Performed(digest, old(State()), old(writesLeft), [Append(spec, now)], Refused(ChainAdvanced), State(), ending)
              else
                Performed(digest, old(State()), old(writesLeft), [Append(spec, now), Prepare(GenesisIntent(ack))],
                          Opened(AdoptionApplied), State(), ending)
    {
      var ack := Link(digest, db.actions, spec, now);
      ApplyPrefixOfOne(digest, State(), Append(spec, now), writesLeft);
      ApplyPrefixOfTwo(digest, State(), Append(spec, now), Prepare(GenesisIntent(ack)), writesLeft);
      var alive := Do(Append(spec, now));
      if !alive { return Crashed; }
      if ack.id != want { return Finished(Refused(ChainAdvanced)); }
      alive := Do(Prepare(GenesisIntent(ack)));
      if !alive { return Crashed; }
      return Finished(Opened(AdoptionApplied));
    }

    /** `migrateLegacyStartupDatabase`: the intent is durable before the schema changes. */
    method MigrateLegacyStartupDatabase(s: Start) returns (ending: Ending)
      requires db.LegacyV1?
      modifies this
      ensures var step := MigrateLegacy(old(State()), s);
              Performed(digest, old(State()), old(writesLeft), step.writes, step.outcome, State(), ending)
    {
      if s.faults.legacy { return Finished(Refused(LegacyUnreadable)); }
      var head := db.legacyHead;
      if s.faults.intents || s.faults.pinned { return Finished(Refused(ContinuityUnreadable)); }
      if pinned != [] || |intents| > 1 { return Finished(Refused(LegacyEvidence)); }
      ApplyPrefixOfOne(digest, State(), Migrate, writesLeft);
      ApplyPrefixOfTwo(digest, State(), Prepare(LegacyIntent(head)), Migrate, writesLeft);
      if |intents| == 1 {
        if intents[0] != LegacyIntent(head) { return Finished(Refused(LegacyIntentMismatch)); }
      } else if head.id > 0 {
        var alive := Do(Prepare(LegacyIntent(head)));
        if !alive { return Crashed; }
      }
      var alive := Do(Migrate);
      if !alive { return Crashed; }
      return Finished(Refused(MigratedNeedsReplace));
    }

    /** Exclusive genesis, in two durable writes; a file that appeared is verified instead. */
    method CreateGenesisDatabase(s: Start) returns (ending: Ending)
      requires db.Absent?
      modifies this
      ensures var r := CreateGenesis(old(State()), s);
              Performed(digest, r.base, old(writesLeft), r.writes, r.outcome, State(), ending)
      ensures var r := CreateGenesis(old(State()), s);
              writesLeft == if old(writesLeft) < |r.writes| then 0 else old(writesLeft) - |r.writes|
    {
      if s.appeared.Some? {
        db := s.appeared.value;
        return Finished(VerifyAndOpen(State(), s));
      }
      var second := if s.faults.init then RemoveFile else Initialize;
      ApplyPrefixOfTwo(digest, State(), CreateFile, second, writesLeft);
      var alive := Do(CreateFile);
      if !alive { return Crashed; }
      alive := Do(second);
      if !alive { return Crashed; }
      return Finished(if s.faults.init then Refused(GenesisFailed) else Opened(Genesis));
    }

    method OpenFreshDatabase(s: Start) returns (ending: Ending)
      requires db.Absent?
      modifies this
      ensures var r := OpenFresh(digest, old(State()), s);
              Performed(digest, r.base, old(writesLeft), r.writes, r.outcome, State(), ending)
    {
      if s.flags.Adopt() { return Finished(Refused(AdoptionNeedsHistory)); }
      if s.faults.intents || s.faults.pinned { return Finished(Refused(ContinuityUnreadable)); }
      if intents != [] || pinned != [] { return Finished(Refused(RollbackEvidence)); }
      if !s.flags.Reset() { ending := CreateGenesisDatabase(s); return; }
      match AcknowledgedTip(s) {
        case TipRefused(why) => return Finished(Refused(why));
        case NoTip => ending := CreateGenesisDatabase(s); return;
        case TipIs(tip) =>
          ghost var before, left := State(), writesLeft;
          ghost var g := CreateGenesis(before, s);
          ending := CreateGenesisDatabase(s);
          if ending.Crashed? {
            CrashInGenesis(before, s, tip, left);
            return;
          }
          if ending.outcome.Refused? || !db.Current? { return; }
          ghost var reached := State();
          ending := RecordWitnessChainReset(tip, s.now);
          CrashAfterGenesis(before, s, tip, left, reached);
      }
    }

    lemma CrashInGenesis(before: World, s: Start, tip: Tip, left: nat)
      requires left < |CreateGenesis(before, s).writes|
      requires s.flags.Reset() && !s.flags.Adopt() && !s.faults.intents && !s.faults.pinned && !before.Evidence()
      requires AcknowledgedTip(s) == TipIs(tip)
      ensures var r, g := OpenFresh(digest, before, s), CreateGenesis(before, s);
              r.base == g.base && left < |r.writes| && Prefix(r.writes, left) == Prefix(g.writes, left)
    {
    }

    lemma CrashAfterGenesis(before: World, s: Start, tip: Tip, left: nat, reached: World)
      requires var g := CreateGenesis(before, s);
               |g.writes| <= left && g.outcome.Opened? && reached == ApplyAll(digest, g.base, g.writes)
      requires s.flags.Reset() && !s.flags.Adopt() && !s.faults.intents && !s.faults.pinned && !before.Evidence()
      requires AcknowledgedTip(s) == TipIs(tip) && reached.db.Current?
      ensures var r, g := OpenFresh(digest, before, s), CreateGenesis(before, s);
              var rest := RecordReset(digest, reached, [], reached.db.actions, tip, s.now);
              && r.base == g.base && r.outcome == rest.outcome && r.writes == g.writes + rest.writes
              && ApplyAll(digest, r.base, Prefix(r.writes, left)) ==
                 ApplyAll(digest, reached, Prefix(rest.writes, left - |g.writes|))
    {
      var r, g := OpenFresh(digest, before, s), CreateGenesis(before, s);
      var rest := RecordReset(digest, reached, [], reached.db.actions, tip, s.now);
      assert g.writes + [] == g.writes && [] + rest.writes == rest.writes;
      assert r.writes == g.writes + rest.writes;
      assert Prefix(r.writes, left) == g.writes + Prefix(rest.writes, left - |g.writes|);
      ApplyConcat(digest, g.base, g.writes, Prefix(rest.writes, left - |g.writes|));
    }

    /** `openStartupDatabase`. */
    method OpenStartupDatabase(s: Start) returns (ending: Ending)
      modifies this
      ensures var r := Open(digest, old(State()), s);
              Performed(digest, r.base, old(writesLeft), r.writes, r.outcome, State(), ending)
    {
      if s.flags.Reset() && !s.flags.rekor { return Finished(Refused(NoExternalWitness)); }
      if s.flags.Adopt() && s.flags.Reset() { return Finished(Refused(FlagsExclusive)); }
      if s.flags.Adopt() && !s.flags.rekor { return Finished(Refused(NoExternalWitness)); }
      if s.faults.lstat { return Finished(Refused(Unstattable)); }
      if db.Absent? { ending := OpenFreshDatabase(s); return; }
      if s.flags.Reset() {
        var decided: bool;
        decided, ending := ResumeWitnessChainReset(s);
        if decided { return; }
      }
      if s.flags.Adopt() {
        var decided: bool;
        decided, ending := AdoptWitnessGenesis(s);
        if decided { return; }
      }
      if !s.faults.inspect && db.LegacyV1? { ending := MigrateLegacyStartupDatabase(s); return; }
      return Finished(VerifyAndOpen(State(), s));
    }
  }
}
