/**
 Exactly when a start returns a database, for each way it can, and what is then
 durable: in terms of the flags, the reads and the durable state it began with,
 with every recorded field written out.
 */
module StartupOutcomes {
  import opened Wrappers
  import opened AuditChain
  import opened Startup
  import opened StartupRuns

  /** The flags are acceptable, the path can be inspected, and intents and completions can be read where they are needed. */
  predicate Ready(s: Start) {
    && (s.flags.resetTip != "" || s.flags.adoptID > 0 ==> s.flags.rekor)
    && !(s.flags.resetTip != "" && s.flags.adoptID > 0) && !s.faults.lstat
  }

  predicate Readable(s: Start) { !s.faults.intents && !s.faults.pinned }

  /** No database, no external history, and no adoption asked for. */
  predicate Fresh(w: World, s: Start) {
    Ready(s) && Readable(s) && w.db == Absent && w.intents == [] && w.pinned == [] && s.flags.adoptID <= 0
  }

  /** The latest public entry is the one that the operator acknowledged. */
  predicate Acknowledged(s: Start) {
    s.flags.resetTip != "" && !s.faults.tip && s.tip.Some? && s.tip.value.uuid == s.flags.resetTip
  }

  /** No reset was asked for, or there is nothing public to reset. */
  predicate NothingToReset(s: Start) { s.flags.resetTip == "" || (!s.faults.tip && s.tip == None) }

  // ---------------------------------------------------------------- genesis

  lemma GenesisIff(digest: Digest, w: World, s: Start)
    ensures Open(digest, w, s).outcome == Opened(Genesis) <==>
            Fresh(w, s) && NothingToReset(s) && s.appeared == None && !s.faults.init
    ensures Open(digest, w, s).outcome == Opened(Genesis) ==> Final(digest, w, s) == World(Current([], false, true), [], [])
  {
    ApplyTwo(digest, w, CreateFile, Initialize);
  }

  // ---------------------------------------------------------------- verification

  /** What the fail-closed path asks of a database. */
  predicate Verifies(w: World, s: Start) { !s.faults.inspect && w.db.Current? && s.verdict(w) && !s.faults.open }

  /** The chain as a reset can still claim it: empty, or holding nothing but a recorded acknowledgment. */
  predicate Claimable(db: Database, s: Start)
    requires db.Current?
  {
    HeadOf(db.actions).id == 0 || Recorded(db, s)
  }

  predicate Recorded(db: Database, s: Start)
    requires db.Current?
  {
    && HeadOf(db.actions).id == 1 && !s.faults.sole && db.actions != []
    && db.actions[0].spec.action == "witness-chain.reset-accepted" && db.actions[0].spec.resourceType == "audit-witness-chain"
  }

  /** The local chain verifies for a flagged start. */
  predicate Inspected(digest: Digest, db: Database, s: Start) {
    !s.faults.flagInspect && db.Current? && !s.faults.local && WellLinked(digest, db.actions) && db.pendingOk
  }

  /** Where a reset flag is passed over. */
  predicate ResetDefers(digest: Digest, w: World, s: Start) {
    || !Inspected(digest, w.db, s) || s.faults.anchors || w.db.anchored || !Claimable(w.db, s)
    || (Readable(s) && (w.intents != [] || w.pinned != []))
    || (Readable(s) && !Recorded(w.db, s) && !s.faults.tip && s.tip == None)
  }

  /** Where an adoption flag is passed over. */
  predicate AdoptDefers(digest: Digest, w: World, s: Start) {
    !Inspected(digest, w.db, s) || (Readable(s) && (w.intents != [] || w.pinned != []))
  }

  /**
   An existing database is returned through verification exactly when it is
   current, the verifier accepts it, it can be opened, and no flag of the start
   still applies to it.
   */
  lemma VerifiedIff(digest: Digest, w: World, s: Start)
    requires w.db != Absent
    ensures Open(digest, w, s).outcome == Opened(Verified) <==>
            && Ready(s) && Verifies(w, s)
            && (s.flags.resetTip != "" ==> ResetDefers(digest, w, s)) && (s.flags.adoptID > 0 ==> AdoptDefers(digest, w, s))
    ensures Open(digest, w, s).outcome == Opened(Verified) ==> Final(digest, w, s) == w
  {
    hide ResumeReset, AdoptGenesis, ResetDefers, AdoptDefers;
    ResetDefersIff(digest, w, s);
    AdoptDefersIff(digest, w, s);
  }

  lemma RecordedIs(db: Database, s: Start)
    requires db.Current?
    ensures Recorded(db, s) <==>
            HeadOf(db.actions).id == 1 && !s.faults.sole && db.actions != [] && IsResetAck(db.actions[0])
  {
    hide HeadOf;
  }

  lemma ResetDefersIff(digest: Digest, w: World, s: Start)
    ensures ResumeReset(digest, w, s).Defer? <==> ResetDefers(digest, w, s)
    ensures ResumeReset(digest, w, s).Done? ==>
              ResumeReset(digest, w, s).outcome.Refused? || ResumeReset(digest, w, s).outcome.via in {ResetAccepted, ResetResumed}
  {
    hide WellLinked, HeadOf, IsResetAck, Recorded, RecordReset;
    if w.db.Current? {
      RecordedIs(w.db, s);
      if s.tip.Some? { RecordResetVia(digest, w, w.db.actions, s.tip.value, s.now); }
    }
  }

  lemma RecordResetVia(digest: Digest, w: World, actions: seq<Action>, tip: Tip, now: int)
    ensures var r := RecordReset(digest, w, [], actions, tip, now); r.outcome.Refused? || r.outcome == Opened(ResetAccepted)
  {
  }

  lemma AdoptDefersIff(digest: Digest, w: World, s: Start)
    ensures AdoptGenesis(digest, w, s).Defer? <==> AdoptDefers(digest, w, s)
    ensures AdoptGenesis(digest, w, s).Done? ==>
              || AdoptGenesis(digest, w, s).outcome.Refused?
              || AdoptGenesis(digest, w, s).outcome.via in {AdoptionApplied, AdoptionResumed}
  {
    hide WellLinked, IsAdoptAck;
  }

  /** A database that appears during a fresh start is returned, unless a reset takes it, exactly when it verifies. */
  lemma AppearedIff(digest: Digest, w: World, s: Start)
    requires w.db == Absent
    ensures Open(digest, w, s).outcome == Opened(Verified) <==>
            && Fresh(w, s) && s.appeared.Some? && Verifies(w.(db := s.appeared.value), s) && NothingToReset(s)
    ensures Open(digest, w, s).outcome == Opened(Verified) ==> Final(digest, w, s) == w.(db := s.appeared.value)
  {
  }

  // ---------------------------------------------------------------- reset

  /** Action 1 of a chain that replaces the one ending in `tip`. */
  function ResetRecord(digest: Digest, tip: Tip, now: int): Action {
    var spec := Spec("operator", "witness-chain.reset-accepted", "audit-witness-chain", tip.uuid,
                     ResetJson(ResetDetails(tip, "--accept-witness-chain-reset")));
    Action(1, spec, GENESIS_SHA, digest(1, GENESIS_SHA, spec, now), now)
  }

  lemma ResetRecordIs(digest: Digest, tip: Tip, now: int)
    ensures Link(digest, [], ResetSpec(tip), now) == ResetRecord(digest, tip, now)
  {
  }

  /** The reset applies to the existing database. */
  predicate ResetApplies(digest: Digest, w: World, s: Start) {
    && Ready(s) && Readable(s) && Inspected(digest, w.db, s) && !s.faults.anchors && !w.db.anchored
    && w.intents == [] && w.pinned == [] && Acknowledged(s) && !s.faults.open
  }

  /** The empty database a reset can record its acknowledgment in: a new one, one that appeared, or the existing one. */
  predicate Recordable(digest: Digest, w: World, s: Start) {
    || (Fresh(w, s) && Acknowledged(s) && s.appeared == None && !s.faults.init)
    || (&& Fresh(w, s) && Acknowledged(s) && s.appeared.Some? && Verifies(w.(db := s.appeared.value), s)
        && s.appeared.value.actions == [])
    || (w.db != Absent && ResetApplies(digest, w, s) && w.db.actions == [])
  }

  /** A reset is accepted exactly there, and then the acknowledgment with the tip's own details is the only action. */
  lemma ResetAcceptedIff(digest: Digest, w: World, s: Start)
    requires s.appeared.Some? && s.appeared.value.Current? ==> OrderedRows(s.appeared.value.actions)
    ensures Open(digest, w, s).outcome == Opened(ResetAccepted) <==> Recordable(digest, w, s) && s.now > 0
    ensures Open(digest, w, s).outcome == Opened(ResetAccepted) ==>
              var after := Final(digest, w, s);
              && after.db.Current? && after.db.actions == [ResetRecord(digest, s.tip.value, s.now)]
              && after.intents == w.intents && after.pinned == w.pinned
  {
    if w.db == Absent {
      FreshResetIff(digest, w, s);
    } else {
      ExistingResetIff(digest, w, s);
    }
  }

  lemma FreshResetIff(digest: Digest, w: World, s: Start)
    requires w.db == Absent
    requires s.appeared.Some? && s.appeared.value.Current? ==> OrderedRows(s.appeared.value.actions)
    ensures Open(digest, w, s).outcome == Opened(ResetAccepted) <==> Recordable(digest, w, s) && s.now > 0
    ensures Open(digest, w, s).outcome == Opened(ResetAccepted) ==>
              var after := Final(digest, w, s);
              && after.db.Current? && after.db.actions == [ResetRecord(digest, s.tip.value, s.now)]
              && after.intents == w.intents && after.pinned == w.pinned
  {
    hide ResetRecord, ResetSpec, Link;
    ApplyTwo(digest, w, CreateFile, Initialize);
    if s.tip.Some? {
      var write := Append(ResetSpec(s.tip.value), s.now);
      ResetRecordIs(digest, s.tip.value, s.now);
      ApplyThree(digest, w, CreateFile, Initialize, write);
      assert [CreateFile, Initialize] + [write] == [CreateFile, Initialize, write] && [] + [write] == [write];
      if s.appeared.Some? { ApplyOne(digest, w.(db := s.appeared.value), write); }
    }
  }

  lemma ExistingResetIff(digest: Digest, w: World, s: Start)
    requires w.db != Absent
    ensures Open(digest, w, s).outcome == Opened(ResetAccepted) <==> ResetApplies(digest, w, s) && w.db.actions == [] && s.now > 0
    ensures Open(digest, w, s).outcome == Opened(ResetResumed) <==>
            && ResetApplies(digest, w, s) && Recorded(w.db, s) && w.db.actions[0].spec.resourceID == s.flags.resetTip
    ensures Open(digest, w, s).outcome == Opened(ResetAccepted) ==>
              Final(digest, w, s) == w.(db := w.db.(actions := [ResetRecord(digest, s.tip.value, s.now)]))
    ensures Open(digest, w, s).outcome == Opened(ResetResumed) ==> Final(digest, w, s) == w
  {
    hide ResumeReset, AdoptGenesis, ResetApplies, Recorded, ResetRecord;
    AdoptDefersIff(digest, w, s);
    ResumeIff(digest, w, s);
  }

  lemma ResumeIff(digest: Digest, w: World, s: Start)
    ensures var step := ResumeReset(digest, w, s);
            && (Ready(s) && s.flags.Reset() && step.Done? && step.outcome == Opened(ResetAccepted) <==>
                ResetApplies(digest, w, s) && w.db.actions == [] && s.now > 0)
            && (Ready(s) && s.flags.Reset() && step.Done? && step.outcome == Opened(ResetResumed) <==>
                ResetApplies(digest, w, s) && Recorded(w.db, s) && w.db.actions[0].spec.resourceID == s.flags.resetTip)
            && (ResetApplies(digest, w, s) && w.db.actions == [] && s.now > 0 ==>
                ApplyAll(digest, w, step.writes) == w.(db := w.db.(actions := [ResetRecord(digest, s.tip.value, s.now)])))
            && (step.Done? && step.outcome == Opened(ResetResumed) ==> step.writes == [])
  {
    hide IsResetAck, Recorded, ResetRecord, ResetSpec, Link;
    if w.db.Current? {
      RecordedIs(w.db, s);
      assert WellLinked(digest, w.db.actions) ==> HeadOf(w.db.actions).id == |w.db.actions|;
      if s.tip.Some? {
        var write := Append(ResetSpec(s.tip.value), s.now);
        assert [] + [write] == [write];
        ApplyOne(digest, w, write);
        ResetRecordIs(digest, s.tip.value, s.now);
        var record := ResetRecord(digest, s.tip.value, s.now);
        assert w.db.actions == [] ==> w.db.actions + [record] == [record];
      }
    }
  }

  // ---------------------------------------------------------------- adoption

  lemma {:induction false} HexInjective(a: Sha, b: Sha)
    requires Hex(a) == Hex(b)
    ensures a == b
    decreases |a|
  {
    HexLength(a);
    HexLength(b);
    if a != [] {
      var x, y := a[0] as int, b[0] as int;
      assert Hex(a)[0] == HexDigit(x / 16) && Hex(a)[1] == HexDigit(x % 16) && Hex(a)[2..] == Hex(a[1..]);
      assert Hex(b)[0] == HexDigit(y / 16) && Hex(b)[1] == HexDigit(y % 16) && Hex(b)[2..] == Hex(b[1..]);
      DigitInjective(x / 16, y / 16);
      DigitInjective(x % 16, y % 16);
      HexInjective(a[1..], b[1..]);
      assert a == [a[0]] + a[1..] && b == [b[0]] + b[1..];
    }
  }

  lemma DigitInjective(m: int, n: int)
    requires 0 <= m < 16 && 0 <= n < 16 && HexDigit(m) == HexDigit(n)
    ensures m == n
  {
  }

  lemma {:induction false} HexLength(a: Sha)
    ensures |Hex(a)| == 2 * |a|
    decreases |a|
  {
    if a != [] { HexLength(a[1..]); }
  }

  predicate TailIsAck(db: Database)
    requires db.Current?
  {
    && db.actions != []
    && var spec := db.actions[|db.actions| - 1].spec;
       spec.action == "witness-genesis.adopted" && spec.resourceType == "audit-witness-chain"
  }

  /** Adoption is asked for and nothing external, public or signed stands against it. */
  predicate AdoptionOpen(digest: Digest, w: World, s: Start) {
    && Ready(s) && Readable(s) && s.flags.adoptID > 0 && Inspected(digest, w.db, s) && w.intents == [] && w.pinned == []
    && !s.faults.anchors && !w.db.anchored && !s.faults.tip && s.tip == None && !s.faults.open
  }

  /** The acknowledgment of the prefix that ends in action `id` with hash `sha`. */
  function AdoptRecord(digest: Digest, id: int, sha: Sha, now: int): Action {
    var spec := Spec("operator", "witness-genesis.adopted", "audit-witness-chain", Hex(sha),
                     AdoptJson(AdoptDetails(id, Hex(sha), "--accept-witness-genesis")));
    Action(id + 1, spec, sha, digest(id + 1, sha, spec, now), now)
  }

  /** The flag names the recorded baseline, or the acknowledgment itself. */
  predicate NamesRecorded(f: Flags, tail: Action) {
    ParseAdopt(tail.spec.details).Some? &&
    var recorded := ParseAdopt(tail.spec.details).value;
    || (recorded.baselineID == f.adoptID && recorded.baselineHex == Hex(f.adoptSha))
    || (tail.id == f.adoptID && tail.sha == f.adoptSha)
  }

  /**
   A fresh adoption succeeds exactly when the flag names the current head and
   that is no acknowledgment the start could read; then the acknowledgment is the
   next action and the only intent binds it.
   */
  lemma AdoptionAppliedIff(digest: Digest, w: World, s: Start)
    ensures Open(digest, w, s).outcome == Opened(AdoptionApplied) <==>
            && AdoptionOpen(digest, w, s) && (s.faults.tail || !TailIsAck(w.db))
            && HeadOf(w.db.actions) == Head(s.flags.adoptID, s.flags.adoptSha) && s.now > 0
    ensures Open(digest, w, s).outcome == Opened(AdoptionApplied) ==>
              var ack := AdoptRecord(digest, s.flags.adoptID, s.flags.adoptSha, s.now);
              Final(digest, w, s) ==
              World(w.db.(actions := w.db.actions + [ack]), [Intent(1, s.flags.adoptID + 1, ack.sha, "")], [])
  {
    AdoptionIff(digest, w, s);
  }

  /** A recorded acknowledgment is resumed exactly under a flag that names its baseline or itself. */
  lemma AdoptionResumedIff(digest: Digest, w: World, s: Start)
    ensures Open(digest, w, s).outcome == Opened(AdoptionResumed) <==>
            && AdoptionOpen(digest, w, s) && !s.faults.tail && TailIsAck(w.db)
            && NamesRecorded(s.flags, w.db.actions[|w.db.actions| - 1])
    ensures Open(digest, w, s).outcome == Opened(AdoptionResumed) ==>
              var tail := w.db.actions[|w.db.actions| - 1];
              Final(digest, w, s) == World(w.db, [Intent(1, tail.id, tail.sha, "")], [])
  {
    AdoptionIff(digest, w, s);
  }

  /** In particular, what was recorded for `n:h` is resumed only under `n:h` or the acknowledgment's own head. */
  lemma OtherFlagDoesNotResume(digest: Digest, w: World, s: Start, n: int, h: Sha, note: string)
    requires w.db.Current? && w.db.actions != []
    requires w.db.actions[|w.db.actions| - 1].spec.details == AdoptJson(AdoptDetails(n, Hex(h), note))
    requires Open(digest, w, s).outcome == Opened(AdoptionResumed)
    ensures var tail := w.db.actions[|w.db.actions| - 1];
            (s.flags.adoptID, s.flags.adoptSha) in {(n, h), (tail.id, tail.sha)}
  {
    hide Open;
    AdoptionResumedIff(digest, w, s);
    if Hex(h) == Hex(s.flags.adoptSha) { HexInjective(h, s.flags.adoptSha); }
  }

  lemma AdoptionIff(digest: Digest, w: World, s: Start)
    ensures Open(digest, w, s).outcome == Opened(AdoptionApplied) <==>
            && AdoptionOpen(digest, w, s) && (s.faults.tail || !TailIsAck(w.db))
            && HeadOf(w.db.actions) == Head(s.flags.adoptID, s.flags.adoptSha) && s.now > 0
    ensures Open(digest, w, s).outcome == Opened(AdoptionResumed) <==>
            && AdoptionOpen(digest, w, s) && !s.faults.tail && TailIsAck(w.db)
            && NamesRecorded(s.flags, w.db.actions[|w.db.actions| - 1])
    ensures Open(digest, w, s).outcome == Opened(AdoptionApplied) ==>
              var ack := AdoptRecord(digest, s.flags.adoptID, s.flags.adoptSha, s.now);
              Final(digest, w, s) ==
              World(w.db.(actions := w.db.actions + [ack]), [Intent(1, s.flags.adoptID + 1, ack.sha, "")], [])
    ensures Open(digest, w, s).outcome == Opened(AdoptionResumed) ==>
              var tail := w.db.actions[|w.db.actions| - 1];
              Final(digest, w, s) == World(w.db, [Intent(1, tail.id, tail.sha, "")], [])
  {
    hide ResumeReset, AdoptGenesis, AdoptionOpen, TailIsAck, NamesRecorded, AdoptRecord, OpenFresh;
    ResetDefersIff(digest, w, s);
    AdoptStepIff(digest, w, s);
    FreshVia(digest, w, s);
  }

  lemma FreshVia(digest: Digest, w: World, s: Start)
    ensures OpenFresh(digest, w, s).outcome.Refused? || OpenFresh(digest, w, s).outcome.via in {Genesis, Verified, ResetAccepted}
  {
    ApplyTwo(digest, w, CreateFile, Initialize);
  }

  lemma AdoptStepIff(digest: Digest, w: World, s: Start)
    ensures var step := AdoptGenesis(digest, w, s);
            && (Ready(s) && s.flags.Adopt() && step.Done? && step.outcome == Opened(AdoptionApplied) <==>
                && AdoptionOpen(digest, w, s) && (s.faults.tail || !TailIsAck(w.db))
                && HeadOf(w.db.actions) == Head(s.flags.adoptID, s.flags.adoptSha) && s.now > 0)
            && (Ready(s) && s.flags.Adopt() && step.Done? && step.outcome == Opened(AdoptionResumed) <==>
                && AdoptionOpen(digest, w, s) && !s.faults.tail && TailIsAck(w.db)
                && NamesRecorded(s.flags, w.db.actions[|w.db.actions| - 1]))
            && (step.Done? && step.outcome == Opened(AdoptionApplied) ==>
                var ack := AdoptRecord(digest, s.flags.adoptID, s.flags.adoptSha, s.now);
                && w.db.Current? && ApplyAll(digest, w, step.writes) ==
                   World(w.db.(actions := w.db.actions + [ack]), [Intent(1, s.flags.adoptID + 1, ack.sha, "")], []))
            && (step.Done? && step.outcome == Opened(AdoptionResumed) ==>
                && w.db.Current? && w.db.actions != []
                && var tail := w.db.actions[|w.db.actions| - 1];
                   ApplyAll(digest, w, step.writes) == World(w.db, [Intent(1, tail.id, tail.sha, "")], []))
  {
    hide FreshAdoption, ResumeAdoption, AdoptRecord, NamesRecorded, IsAdoptAck;
    if w.db.Current? {
      TailIs(w.db);
      FreshStepIff(digest, w, s);
      if w.db.actions != [] { ResumeStepIff(digest, w, s, w.db.actions[|w.db.actions| - 1]); }
    }
  }

  lemma TailIs(db: Database)
    requires db.Current?
    ensures TailIsAck(db) <==> db.actions != [] && IsAdoptAck(db.actions[|db.actions| - 1])
  {
  }

  lemma FreshStepIff(digest: Digest, w: World, s: Start)
    requires w.db.Current?
    ensures var step := FreshAdoption(digest, w, s);
            && step.outcome != Opened(AdoptionResumed)
            && (WellLinked(digest, w.db.actions) ==>
                (step.outcome == Opened(AdoptionApplied) <==>
                 && !s.faults.anchors && !w.db.anchored && !s.faults.tip && s.tip == None && !s.faults.open
                 && HeadOf(w.db.actions) == Head(s.flags.adoptID, s.flags.adoptSha) && s.now > 0))
            && (step.outcome == Opened(AdoptionApplied) && w.intents == [] && w.pinned == [] ==>
                var ack := AdoptRecord(digest, s.flags.adoptID, s.flags.adoptSha, s.now);
                ApplyAll(digest, w, step.writes) ==
                World(w.db.(actions := w.db.actions + [ack]), [Intent(1, s.flags.adoptID + 1, ack.sha, "")], []))
  {
    hide Hex;
    var spec := AdoptSpec(s.flags.adoptID, s.flags.adoptSha);
    if WellLinked(digest, w.db.actions) { LinkKeepsChain(digest, w.db.actions, spec, s.now); }
    ApplyTwo(digest, w, Append(spec, s.now), Prepare(GenesisIntent(Link(digest, w.db.actions, spec, s.now))));
  }

  lemma ResumeStepIff(digest: Digest, w: World, s: Start, tail: Action)
    requires w.db.Current?
    ensures var step := ResumeAdoption(w, s, tail);
            && step.outcome != Opened(AdoptionApplied)
            && (step.outcome == Opened(AdoptionResumed) <==>
                && NamesRecorded(s.flags, tail)
                && !s.faults.anchors && !w.db.anchored && !s.faults.tip && s.tip == None && !s.faults.open)
            && (step.outcome == Opened(AdoptionResumed) && w.intents == [] && w.pinned == [] ==>
                ApplyAll(digest, w, step.writes) == World(w.db, [Intent(1, tail.id, tail.sha, "")], []))
  {
    hide Hex;
    ApplyOne(digest, w, Prepare(GenesisIntent(tail)));
  }

  // ---------------------------------------------------------------- migration

  /**
   A legacy database is migrated exactly when its head, the intents and the
   completions can be read, nothing was completed, and the intents are none or
   the one for its exact head; a missing intent for a nonempty chain comes first.
   */
  lemma MigratesIff(digest: Digest, w: World, s: Start)
    ensures Migrate in Open(digest, w, s).writes <==>
            && Ready(s) && Readable(s) && !s.faults.inspect && !s.faults.legacy && w.db.LegacyV1? && w.pinned == []
            && (w.intents == [] || w.intents == [Intent(1, w.db.legacyHead.id, w.db.legacyHead.sha, "")])
    ensures Migrate in Open(digest, w, s).writes ==>
              var head := w.db.legacyHead;
              && Open(digest, w, s).outcome.Refused?
              && Final(digest, w, s) ==
                 World(SchemaV2(head), if w.intents == [] && head.id > 0 then [Intent(1, head.id, head.sha, "")] else w.intents, [])
  {
    if w.db.LegacyV1? {
      ApplyOne(digest, w, Migrate);
      ApplyTwo(digest, w, Prepare(LegacyIntent(w.db.legacyHead)), Migrate);
      assert |w.intents| == 1 ==> w.intents == [w.intents[0]];
    } else {
      OnlyLegacyMigrates(digest, w, s);
    }
  }

  // ---------------------------------------------------------------- what a refusal says

  /** The chain that a start without, or with, a database that appeared ends up looking at. */
  function Seen(w: World, s: Start): Database { if w.db == Absent && s.appeared.Some? then s.appeared.value else w.db }

  /** What each reason tells the operator. */
  predicate Tells(digest: Digest, w: World, s: Start, why: Refusal) {
    match why
    case NoExternalWitness => (s.flags.resetTip != "" || s.flags.adoptID > 0) && !s.flags.rekor
    case FlagsExclusive => s.flags.resetTip != "" && s.flags.adoptID > 0
    case Unstattable => s.faults.lstat
    case SchemaRefused => s.faults.inspect || !Seen(w, s).Current?
    case VerifierRefused => !s.verdict(w.(db := Seen(w, s)))
    case OpenFailed => s.faults.open
    case GenesisFailed => w.db == Absent && s.appeared == None && s.faults.init
    case AppendFailed => s.now <= 0 || (Seen(w, s).Current? && !CanAppend(digest, Seen(w, s).actions, s.now))
    case AdoptionNeedsHistory => w.db == Absent && s.flags.adoptID > 0
    case ContinuityUnreadable => s.faults.intents || s.faults.pinned
    case RollbackEvidence => w.db == Absent && (w.intents != [] || w.pinned != [])
    case TipUnreadable => s.faults.tip
    case TipMismatch => s.flags.resetTip != "" && s.tip.Some? && s.tip.value.uuid != s.flags.resetTip
    case TipVanished => w.db.Current? && Recorded(w.db, s) && s.tip == None
    case OtherTipRecorded => w.db.Current? && Recorded(w.db, s) && w.db.actions[0].spec.resourceID != s.flags.resetTip
    case NotFirstAction => w.db == Absent && Seen(w, s).Current? && HeadOf(Seen(w, s).actions).id != 0
    case DetailsMalformed => w.db.Current? && TailIsAck(w.db) && ParseAdopt(w.db.actions[|w.db.actions| - 1].spec.details) == None
    case OtherBaselineRecorded => w.db.Current? && TailIsAck(w.db) && !NamesRecorded(s.flags, w.db.actions[|w.db.actions| - 1])
    case Checkpointed => w.db.Current? && w.db.anchored
    case AnchorsUnreadable => s.faults.anchors
    case HeadNotAcknowledged => w.db.Current? && HeadOf(w.db.actions) != Head(s.flags.adoptID, s.flags.adoptSha)
    case PublicHistory => s.flags.adoptID > 0 && s.tip.Some?
    case ChainAdvanced => false
    case LegacyUnreadable => w.db.LegacyV1? && s.faults.legacy
    case LegacyEvidence => w.db.LegacyV1? && (w.pinned != [] || |w.intents| > 1)
    case LegacyIntentMismatch =>
      w.db.LegacyV1? && |w.intents| == 1 && w.intents[0] != Intent(1, w.db.legacyHead.id, w.db.legacyHead.sha, "")
    case MigratedNeedsReplace => Migrate in Open(digest, w, s).writes
  }

  lemma RefusalTells(digest: Digest, w: World, s: Start)
    requires Open(digest, w, s).outcome.Refused?
    ensures Tells(digest, w, s, Open(digest, w, s).outcome.why)
  {
    hide ResumeReset, AdoptGenesis, OpenFresh, Recorded, TailIsAck, NamesRecorded, CanAppend;
    if w.db == Absent {
      FreshTells(digest, w, s);
    } else if Ready(s) {
      if s.flags.Reset() && ResumeReset(digest, w, s).Done? {
        ResetTells(digest, w, s);
      } else if s.flags.Adopt() && AdoptGenesis(digest, w, s).Done? {
        AdoptTells(digest, w, s);
      }
    }
  }

  lemma FreshTells(digest: Digest, w: World, s: Start)
    requires w.db == Absent && Open(digest, w, s).outcome.Refused?
    ensures Tells(digest, w, s, Open(digest, w, s).outcome.why)
  {
    hide Recorded, TailIsAck, NamesRecorded, ResumeReset, AdoptGenesis, ResetSpec, OpenExisting, Hex;
    ApplyTwo(digest, w, CreateFile, Initialize);
  }

  lemma ResetTells(digest: Digest, w: World, s: Start)
    requires w.db != Absent && s.flags.Reset() && ResumeReset(digest, w, s).Done? && ResumeReset(digest, w, s).outcome.Refused?
    ensures Tells(digest, w, s, ResumeReset(digest, w, s).outcome.why)
  {
    RecordedIs(w.db, s);
  }

  lemma AdoptTells(digest: Digest, w: World, s: Start)
    requires w.db != Absent && s.flags.Adopt() && AdoptGenesis(digest, w, s).Done? && AdoptGenesis(digest, w, s).outcome.Refused?
    ensures Tells(digest, w, s, AdoptGenesis(digest, w, s).outcome.why)
  {
    hide Hex;
    TailIs(w.db);
  }
}
