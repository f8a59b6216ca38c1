/** Properties of every run: starts that may crash anywhere, and what happens between them. */
module StartupRuns {
  import opened AuditChain
  import opened Startup
  import opened StartupCrash

  // ---------------------------------------------------------------- external evidence

  /** Intents and completions are immutable: no write removes one. */
  lemma {:induction false} WritesKeepEvidence(digest: Digest, w: World, writes: seq<Write>)
    ensures w.intents <= ApplyAll(digest, w, writes).intents
    ensures ApplyAll(digest, w, writes).pinned == w.pinned
    decreases |writes|
  {
    if writes != [] {
      WritesKeepEvidence(digest, w, writes[..|writes| - 1]);
    }
  }

  lemma OpenKeepsEvidence(digest: Digest, w: World, s: Start)
    ensures Open(digest, w, s).base.(db := w.db) == w
  {
  }

  lemma StepKeepsEvidence(digest: Digest, w: World, e: Event)
    requires w.Evidence()
    ensures Next(digest, w, e).Evidence()
  {
    if e.Begin? {
      var r := Open(digest, w, e.s);
      OpenKeepsEvidence(digest, w, e.s);
      WritesKeepEvidence(digest, r.base, Prefix(r.writes, e.cut));
    }
  }

  lemma {:induction false} RunKeepsEvidence(digest: Digest, w: World, events: seq<Event>)
    requires w.Evidence()
    ensures Run(digest, w, events).Evidence()
    decreases |events|
  {
    if events != [] {
      StepKeepsEvidence(digest, w, events[0]);
      RunKeepsEvidence(digest, Next(digest, w, events[0]), events[1..]);
    }
  }

  /**
   Rollback protection.  Once any intent or completion exists, no later start
   creates a database, whatever happens in between; the run may delete the
   database or replace it by any other.
   */
  lemma NoGenesisAfterEvidence(digest: Digest, w: World, events: seq<Event>, s: Start)
    requires w.Evidence()
    ensures var r := Open(digest, Run(digest, w, events), s);
            CreateFile !in r.writes && Initialize !in r.writes && r.outcome != Opened(Genesis)
    ensures Run(digest, w, events).db.Absent? ==> Open(digest, Run(digest, w, events), s).outcome.Refused?
  {
    RunKeepsEvidence(digest, w, events);
    var now := Run(digest, w, events);
    if now.db.Absent? {
      assert OpenFresh(digest, now, s).outcome.Refused? && OpenFresh(digest, now, s).writes == [];
    } else {
      ExistingNeverCreates(digest, now, s);
    }
  }

  lemma ExistingNeverCreates(digest: Digest, w: World, s: Start)
    requires !w.db.Absent?
    ensures var r := Open(digest, w, s);
            CreateFile !in r.writes && Initialize !in r.writes && r.outcome != Opened(Genesis)
  {
    if s.flags.Reset() && ResumeReset(digest, w, s).Done? {
      ResumeWrites(digest, w, s);
    } else if s.flags.Adopt() && AdoptGenesis(digest, w, s).Done? {
      AdoptWrites(digest, w, s);
    }
  }

  lemma ResumeWrites(digest: Digest, w: World, s: Start)
    requires ResumeReset(digest, w, s).Done?
    ensures var step := ResumeReset(digest, w, s);
            && (step.writes == [] || (step.writes == [Append(ResetSpec(s.tip.value), s.now)] && s.tip.Some?))
            && step.outcome != Opened(Genesis)
  {
  }

  /** Everything an adoption path can write; a refusal writes nothing. */
  lemma AdoptWrites(digest: Digest, w: World, s: Start)
    requires AdoptGenesis(digest, w, s).Done?
    ensures w.db.Current? && WellLinked(digest, w.db.actions)
    ensures var step := AdoptGenesis(digest, w, s);
            var actions := w.db.actions;
            var spec := AdoptSpec(s.flags.adoptID, s.flags.adoptSha);
            && step.outcome != Opened(Genesis) && (step.outcome.Refused? ==> step.writes == [])
            && (|| step.writes == []
                || (&& actions != [] && !w.Evidence() && IsAdoptAck(actions[|actions| - 1])
                    && step.writes == [Prepare(GenesisIntent(actions[|actions| - 1]))])
                || (&& HeadOf(actions) == Head(s.flags.adoptID, s.flags.adoptSha) && !w.Evidence()
                    && step.writes == [Append(spec, s.now), Prepare(GenesisIntent(Link(digest, actions, spec, s.now)))]))
  {
  }

  /** The flags by themselves are no reason to refuse. */
  predicate FlagsAccepted(f: Flags) { (f.Reset() || f.Adopt() ==> f.rekor) && !(f.Reset() && f.Adopt()) }

  /** A flagged start reads the external evidence itself: for an adoption always, for a reset on a chain it could claim. */
  predicate ReadsEvidence(digest: Digest, w: World, s: Start) {
    && !s.faults.flagInspect && w.db.Current? && LocallyVerified(digest, w.db, s.faults)
    && (|| s.flags.Adopt()
        || (&& s.flags.Reset() && !s.faults.anchors && !w.db.anchored
            && (|| HeadOf(w.db.actions).id == 0
                || (HeadOf(w.db.actions).id == 1 && !s.faults.sole && w.db.actions != [] && IsResetAck(w.db.actions[0])))))
  }

  /**
   Stale flags.  With external evidence and a database present, a start with a
   one-shot flag does exactly what a start without one does, except when its
   flags are refused as such, or when it has to read the evidence first and
   cannot; then it is refused and writes nothing.
   */
  lemma StaleFlagIsIgnored(digest: Digest, w: World, s: Start)
    requires w.Evidence() && !w.db.Absent?
    ensures var r := Open(digest, w, s);
            var plain := Open(digest, w, s.(flags := Flags("", 0, [], s.flags.rekor)));
            && (r != plain <==>
                || !FlagsAccepted(s.flags)
                || (!s.faults.lstat && (s.faults.intents || s.faults.pinned) && ReadsEvidence(digest, w, s)))
            && (r != plain ==> r.base == w && r.writes == [] && r.outcome.Refused?)
  {
  }

  // ---------------------------------------------------------------- legacy migration

  /** The one plan: an intent for exactly the v1 head unless it is there or the chain is empty, then the migration. */
  function LegacyPlan(w: World): seq<Write> {
    if !w.db.LegacyV1? || w.pinned != [] then []
    else
      var intent := Intent(1, w.db.legacyHead.id, w.db.legacyHead.sha, "");
      if w.intents == [intent] then [Migrate]
      else if w.intents != [] then []
      else if w.db.legacyHead.id > 0 then [Prepare(intent), Migrate]
      else [Migrate]
  }

  /** The durable writes of a whole run of starts. */
  function Trace(digest: Digest, w: World, events: seq<Event>): seq<Write>
    decreases |events|
  {
    if events == [] then []
    else
      var e := events[0];
      (if e.Begin? then Prefix(Open(digest, w, e.s).writes, e.cut) else []) +
      Trace(digest, Next(digest, w, e), events[1..])
  }

  lemma LegacyStart(digest: Digest, w: World, s: Start)
    requires w.db.LegacyV1? || w.db.SchemaV2?
    ensures var r := Open(digest, w, s);
            r.base == w && r.outcome.Refused? && (r.writes == [] || r.writes == LegacyPlan(w))
  {
  }

  lemma LegacyStep(digest: Digest, w: World, s: Start, cut: nat)
    requires w.db.LegacyV1? || w.db.SchemaV2?
    ensures var done := Prefix(Open(digest, w, s).writes, cut);
            var after := Next(digest, w, Begin(s, cut));
            && (after.db.LegacyV1? || after.db.SchemaV2?)
            && done + LegacyPlan(after) == LegacyPlan(w)
  {
    LegacyStart(digest, w, s);
    var r := Open(digest, w, s);
    if r.writes != [] && cut > 0 {
      var intent := LegacyIntent(w.db.legacyHead);
      ApplyOne(digest, w, Prepare(intent));
      ApplyOne(digest, w, Migrate);
      ApplyTwo(digest, w, Prepare(intent), Migrate);
      assert cut < |r.writes| ==> r.writes[..cut] == [Prepare(intent)];
    } else {
      assert Prefix(r.writes, cut) == [];
    }
  }

  /**
   Legacy migration over every run of starts and crashes, whatever flags and
   failures: together the starts write a prefix of one fixed plan, so at most
   one intent is ever prepared and the database is migrated at most once; and
   no start returns a database.
   */
  lemma {:induction false} LegacyRunFollowsOnePlan(digest: Digest, w: World, events: seq<Event>, s: Start)
    requires w.db.LegacyV1? || w.db.SchemaV2?
    requires forall e | e in events :: e.Begin?
    ensures Trace(digest, w, events) <= LegacyPlan(w)
    ensures Open(digest, Run(digest, w, events), s).outcome.Refused?
    decreases |events|
  {
    if events == [] {
      LegacyStart(digest, w, s);
    } else {
      var e := events[0];
      LegacyStep(digest, w, e.s, e.cut);
      LegacyRunFollowsOnePlan(digest, Next(digest, w, e), events[1..], s);
    }
  }

  /** A migration runs only from an empty head without intents, or under the sole intent binding the v1 head. */
  lemma MigrationIsBound(digest: Digest, w: World, s: Start, j: nat)
    requires j < |Open(digest, w, s).writes| && Open(digest, w, s).writes[j] == Migrate
    ensures var before := ApplyAll(digest, w, Open(digest, w, s).writes[..j]);
            && before.db.LegacyV1? && before.db == w.db && before.pinned == []
            && (|| before.intents == [Intent(1, w.db.legacyHead.id, w.db.legacyHead.sha, "")]
                || (before.intents == [] && w.db.legacyHead.id <= 0))
  {
    if w.db.LegacyV1? {
      LegacyStart(digest, w, s);
      var writes := Open(digest, w, s).writes;
      ApplyOne(digest, w, Prepare(LegacyIntent(w.db.legacyHead)));
      if j == 0 {
        assert writes[..j] == [];
      } else {
        assert writes[..j] == [Prepare(LegacyIntent(w.db.legacyHead))];
      }
    } else {
      OnlyLegacyMigrates(digest, w, s);
    }
  }

  lemma OnlyLegacyMigrates(digest: Digest, w: World, s: Start)
    requires !w.db.LegacyV1?
    ensures Migrate !in Open(digest, w, s).writes
  {
    if !w.db.Absent? {
      hide ResumeReset, AdoptGenesis, OpenFresh;
      if s.flags.Reset() && ResumeReset(digest, w, s).Done? {
        ResumeWrites(digest, w, s);
      } else if s.flags.Adopt() && AdoptGenesis(digest, w, s).Done? {
        AdoptWrites(digest, w, s);
      }
    }
  }

  // ---------------------------------------------------------------- refusals

  /** A fresh reset that gets as far as its acknowledgment. */
  predicate ResetReached(w: World, s: Start) {
    w.db.Absent? && !w.Evidence() && !s.flags.Adopt() && Claims(s) && !s.faults.tip
  }

  /**
   The starts that write and still refuse: a legacy database is migrated, a
   reset creates the database under a clock that no action accepts, or it
   appends to a database that appeared meanwhile and already has actions.
   */
  predicate WritesAndRefuses(digest: Digest, w: World, s: Start) {
    && FlagsAccepted(s.flags) && !s.faults.lstat && !s.faults.intents && !s.faults.pinned
    && (|| (!s.faults.inspect && !s.faults.legacy && LegacyPlan(w) != [])
        || (ResetReached(w, s) && s.appeared.None? && !s.faults.init && s.now <= 0)
        || (&& ResetReached(w, s) && s.appeared.Some? && s.appeared.value.Current? && HeadOf(s.appeared.value.actions).id != 0
            && VerifyAndOpen(w.(db := s.appeared.value), s).Opened? && CanAppend(digest, s.appeared.value.actions, s.now)))
  }

  /** A refusal leaves the durable state as it found it, exactly outside those cases. */
  lemma RefusalsChangeNothing(digest: Digest, w: World, s: Start)
    ensures var r := Open(digest, w, s);
            r.outcome.Refused? && Final(digest, w, s) != r.base <==> WritesAndRefuses(digest, w, s)
  {
    var r := Open(digest, w, s);
    if w.db.Absent? {
      FreshRefusals(digest, w, s);
    } else if w.db.LegacyV1? {
      LegacyRefusals(digest, w, s);
    } else if w.db.Current? {
      CurrentRefusals(digest, w, s);
    }
  }

  lemma LegacyRefusals(digest: Digest, w: World, s: Start)
    requires w.db.LegacyV1?
    ensures var r := Open(digest, w, s);
            r.outcome.Refused? && Final(digest, w, s) != r.base <==> WritesAndRefuses(digest, w, s)
  {
    LegacyStart(digest, w, s);
    ApplyOne(digest, w, Migrate);
    ApplyTwo(digest, w, Prepare(LegacyIntent(w.db.legacyHead)), Migrate);
    assert |w.intents| == 1 ==> w.intents == [w.intents[0]];
  }

  lemma CurrentRefusals(digest: Digest, w: World, s: Start)
    requires w.db.Current?
    ensures Open(digest, w, s).outcome.Refused? ==> Open(digest, w, s).writes == [] && Open(digest, w, s).base == w
  {
    if s.flags.Reset() && ResumeReset(digest, w, s).Done? {
      ResetRefusals(digest, w, s);
    } else if s.flags.Adopt() && AdoptGenesis(digest, w, s).Done? {
      AdoptWrites(digest, w, s);
    }
  }

  lemma ResetRefusals(digest: Digest, w: World, s: Start)
    requires ResumeReset(digest, w, s).Done?
    ensures ResumeReset(digest, w, s).outcome.Refused? ==> ResumeReset(digest, w, s).writes == []
  {
  }

  lemma FreshRefusals(digest: Digest, w: World, s: Start)
    requires w.db.Absent?
    ensures var r := Open(digest, w, s);
            r.outcome.Refused? && Final(digest, w, s) != r.base <==> WritesAndRefuses(digest, w, s)
  {
    ApplyTwo(digest, w, CreateFile, RemoveFile);
    ApplyTwo(digest, w, CreateFile, Initialize);
    if s.appeared.Some? && s.appeared.value.Current? && s.tip.Some? {
      var base, write := w.(db := s.appeared.value), Append(ResetSpec(s.tip.value), s.now);
      assert [] + [write] == [write];
      ApplyOne(digest, base, write);
    }
  }

  // ---------------------------------------------------------------- adoption

  /** Every start of the run carries the adoption flag `id:sha` or none, alone on its database. */
  predicate FixedFlag(e: Event, id: int, sha: Sha) {
    match e
    case Begin(s, _) => s.appeared.None? && (s.flags.Adopt() ==> s.flags.adoptID == id && s.flags.adoptSha == sha)
    case DaemonAppend(spec, _) => !(spec.action == ADOPT_ACTION && spec.resourceType == CHAIN_RESOURCE)
    case ReplaceDatabase(_) => false
    case _ => true
  }

  /** Every adoption acknowledgment in the chain is action `id + 1` and records the flag. */
  ghost predicate AckOnlyAt(w: World, id: int, sha: Sha) {
    w.db.Current? ==>
      forall i | 0 <= i < |w.db.actions| && IsAdoptAck(w.db.actions[i]) ::
        i == id && w.db.actions[i].id == id + 1 && w.db.actions[i].spec == AdoptSpec(id, sha)
  }

  lemma AppendKeepsAcks(digest: Digest, w: World, spec: Spec, at: int, id: int, sha: Sha)
    requires AckOnlyAt(w, id, sha)
    requires w.db.Current? && spec.action == ADOPT_ACTION && spec.resourceType == CHAIN_RESOURCE ==>
               spec == AdoptSpec(id, sha) && |w.db.actions| == id == HeadOf(w.db.actions).id
    ensures AckOnlyAt(Apply(digest, w, Append(spec, at)), id, sha)
  {
  }

  /** An adoption write is appended only on the acknowledged head. */
  lemma AdoptionStep(digest: Digest, w: World, s: Start, cut: nat, id: int, sha: Sha)
    requires AckOnlyAt(w, id, sha) && FixedFlag(Begin(s, cut), id, sha)
    requires s.flags.Adopt() && AdoptGenesis(digest, w, s).Done?
    ensures AckOnlyAt(ApplyAll(digest, w, Prefix(AdoptGenesis(digest, w, s).writes, cut)), id, sha)
  {
    AdoptWrites(digest, w, s);
    var writes := AdoptGenesis(digest, w, s).writes;
    if writes == [] {
      assert Prefix(writes, cut) == [];
    } else if |writes| == 1 {
      ApplyPrefixOfOne(digest, w, writes[0], cut);
      assert writes == [writes[0]];
    } else {
      LinkKeepsChain(digest, w.db.actions, writes[0].spec, s.now);
      AckWritesKeepAcks(digest, w, writes[0], writes[1], cut, id, sha);
      assert writes == [writes[0], writes[1]];
    }
  }

  lemma AckWritesKeepAcks(digest: Digest, w: World, ack: Write, prepare: Write, cut: nat, id: int, sha: Sha)
    requires AckOnlyAt(w, id, sha) && w.db.Current? && |w.db.actions| == id == HeadOf(w.db.actions).id
    requires ack.Append? && ack.spec == AdoptSpec(id, sha) && prepare.Prepare?
    ensures AckOnlyAt(ApplyAll(digest, w, Prefix([ack, prepare], cut)), id, sha)
  {
    AppendKeepsAcks(digest, w, ack.spec, ack.at, id, sha);
    ApplyPrefixOfTwo(digest, w, ack, prepare, cut);
  }

  predicate WritesAck(write: Write) {
    write.Append? && write.spec.action == ADOPT_ACTION && write.spec.resourceType == CHAIN_RESOURCE
  }

  lemma {:induction false} QuietWritesKeepAcks(digest: Digest, w: World, writes: seq<Write>, id: int, sha: Sha)
    requires AckOnlyAt(w, id, sha) && forall x | x in writes :: !WritesAck(x)
    ensures AckOnlyAt(ApplyAll(digest, w, writes), id, sha)
    decreases |writes|
  {
    if writes != [] {
      QuietWritesKeepAcks(digest, w, writes[..|writes| - 1], id, sha);
      var last := writes[|writes| - 1];
      assert !WritesAck(last);
      if last.Append? {
        AppendKeepsAcks(digest, ApplyAll(digest, w, writes[..|writes| - 1]), last.spec, last.at, id, sha);
      }
    }
  }

  /** Outside adoption no start writes an adoption acknowledgment. */
  lemma OtherPathsAreQuiet(digest: Digest, w: World, s: Start, cut: nat)
    requires s.appeared.None?
    requires w.db.Absent? || !(s.flags.Adopt() && AdoptGenesis(digest, w, s).Done?)
    ensures Open(digest, w, s).base == w
    ensures forall x | x in Prefix(Open(digest, w, s).writes, cut) :: !WritesAck(x)
  {
    assert |RESET_ACTION| != |ADOPT_ACTION|;
    if w.db.Absent? {
      ApplyTwo(digest, w, CreateFile, Initialize);
    } else if s.flags.Reset() && ResumeReset(digest, w, s).Done? {
      ResumeWrites(digest, w, s);
    }
  }

  lemma StepKeepsAcks(digest: Digest, w: World, e: Event, id: int, sha: Sha)
    requires AckOnlyAt(w, id, sha) && FixedFlag(e, id, sha)
    ensures AckOnlyAt(Next(digest, w, e), id, sha)
  {
    match e
    case Begin(s, cut) =>
      var r := Open(digest, w, s);
      if r.writes != [] {
        if !w.db.Absent? && s.flags.Adopt() && AdoptGenesis(digest, w, s).Done? {
          AdoptionStep(digest, w, s, cut, id, sha);
          assert r.base == w && r.writes == AdoptGenesis(digest, w, s).writes;
        } else {
          OtherPathsAreQuiet(digest, w, s, cut);
          QuietWritesKeepAcks(digest, w, Prefix(r.writes, cut), id, sha);
        }
      }
    case DaemonAppend(spec, at) => AppendKeepsAcks(digest, w, spec, at, id, sha);
    case _ =>
  }

  lemma {:induction false} RunKeepsAcks(digest: Digest, w: World, events: seq<Event>, id: int, sha: Sha)
    requires AckOnlyAt(w, id, sha) && forall e | e in events :: FixedFlag(e, id, sha)
    ensures AckOnlyAt(Run(digest, w, events), id, sha)
    decreases |events|
  {
    if events != [] {
      StepKeepsAcks(digest, w, events[0], id, sha);
      RunKeepsAcks(digest, Next(digest, w, events[0]), events[1..], id, sha);
    }
  }

  /**
   Adoption happens at most once.  From a chain without acknowledgment, under
   one flag `id:sha`, over every run of starts, crashes and daemon writes: at
   most one acknowledgment exists, it is action `id + 1` and records the flag;
   and an intent that a further start prepares on this chain is the sequence-1
   intent carrying exactly its id and hash.
   */
  lemma AdoptionHappensAtMostOnce(digest: Digest, w: World, events: seq<Event>, id: int, sha: Sha, s: Start, j: nat)
    requires w.db.Current? ==> forall a | a in w.db.actions :: !IsAdoptAck(a)
    requires forall e | e in events + [Begin(s, 0)] :: FixedFlag(e, id, sha)
    ensures var now := Run(digest, w, events);
            && AckOnlyAt(now, id, sha)
            && (var r := Open(digest, now, s);
                now.db.Current? && j < |r.writes| && r.writes[j].Prepare? ==>
                  var before := ApplyAll(digest, now, r.writes[..j]);
                  && before.db.Current? && 0 <= id && |before.db.actions| == id + 1 && IsAdoptAck(before.db.actions[id])
                  && r.writes[j].intent == Intent(1, id + 1, before.db.actions[id].sha, ""))
  {
    RunKeepsAcks(digest, w, events, id, sha);
    var now := Run(digest, w, events);
    assert FixedFlag(Begin(s, 0), id, sha) by { assert Begin(s, 0) in events + [Begin(s, 0)]; }
    if now.db.Current? && j < |Open(digest, now, s).writes| && Open(digest, now, s).writes[j].Prepare? {
      PreparedIntentBindsAck(digest, now, s, id, sha, j);
    }
  }

  lemma PreparedIntentBindsAck(digest: Digest, w: World, s: Start, id: int, sha: Sha, j: nat)
    requires AckOnlyAt(w, id, sha) && FixedFlag(Begin(s, 0), id, sha) && w.db.Current?
    requires j < |Open(digest, w, s).writes| && Open(digest, w, s).writes[j].Prepare?
    ensures var before := ApplyAll(digest, w, Open(digest, w, s).writes[..j]);
            && before.db.Current? && 0 <= id && |before.db.actions| == id + 1 && IsAdoptAck(before.db.actions[id])
            && Open(digest, w, s).writes[j].intent == Intent(1, id + 1, before.db.actions[id].sha, "")
  {
    var r := Open(digest, w, s);
    var actions := w.db.actions;
    if s.flags.Reset() && ResumeReset(digest, w, s).Done? {
      ResumeWrites(digest, w, s);
    } else {
      assert s.flags.Adopt() && AdoptGenesis(digest, w, s).Done?;
      AdoptWrites(digest, w, s);
      assert r.writes == AdoptGenesis(digest, w, s).writes;
      if j == 0 {
        assert r.writes[..j] == [];
      } else {
        LinkKeepsChain(digest, actions, AdoptSpec(id, sha), s.now);
        ApplyOne(digest, w, r.writes[0]);
        assert r.writes[..j] == [r.writes[0]];
      }
    }
  }

  /** What a start or the daemon does to an existing chain only extends it. */
  lemma {:induction false} ExtendingWrites(digest: Digest, w: World, writes: seq<Write>)
    requires w.db.Current? && forall x | x in writes :: x.Append? || x.Prepare?
    ensures ApplyAll(digest, w, writes).db.Current? && w.db.actions <= ApplyAll(digest, w, writes).db.actions
    decreases |writes|
  {
    if writes != [] {
      ExtendingWrites(digest, w, writes[..|writes| - 1]);
      assert writes[|writes| - 1] in writes;
    }
  }

  lemma StartExtendsChain(digest: Digest, w: World, s: Start, cut: nat)
    requires w.db.Current?
    ensures var after := Cut(digest, Open(digest, w, s), cut);
            after.db.Current? && w.db.actions <= after.db.actions
  {
    hide ResumeReset, AdoptGenesis, OpenFresh, ApplyAll;
    var r := Open(digest, w, s);
    if s.flags.Reset() && ResumeReset(digest, w, s).Done? {
      ResumeWrites(digest, w, s);
    } else if s.flags.Adopt() && AdoptGenesis(digest, w, s).Done? {
      AdoptWrites(digest, w, s);
    }
    ExtendingWrites(digest, w, Prefix(r.writes, cut));
  }

  /** An undisturbed start with the adoption flag `id:sha` alone. */
  predicate AsksFor(s: Start, id: int, sha: Sha) { Undisturbed(s) && id > 0 && s.flags == Flags("", id, sha, true) }

  /**
   When an interrupted adoption is resumed.  With its acknowledgment recorded
   on a chain that verifies, a start under the same flag prepares the intent
   exactly while the acknowledgment is the last action, nothing is public or
   external, and there is no signed checkpoint.
   */
  lemma ResumesIff(digest: Digest, w: World, id: nat, sha: Sha, s: Start)
    requires AsksFor(s, id, sha) && w.db.Current? && LocallyVerified(digest, w.db, s.faults)
    requires AckOnlyAt(w, id, sha) && id < |w.db.actions| && IsAdoptAck(w.db.actions[id])
    ensures (exists x :: x in Open(digest, w, s).writes && x.Prepare?) <==>
            |w.db.actions| == id + 1 && !w.Evidence() && !w.db.anchored && s.tip.None?
  {
    var writes := Open(digest, w, s).writes;
    if |w.db.actions| == id + 1 && !w.Evidence() && !w.db.anchored && s.tip.None? {
      AdoptResumeShape(digest, w, s);
      assert writes[0] in writes;
    }
    if x :| x in writes && x.Prepare? {
      var j :| 0 <= j < |writes| && writes[j] == x;
      PreparedIntentBindsAck(digest, w, s, id, sha, j);
      StartExtendsChain(digest, w, s, j);
      AdoptShape(digest, w, s);
    }
  }

  /**
   Adopting anew.  Where the last action is no acknowledgment, in particular
   after an interrupted adoption was overtaken, a flag adopts exactly when it
   names the current head and nothing is public, external or checkpointed.
   */
  lemma FreshFlagAdoptsIff(digest: Digest, w: World, id: int, sha: Sha, s: Start)
    requires AsksFor(s, id, sha) && w.db.Current? && LocallyVerified(digest, w.db, s.faults)
    requires w.db.actions != [] ==> !IsAdoptAck(w.db.actions[|w.db.actions| - 1])
    ensures Open(digest, w, s).outcome == Opened(AdoptionApplied) <==>
            HeadOf(w.db.actions) == Head(id, sha) && !w.Evidence() && !w.db.anchored && s.tip.None? && s.now > 0
  {
    LinkKeepsChain(digest, w.db.actions, AdoptSpec(id, sha), s.now);
  }

  /**
   A second acknowledgment.  Where the last action already is one, a start with
   the adoption flag appends another exactly when it cannot read that action,
   the flag names it as the head, and everything else it reads allows a fresh
   adoption.
   */
  lemma SecondAckIff(digest: Digest, w: World, s: Start)
    requires FlagsAccepted(s.flags) && s.flags.Adopt() && !s.faults.lstat && !s.faults.flagInspect
    requires w.db.Current? && LocallyVerified(digest, w.db, s.faults)
    requires w.db.actions != [] && IsAdoptAck(w.db.actions[|w.db.actions| - 1])
    ensures (exists x :: x in Open(digest, w, s).writes && WritesAck(x)) <==>
            && s.faults.tail && HeadOf(w.db.actions) == Head(s.flags.adoptID, s.flags.adoptSha)
            && !s.faults.intents && !s.faults.pinned && !w.Evidence()
            && !s.faults.anchors && !w.db.anchored && !s.faults.tip && s.tip.None? && !s.faults.open && s.now > 0
  {
    var step := AdoptGenesis(digest, w, s);
    LinkKeepsChain(digest, w.db.actions, AdoptSpec(s.flags.adoptID, s.flags.adoptSha), s.now);
    if step.Done? {
      AdoptWrites(digest, w, s);
      assert Open(digest, w, s).writes == step.writes;
      if |step.writes| == 2 { assert step.writes[0] in step.writes && WritesAck(step.writes[0]); }
    } else {
      assert Open(digest, w, s) == OpenExisting(w, s) && OpenExisting(w, s).writes == [];
    }
  }

  /**
   An overtaken flag is spent.  Once any action follows the acknowledgment, no
   start under the same flag ever prepares the intent, over every further run;
   `FreshFlagAdoptsIff` says which flag still adopts.
   */
  lemma {:induction false} OvertakenFlagIsSpent(digest: Digest, w: World, events: seq<Event>, id: nat, sha: Sha, s: Start)
    requires w.db.Current? && |w.db.actions| > id + 1 && AckOnlyAt(w, id, sha)
    requires forall e | e in events :: FixedFlag(e, id, sha)
    requires FixedFlag(Begin(s, 0), id, sha)
    ensures forall x | x in Open(digest, Run(digest, w, events), s).writes :: !x.Prepare?
    decreases |events|
  {
    if events == [] {
      var writes := Open(digest, w, s).writes;
      forall j | 0 <= j < |writes|
        ensures !writes[j].Prepare?
      {
        if writes[j].Prepare? {
          PreparedIntentBindsAck(digest, w, s, id, sha, j);
          StartExtendsChain(digest, w, s, j);
        }
      }
    } else {
      var e := events[0];
      StepKeepsAcks(digest, w, e, id, sha);
      if e.Begin? { StartExtendsChain(digest, w, e.s, e.cut); }
      OvertakenFlagIsSpent(digest, Next(digest, w, e), events[1..], id, sha, s);
    }
  }
}
