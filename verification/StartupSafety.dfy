/** Safety of the startup protocol over every run of starts, crashes and daemon activity. */
module StartupSafety {
  import opened AuditChain
  import opened Startup
  import opened StartupCrash

  // ---------------------------------------------------------------- what one start may do

  /** Every way a start can return a database, and what it must have established. */
  ghost predicate Justified(digest: Digest, w: World, s: Start) {
    var r := Open(digest, w, s);
    match r.outcome
    case Refused(_) => true
    case Opened(Genesis) => w.db.Absent? && !w.Evidence() && Final(digest, w, s).db == EMPTY
    case Opened(Verified) => s.verdict(r.base) && r.base.db.Current? && r.writes == []
    case Opened(ResetAccepted) =>
      ResetBound(Final(digest, w, s), s) && !w.Evidence() && RecordsTip(Final(digest, w, s).db.actions[0].spec, s.tip.value)
    case Opened(ResetResumed) => ResetBound(Final(digest, w, s), s) && !w.Evidence() && r.writes == []
    case Opened(AdoptionApplied) => AdoptionBound(digest, w, s, Final(digest, w, s))
    case Opened(AdoptionResumed) => AdoptionBound(digest, w, s, Final(digest, w, s))
  }

  /** The acknowledgment, with everything the log says about the abandoned tip. */
  predicate RecordsTip(spec: Spec, tip: Tip) {
    && spec.actor == "operator" && spec.action == "witness-chain.reset-accepted" && spec.resourceType == "audit-witness-chain"
    && spec.resourceID == tip.uuid && spec.details == ResetJson(ResetDetails(tip, "--accept-witness-chain-reset"))
  }

  /** The database holds a single action: the acknowledgment of the tip that operator and log agree on. */
  ghost predicate ResetBound(w: World, s: Start) {
    && w.db.Current? && |w.db.actions| == 1
    && w.db.actions[0].id == 1 && IsResetAck(w.db.actions[0])
    && s.tip.Some? && w.db.actions[0].spec.resourceID == s.tip.value.uuid == s.flags.resetTip
  }

  /** The only intent binds the last action, which is an adoption acknowledgment; nothing was public. */
  ghost predicate AdoptionBound(digest: Digest, w: World, s: Start, after: World) {
    && after.db.Current? && after.db.actions != [] && s.tip.None? && !w.Evidence()
    && WellLinked(digest, after.db.actions)
    && var ack := after.db.actions[|after.db.actions| - 1];
       IsAdoptAck(ack) && after.intents == [GenesisIntent(ack)] && after.pinned == []
  }

  lemma RecordedResetIsBound(digest: Digest, base: World, writes: seq<Write>, reached: World, s: Start)
    requires s.tip.Some? && s.tip.value.uuid == s.flags.resetTip
    requires ApplyAll(digest, base, writes) == reached && reached.db.Current? && OrderedRows(reached.db.actions)
    requires RecordReset(digest, base, writes, reached.db.actions, s.tip.value, s.now).outcome.Opened?
    ensures var after := ApplyAll(digest, base, writes + [Append(ResetSpec(s.tip.value), s.now)]);
            ResetBound(after, s) && RecordsTip(after.db.actions[0].spec, s.tip.value)
  {
  }

  lemma ResumedResetIsBound(digest: Digest, w: World, s: Start)
    requires ResumeReset(digest, w, s).Done? && ResumeReset(digest, w, s).outcome.Opened?
    ensures var step := ResumeReset(digest, w, s);
            var after := ApplyAll(digest, w, step.writes);
            && ResetBound(after, s) && !w.Evidence()
            && (step.outcome == Opened(ResetAccepted) ==> RecordsTip(after.db.actions[0].spec, s.tip.value))
  {
  }

  lemma FreshResetIsBound(digest: Digest, w: World, s: Start)
    requires w.db.Absent? && OpenFresh(digest, w, s).outcome.Opened? && AcknowledgedTip(s).TipIs? && s.flags.Reset()
    requires s.appeared.Some? && s.appeared.value.Current? ==> OrderedRows(s.appeared.value.actions)
    ensures var r := OpenFresh(digest, w, s);
            var after := ApplyAll(digest, r.base, r.writes);
            && r.outcome == Opened(ResetAccepted) && ResetBound(after, s) && !w.Evidence()
            && RecordsTip(after.db.actions[0].spec, s.tip.value)
  {
    var g := CreateGenesis(w, s);
    ApplyTwo(digest, w, CreateFile, Initialize);
    var reached := ApplyAll(digest, g.base, g.writes);
    RecordedResetIsBound(digest, g.base, g.writes, reached, s);
  }

  lemma FreshAdoptionIsBound(digest: Digest, w: World, s: Start)
    requires w.db.Current? && WellLinked(digest, w.db.actions) && !w.Evidence()
    requires FreshAdoption(digest, w, s).outcome.Opened?
    ensures AdoptionBound(digest, w, s, ApplyAll(digest, w, FreshAdoption(digest, w, s).writes))
  {
    var actions := w.db.actions;
    var spec := AdoptSpec(s.flags.adoptID, s.flags.adoptSha);
    var ack := Link(digest, actions, spec, s.now);
    LinkKeepsChain(digest, actions, spec, s.now);
    ApplyTwo(digest, w, Append(spec, s.now), Prepare(GenesisIntent(ack)));
    var after := ApplyAll(digest, w, FreshAdoption(digest, w, s).writes);
    assert after == World(w.db.(actions := actions + [ack]), [GenesisIntent(ack)], []);
  }

  lemma ResumedAdoptionIsBound(digest: Digest, w: World, s: Start, tail: Action)
    requires w.db.Current? && WellLinked(digest, w.db.actions) && !w.Evidence()
    requires w.db.actions != [] && tail == w.db.actions[|w.db.actions| - 1] && IsAdoptAck(tail)
    requires ResumeAdoption(w, s, tail).outcome.Opened?
    ensures AdoptionBound(digest, w, s, ApplyAll(digest, w, ResumeAdoption(w, s, tail).writes))
  {
    ApplyOne(digest, w, Prepare(GenesisIntent(tail)));
  }

  lemma AdoptedIsBound(digest: Digest, w: World, s: Start)
    requires AdoptGenesis(digest, w, s).Done? && AdoptGenesis(digest, w, s).outcome.Opened?
    ensures AdoptionBound(digest, w, s, ApplyAll(digest, w, AdoptGenesis(digest, w, s).writes))
  {
    var actions := w.db.actions;
    if !s.faults.tail && actions != [] && IsAdoptAck(actions[|actions| - 1]) {
      ResumedAdoptionIsBound(digest, w, s, actions[|actions| - 1]);
    } else {
      FreshAdoptionIsBound(digest, w, s);
    }
  }

  lemma FreshIsJustified(digest: Digest, w: World, s: Start)
    requires s.appeared.Some? && s.appeared.value.Current? ==> OrderedRows(s.appeared.value.actions)
    requires w.db.Absent? && Open(digest, w, s).outcome.Opened?
    ensures Justified(digest, w, s)
  {
    assert Open(digest, w, s) == OpenFresh(digest, w, s);
    if AcknowledgedTip(s).TipIs? && s.flags.Reset() {
      FreshResetIsBound(digest, w, s);
    } else {
      ApplyTwo(digest, w, CreateFile, Initialize);
    }
  }

  lemma ResetVia(digest: Digest, w: World, s: Start)
    requires ResumeReset(digest, w, s).Done? && ResumeReset(digest, w, s).outcome.Opened?
    ensures var step := ResumeReset(digest, w, s);
            step.outcome == Opened(ResetAccepted) || (step.outcome == Opened(ResetResumed) && step.writes == [])
  {
  }

  lemma AdoptVia(digest: Digest, w: World, s: Start)
    requires AdoptGenesis(digest, w, s).Done? && AdoptGenesis(digest, w, s).outcome.Opened?
    ensures AdoptGenesis(digest, w, s).outcome in {Opened(AdoptionApplied), Opened(AdoptionResumed)}
  {
  }

  /** Fail-closed: a start returns a database only with the justification of the path it took. */
  lemma OpenedIsJustified(digest: Digest, w: World, s: Start)
    requires s.appeared.Some? && s.appeared.value.Current? ==> OrderedRows(s.appeared.value.actions)
    ensures Justified(digest, w, s)
  {
    hide ResumeReset, AdoptGenesis, OpenFresh, OpenExisting, ResetBound, AdoptionBound;
    var r := Open(digest, w, s);
    if r.outcome.Opened? {
      if w.db.Absent? {
        FreshIsJustified(digest, w, s);
      } else if s.flags.Reset() && ResumeReset(digest, w, s).Done? {
        ResumedResetIsBound(digest, w, s);
        ResetVia(digest, w, s);
      } else if s.flags.Adopt() && AdoptGenesis(digest, w, s).Done? {
        AdoptedIsBound(digest, w, s);
        AdoptVia(digest, w, s);
      } else {
        ExistingIsVerified(w, s);
      }
    }
  }

  lemma ExistingIsVerified(w: World, s: Start)
    ensures var r := OpenExisting(w, s);
            r.outcome.Opened? ==> r == Result(w, [], Opened(Verified)) && s.verdict(w) && w.db.Current?
  {
  }

  /** Reset binding, including a database another process created during the start. */
  lemma ResetBinding(digest: Digest, w: World, s: Start)
    requires s.appeared.Some? && s.appeared.value.Current? ==> OrderedRows(s.appeared.value.actions)
    requires Open(digest, w, s).outcome in {Opened(ResetAccepted), Opened(ResetResumed)}
    ensures ResetBound(Final(digest, w, s), s) && !w.Evidence()
    ensures Open(digest, w, s).outcome == Opened(ResetAccepted) ==>
              RecordsTip(Final(digest, w, s).db.actions[0].spec, s.tip.value)
  {
    OpenedIsJustified(digest, w, s);
  }
}
