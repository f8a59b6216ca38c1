/**
 The audit-witness startup protocol as a function from durable state to the
 ordered durable writes of one start and its outcome.  A crash keeps a prefix
 of those writes, so the order of the list is the protocol.
 */
module Startup {
  import opened Wrappers
  import opened AuditChain

  // ---------------------------------------------------------------- durable state

  /**
   The database file.  `Unreadable` is any file that is not an accepted schema:
   in particular the empty placeholder that genesis creates before it writes
   the schema.  `anchored` says that a signed checkpoint exists, `pendingOk`
   that pending publication rows match the chain.
   */
  datatype Database =
    | Absent
    | Unreadable
    | LegacyV1(legacyHead: Head)
    | SchemaV2(migratedHead: Head)
    | Current(actions: seq<Action>, anchored: bool, pendingOk: bool)

  /** An immutable publication intent held outside the database. */
  datatype Intent = Intent(sequence: int, auditID: int, auditSha: Sha, previousUUID: string)

  datatype World = World(db: Database, intents: seq<Intent>, pinned: seq<Tip>) {
    /** Rollback-external evidence that witnessing has begun. */
    predicate Evidence() { intents != [] || pinned != [] }
  }

  datatype Write =
    | CreateFile
    | RemoveFile
    | Initialize
    | Append(spec: Spec, at: int)
    | Prepare(intent: Intent)
    | Migrate

  function Apply(digest: Digest, w: World, write: Write): World {
    match write
    case CreateFile => w.(db := Unreadable)
    case RemoveFile => w.(db := Absent)
    case Initialize => w.(db := Current([], false, true))
    case Append(spec, at) =>
      if w.db.Current? then w.(db := w.db.(actions := w.db.actions + [Link(digest, w.db.actions, spec, at)])) else w
    case Prepare(intent) => w.(intents := w.intents + [intent])
    case Migrate => if w.db.LegacyV1? then w.(db := SchemaV2(w.db.legacyHead)) else w
  }

  function ApplyAll(digest: Digest, w: World, writes: seq<Write>): World {
    if writes == [] then w
    else Apply(digest, ApplyAll(digest, w, writes[..|writes| - 1]), writes[|writes| - 1])
  }

  lemma ApplyOne(digest: Digest, w: World, a: Write)
    ensures ApplyAll(digest, w, [a]) == Apply(digest, w, a)
  {
  }

  lemma ApplyTwo(digest: Digest, w: World, a: Write, b: Write)
    ensures ApplyAll(digest, w, [a, b]) == Apply(digest, Apply(digest, w, a), b)
  {
    ApplyOne(digest, w, a);
    assert [a, b][..1] == [a];
  }

  lemma ApplyThree(digest: Digest, w: World, a: Write, b: Write, c: Write)
    ensures ApplyAll(digest, w, [a, b, c]) == Apply(digest, Apply(digest, Apply(digest, w, a), b), c)
  {
    ApplyTwo(digest, w, a, b);
    assert [a, b, c][..2] == [a, b];
  }

  /** The writes that get done when the process dies after `cut` of them. */
  function Prefix(writes: seq<Write>, cut: nat): seq<Write> { if cut < |writes| then writes[..cut] else writes }

  lemma {:induction false} ApplyConcat(digest: Digest, w: World, first: seq<Write>, rest: seq<Write>)
    ensures ApplyAll(digest, w, first + rest) == ApplyAll(digest, ApplyAll(digest, w, first), rest)
    decreases |rest|
  {
    if rest == [] {
      assert first + rest == first;
    } else {
      ApplyConcat(digest, w, first, rest[..|rest| - 1]);
      assert (first + rest)[..|first + rest| - 1] == first + rest[..|rest| - 1];
    }
  }

  lemma ApplyPrefixOfOne(digest: Digest, w: World, a: Write, cut: nat)
    ensures ApplyAll(digest, w, Prefix([a], cut)) == if cut == 0 then w else Apply(digest, w, a)
  {
  }

  lemma ApplyPrefixOfTwo(digest: Digest, w: World, a: Write, b: Write, cut: nat)
    ensures ApplyAll(digest, w, Prefix([a, b], cut)) ==
            if cut == 0 then w else if cut == 1 then Apply(digest, w, a) else Apply(digest, Apply(digest, w, a), b)
  {
    ApplyOne(digest, w, a);
    ApplyTwo(digest, w, a, b);
    assert cut == 0 ==> Prefix([a, b], cut) == [];
    assert cut == 1 ==> Prefix([a, b], cut) == [a];
  }

  // ---------------------------------------------------------------- one start

  /** The one-shot operator flags; `rekor` says that the external witness is configured. */
  datatype Flags = Flags(resetTip: string, adoptID: int, adoptSha: Sha, rekor: bool) {
    predicate Reset() { resetTip != "" }
    predicate Adopt() { adoptID > 0 }
  }

  /** Reads that fail during this start. */
  datatype Faults = Faults(lstat: bool, flagInspect: bool, inspect: bool, local: bool, sole: bool, tail: bool,
                           intents: bool, pinned: bool, anchors: bool, tip: bool, open: bool, legacy: bool, init: bool)

  const NO_FAULTS := Faults(false, false, false, false, false, false, false, false, false, false, false, false, false)

  /**
   Everything a start reads besides the durable state: flags, clock, the latest
   public log entry, failing reads, a database that another process creates
   after this one saw none, and the existing-state verifier.
   */
  datatype Start = Start(flags: Flags, now: int, tip: Option<Tip>, faults: Faults,
                         appeared: Option<Database>, verdict: World -> bool)

  datatype Via = Genesis | Verified | ResetAccepted | ResetResumed | AdoptionApplied | AdoptionResumed

  datatype Refusal =
    | NoExternalWitness | FlagsExclusive | Unstattable
    | SchemaRefused | VerifierRefused | OpenFailed | GenesisFailed | AppendFailed
    | AdoptionNeedsHistory | ContinuityUnreadable | RollbackEvidence
    | TipUnreadable | TipMismatch | TipVanished | OtherTipRecorded | NotFirstAction
    | DetailsMalformed | OtherBaselineRecorded | Checkpointed | AnchorsUnreadable | HeadNotAcknowledged
    | PublicHistory | ChainAdvanced
    | LegacyUnreadable | LegacyEvidence | LegacyIntentMismatch | MigratedNeedsReplace

  datatype Outcome = Opened(via: Via) | Refused(why: Refusal)

  /** `base` is the state the writes start from: the given one, or the one with the database that appeared. */
  datatype Result = Result(base: World, writes: seq<Write>, outcome: Outcome)

  /** A one-shot path either decides the start or defers to the unchanged verification. */
  datatype Step = Defer | Done(writes: seq<Write>, outcome: Outcome)

  predicate LocallyVerified(digest: Digest, db: Database, faults: Faults)
    requires db.Current?
  {
    !faults.local && WellLinked(digest, db.actions) && db.pendingOk
  }

  // -- chain reset

  const RESET_ACTION := "witness-chain.reset-accepted"
  const ADOPT_ACTION := "witness-genesis.adopted"
  const CHAIN_RESOURCE := "audit-witness-chain"

  function ResetSpec(tip: Tip): Spec {
    Spec("operator", RESET_ACTION, CHAIN_RESOURCE, tip.uuid, ResetJson(ResetDetails(tip, "--accept-witness-chain-reset")))
  }

  predicate IsResetAck(a: Action) { a.spec.action == RESET_ACTION && a.spec.resourceType == CHAIN_RESOURCE }

  datatype TipCheck = TipRefused(why: Refusal) | NoTip | TipIs(tip: Tip)

  function AcknowledgedTip(s: Start): TipCheck {
    if s.faults.tip then TipRefused(TipUnreadable)
    else match s.tip
         case None => NoTip
         case Some(tip) => if tip.uuid != s.flags.resetTip then TipRefused(TipMismatch) else TipIs(tip)
  }

  /** Appends the acknowledgment to a database reached by `writes`; it must become action 1. */
  function RecordReset(digest: Digest, base: World, writes: seq<Write>, actions: seq<Action>, tip: Tip, now: int): Result {
    if !CanAppend(digest, actions, now) then Result(base, writes, Refused(AppendFailed))
    else Result(base, writes + [Append(ResetSpec(tip), now)],
                if HeadOf(actions).id + 1 != 1 then Refused(NotFirstAction) else Opened(ResetAccepted))
  }

  function ResumeReset(digest: Digest, w: World, s: Start): Step {
    if s.faults.flagInspect || !w.db.Current? then Defer
    else if !LocallyVerified(digest, w.db, s.faults) then Defer
    else if s.faults.anchors || w.db.anchored then Defer
    else
      var actions := w.db.actions;
      var recorded := HeadOf(actions).id == 1 && !s.faults.sole && actions != [] && IsResetAck(actions[0]);
      if HeadOf(actions).id != 0 && !recorded then Defer
      else if s.faults.intents || s.faults.pinned then Done([], Refused(ContinuityUnreadable))
      else if w.Evidence() then Defer
      else if recorded && actions[0].spec.resourceID != s.flags.resetTip then Done([], Refused(OtherTipRecorded))
      else match AcknowledgedTip(s)
           case TipRefused(why) => Done([], Refused(why))
           case NoTip => if recorded then Done([], Refused(TipVanished)) else Defer
           case TipIs(tip) =>
             if s.faults.open then Done([], Refused(OpenFailed))
             else if recorded then Done([], Opened(ResetResumed))
             else var r := RecordReset(digest, w, [], actions, tip, s.now); Done(r.writes, r.outcome)
  }

  // -- genesis adoption

  function HexDigit(n: int): char
    requires 0 <= n < 16
  {
    if n < 10 then '0' + n as char else 'a' + (n - 10) as char
  }

  function Hex(bytes: Sha): string {
    if bytes == [] then [] else [HexDigit(bytes[0] as int / 16), HexDigit(bytes[0] as int % 16)] + Hex(bytes[1..])
  }

  function AdoptSpec(id: int, sha: Sha): Spec {
    Spec("operator", ADOPT_ACTION, CHAIN_RESOURCE, Hex(sha), AdoptJson(AdoptDetails(id, Hex(sha), "--accept-witness-genesis")))
  }

  predicate IsAdoptAck(a: Action) { a.spec.action == ADOPT_ACTION && a.spec.resourceType == CHAIN_RESOURCE }

  /** Reading recorded details as adoption details; unknown keys are ignored. */
  function ParseAdopt(details: Details): Option<AdoptDetails> {
    match details
    case AdoptJson(adopt) => Some(adopt)
    case ResetJson(reset) => Some(AdoptDetails(0, "", reset.acknowledgment))
    case Text(_, asAdopt) => asAdopt
  }

  function GenesisIntent(a: Action): Intent { Intent(1, a.id, a.sha, "") }

  function PublicHistoryRefusal(s: Start): Option<Refusal> {
    if s.faults.tip then Some(TipUnreadable) else if s.tip.Some? then Some(PublicHistory) else None
  }

  function AdoptGenesis(digest: Digest, w: World, s: Start): Step {
    if s.faults.flagInspect || !w.db.Current? then Defer
    else if !LocallyVerified(digest, w.db, s.faults) then Defer
    else if s.faults.intents || s.faults.pinned then Done([], Refused(ContinuityUnreadable))
    else if w.Evidence() then Defer
    else
      var actions := w.db.actions;
      var resume := !s.faults.tail && actions != [] && IsAdoptAck(actions[|actions| - 1]);
      if resume then ResumeAdoption(w, s, actions[|actions| - 1]) else FreshAdoption(digest, w, s)
  }

  function ResumeAdoption(w: World, s: Start, tail: Action): (step: Step)
    requires w.db.Current?
    ensures step.Done?
  {
    match ParseAdopt(tail.spec.details)
    case None => Done([], Refused(DetailsMalformed))
    case Some(details) =>
      var matchesBaseline := s.flags.adoptID == details.baselineID && Hex(s.flags.adoptSha) == details.baselineHex;
      var matchesAckHead := s.flags.adoptID == tail.id && s.flags.adoptSha == tail.sha;
      if !matchesBaseline && !matchesAckHead then Done([], Refused(OtherBaselineRecorded))
      else if s.faults.anchors then Done([], Refused(AnchorsUnreadable))
      else if w.db.anchored then Done([], Refused(Checkpointed))
      else match PublicHistoryRefusal(s)
           case Some(why) => Done([], Refused(why))
           case None =>
             if s.faults.open then Done([], Refused(OpenFailed))
             else Done([Prepare(GenesisIntent(tail))], Opened(AdoptionResumed))
  }

  /** Every refusal of a fresh adoption comes before its first write. */
  function AdoptionRefusal(digest: Digest, w: World, s: Start): Option<Refusal>
    requires w.db.Current?
  {
    if s.faults.anchors then Some(AnchorsUnreadable)
    else if w.db.anchored then Some(Checkpointed)
    else if HeadOf(w.db.actions) != Head(s.flags.adoptID, s.flags.adoptSha) then Some(HeadNotAcknowledged)
    else if PublicHistoryRefusal(s).Some? then PublicHistoryRefusal(s)
    else if s.faults.open then Some(OpenFailed)
    else if !CanAppend(digest, w.db.actions, s.now) then Some(AppendFailed)
    else None
  }

  function FreshAdoption(digest: Digest, w: World, s: Start): (step: Step)
    requires w.db.Current?
    ensures step.Done?
  {
    match AdoptionRefusal(digest, w, s)
    case Some(why) => Done([], Refused(why))
    case None =>
      var spec := AdoptSpec(s.flags.adoptID, s.flags.adoptSha);
      var ack := Link(digest, w.db.actions, spec, s.now);
      if ack.id != s.flags.adoptID + 1 then Done([Append(spec, s.now)], Refused(ChainAdvanced))
      else Done([Append(spec, s.now), Prepare(GenesisIntent(ack))], Opened(AdoptionApplied))
  }

  // -- legacy migration

  function LegacyIntent(head: Head): Intent { Intent(1, head.id, head.sha, "") }

  function MigrateLegacy(w: World, s: Start): (step: Step)
    requires w.db.LegacyV1?
    ensures step.Done? && step.outcome.Refused?
  {
    var head := w.db.legacyHead;
    if s.faults.legacy then Done([], Refused(LegacyUnreadable))
    else if s.faults.intents || s.faults.pinned then Done([], Refused(ContinuityUnreadable))
    else if w.pinned != [] || |w.intents| > 1 then Done([], Refused(LegacyEvidence))
    else if |w.intents| == 1 then
      if w.intents[0] != LegacyIntent(head) then Done([], Refused(LegacyIntentMismatch))
      else Done([Migrate], Refused(MigratedNeedsReplace))
    else if head.id > 0 then Done([Prepare(LegacyIntent(head)), Migrate], Refused(MigratedNeedsReplace))
    else Done([Migrate], Refused(MigratedNeedsReplace))
  }

  // -- existing and fresh databases

  /** Inspect, verify, open: the fail-closed path for a database that is there. */
  function VerifyAndOpen(w: World, s: Start): Outcome {
    if s.faults.inspect || !w.db.Current? then Refused(SchemaRefused)
    else if !s.verdict(w) then Refused(VerifierRefused)
    else if s.faults.open then Refused(OpenFailed)
    else Opened(Verified)
  }

  function OpenExisting(w: World, s: Start): Result {
    if !s.faults.inspect && w.db.LegacyV1? then
      var m := MigrateLegacy(w, s); Result(w, m.writes, m.outcome)
    else Result(w, [], VerifyAndOpen(w, s))
  }

  /** Exclusive creation; a file that appeared meanwhile is verified and opened instead. */
  function CreateGenesis(w: World, s: Start): Result {
    match s.appeared
    case Some(db) => Result(w.(db := db), [], VerifyAndOpen(w.(db := db), s))
    case None =>
      if s.faults.init then Result(w, [CreateFile, RemoveFile], Refused(GenesisFailed))
      else Result(w, [CreateFile, Initialize], Opened(Genesis))
  }

  function OpenFresh(digest: Digest, w: World, s: Start): Result {
    if s.flags.Adopt() then Result(w, [], Refused(AdoptionNeedsHistory))
    else if s.faults.intents || s.faults.pinned then Result(w, [], Refused(ContinuityUnreadable))
    else if w.Evidence() then Result(w, [], Refused(RollbackEvidence))
    else if !s.flags.Reset() then CreateGenesis(w, s)
    else match AcknowledgedTip(s)
         case TipRefused(why) => Result(w, [], Refused(why))
         case NoTip => CreateGenesis(w, s)
         case TipIs(tip) =>
           var g := CreateGenesis(w, s);
           var reached := ApplyAll(digest, g.base, g.writes).db;
           if g.outcome.Refused? || !reached.Current? then g
           else RecordReset(digest, g.base, g.writes, reached.actions, tip, s.now)
  }

  /** `openStartupDatabase`. */
  function Open(digest: Digest, w: World, s: Start): Result {
    if s.flags.Reset() && !s.flags.rekor then Result(w, [], Refused(NoExternalWitness))
    else if s.flags.Adopt() && s.flags.Reset() then Result(w, [], Refused(FlagsExclusive))
    else if s.flags.Adopt() && !s.flags.rekor then Result(w, [], Refused(NoExternalWitness))
    else if s.faults.lstat then Result(w, [], Refused(Unstattable))
    else if w.db.Absent? then OpenFresh(digest, w, s)
    else
      var reset := if s.flags.Reset() then ResumeReset(digest, w, s) else Defer;
      if reset.Done? then Result(w, reset.writes, reset.outcome)
      else
        var adopt := if s.flags.Adopt() then AdoptGenesis(digest, w, s) else Defer;
        if adopt.Done? then Result(w, adopt.writes, adopt.outcome)
        else OpenExisting(w, s)
  }

  /** The durable state left by a start that gets `cut` durable writes done before it dies. */
  function Cut(digest: Digest, r: Result, cut: nat): World {
    ApplyAll(digest, r.base, Prefix(r.writes, cut))
  }

  /** The durable state left by an uninterrupted start. */
  function Final(digest: Digest, w: World, s: Start): World {
    var r := Open(digest, w, s);
    ApplyAll(digest, r.base, r.writes)
  }

  // ---------------------------------------------------------------- runs

  /** What happens to the durable state between and during starts. */
  datatype Event =
    | Begin(s: Start, cut: nat)
    | DaemonAppend(spec: Spec, at: int)
    | DaemonPrepare(intent: Intent)
    | DaemonPin(entry: Tip)
    | DaemonAnchor
    | ReplaceDatabase(db: Database)

  function Next(digest: Digest, w: World, e: Event): World {
    match e
    case Begin(s, cut) => Cut(digest, Open(digest, w, s), cut)
    case DaemonAppend(spec, at) => Apply(digest, w, Append(spec, at))
    case DaemonPrepare(intent) => Apply(digest, w, Prepare(intent))
    case DaemonPin(entry) => w.(pinned := w.pinned + [entry])
    case DaemonAnchor => if w.db.Current? then w.(db := w.db.(anchored := true)) else w
    case ReplaceDatabase(db) => w.(db := db)
  }

  function Run(digest: Digest, w: World, events: seq<Event>): World
    decreases |events|
  {
    if events == [] then w else Run(digest, Next(digest, w, events[0]), events[1..])
  }
}
