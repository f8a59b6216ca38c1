/** Crash convergence of the startup protocol. */
module StartupCrash {
  import opened AuditChain
  import opened Startup

  /** A start with no failing reads and no second process creating the database. */
  predicate Undisturbed(s: Start) { s.faults == NO_FAULTS && s.appeared.None? }

  /** The same flags against the same public log; clock and verifier may differ. */
  predicate SameRequest(s: Start, t: Start) {
    Undisturbed(s) && Undisturbed(t) && s.flags == t.flags && s.tip == t.tip
  }

  predicate Appended(writes: seq<Write>) { exists i | 0 <= i < |writes| :: writes[i].Append? }

  /** The crash fell between creating the database file and writing its schema. */
  predicate Wedged(writes: seq<Write>, cut: nat) { cut == 1 && cut < |writes| && writes[0] == CreateFile }

  /** Both return a database, or both refuse for the same reason. */
  predicate SameEnding(a: Outcome, b: Outcome) { a == b || (a.Opened? && b.Opened?) }

  /** What the restart after a crash owes: the state and, unless all writes were done, the outcome. */
  ghost predicate Converged(digest: Digest, w: World, s: Start, t: Start, cut: nat) {
    var r := Open(digest, w, s);
    cut <= |r.writes| &&
    var crashed := Cut(digest, r, cut);
    var reference := if Appended(r.writes[..cut]) then s else t;
    && Final(digest, crashed, t) == Final(digest, w, reference)
    && (cut < |r.writes| ==> SameEnding(Open(digest, crashed, t).outcome, Open(digest, w, reference).outcome))
  }

  // -- starts without a database, or with one a reset can still claim

  const EMPTY := Current([], false, true)

  /** The operator acknowledged exactly the tip that the log reports. */
  predicate Claims(s: Start) { s.flags.Reset() && s.tip.Some? && s.tip.value.uuid == s.flags.resetTip }

  predicate GenesisAllowed(w: World, s: Start) {
    && !w.Evidence() && !s.flags.Adopt()
    && (s.flags.Reset() ==> s.flags.rekor && (s.tip.None? || Claims(s)))
  }

  lemma FreshShape(digest: Digest, w: World, s: Start)
    requires Undisturbed(s) && w.db.Absent?
    ensures var r := Open(digest, w, s);
            if !GenesisAllowed(w, s) then r.writes == []
            else if !Claims(s) then r == Result(w, [CreateFile, Initialize], Opened(Genesis))
            else if s.now > 0 then
              r == Result(w, [CreateFile, Initialize, Append(ResetSpec(s.tip.value), s.now)], Opened(ResetAccepted))
            else r == Result(w, [CreateFile, Initialize], Refused(AppendFailed))
  {
  }

  lemma EmptyShape(digest: Digest, w: World, s: Start)
    requires Undisturbed(s) && w.db == EMPTY && GenesisAllowed(w, s)
    ensures var r := Open(digest, w, s);
            if !Claims(s) then r.base == w && r.writes == []
            else if s.now > 0 then r == Result(w, [Append(ResetSpec(s.tip.value), s.now)], Opened(ResetAccepted))
            else r == Result(w, [], Refused(AppendFailed))
  {
  }

  lemma AcknowledgedShape(digest: Digest, w: World, s: Start, at: int)
    requires Undisturbed(s) && GenesisAllowed(w, s) && Claims(s)
    requires w.db == Current([Link(digest, [], ResetSpec(s.tip.value), at)], false, true)
    ensures Open(digest, w, s) == Result(w, [], Opened(ResetResumed))
  {
  }

  lemma FreshConverges(digest: Digest, w: World, s: Start, t: Start, cut: nat)
    requires SameRequest(s, t) && w.db.Absent?
    requires 0 < cut <= |Open(digest, w, s).writes|
    ensures if Wedged(Open(digest, w, s).writes, cut) then Cut(digest, Open(digest, w, s), cut).db == Unreadable
            else Converged(digest, w, s, t, cut)
  {
    var r := Open(digest, w, s);
    FreshShape(digest, w, s);
    FreshShape(digest, w, t);
    var empty := w.(db := EMPTY);
    ApplyOne(digest, w, CreateFile);
    ApplyTwo(digest, w, CreateFile, Initialize);
    EmptyShape(digest, empty, t);
    assert cut == 1 ==> r.writes[..cut] == [CreateFile];
    assert cut == 2 ==> r.writes[..cut] == [CreateFile, Initialize];
    if Claims(s) {
      var spec := ResetSpec(s.tip.value);
      if cut == 3 {
        AcknowledgedConverges(digest, w, s, t);
      } else {
        ApplyThree(digest, w, CreateFile, Initialize, Append(spec, t.now));
        ApplyOne(digest, empty, Append(spec, t.now));
      }
    }
  }

  lemma AcknowledgedConverges(digest: Digest, w: World, s: Start, t: Start)
    requires SameRequest(s, t) && w.db.Absent? && GenesisAllowed(w, s) && Claims(s) && s.now > 0
    ensures Converged(digest, w, s, t, 3)
  {
  }

  // -- existing databases

  lemma ResetShape(digest: Digest, w: World, s: Start)
    requires Undisturbed(s) && w.db.Current? && s.flags.Reset() && Open(digest, w, s).writes != []
    ensures w.db == EMPTY && GenesisAllowed(w, s) && Claims(s)
  {
  }

  lemma ResetConverges(digest: Digest, w: World, s: Start, t: Start, cut: nat)
    requires SameRequest(s, t) && w.db.Current? && s.flags.Reset()
    requires 0 < cut <= |Open(digest, w, s).writes|
    ensures Converged(digest, w, s, t, cut)
  {
    var r := Open(digest, w, s);
    ResetShape(digest, w, s);
    EmptyShape(digest, w, s);
    var spec := ResetSpec(s.tip.value);
    ApplyOne(digest, w, Append(spec, s.now));
    assert r.writes[..cut] == r.writes && r.writes[0].Append?;
    AcknowledgedShape(digest, Cut(digest, r, cut), t, s.now);
  }

  /** With external evidence neither flag changes how an existing database is handled. */
  lemma EvidenceDefers(digest: Digest, w: World, s: Start)
    requires Undisturbed(s) && !w.db.Absent? && w.Evidence()
    requires (s.flags.Reset() || s.flags.Adopt()) ==> s.flags.rekor
    requires !(s.flags.Reset() && s.flags.Adopt())
    ensures Open(digest, w, s) == OpenExisting(w, s)
  {
  }

  /** Where a fresh adoption writes: exactly at the acknowledged head, with nothing public yet. */
  predicate Adoptable(digest: Digest, w: World, s: Start) {
    && s.flags.Adopt() && !s.flags.Reset() && s.flags.rekor
    && w.db.Current? && LocallyVerified(digest, w.db, s.faults) && !w.Evidence() && !w.db.anchored && s.tip.None?
  }

  lemma AdoptShape(digest: Digest, w: World, s: Start)
    requires Undisturbed(s) && w.db.Current? && !s.flags.Reset() && Open(digest, w, s).writes != []
    ensures Adoptable(digest, w, s) && w.db.actions != []
    ensures var r := Open(digest, w, s);
            var tail := w.db.actions[|w.db.actions| - 1];
            var spec := AdoptSpec(s.flags.adoptID, s.flags.adoptSha);
            if IsAdoptAck(tail) then r == Result(w, [Prepare(GenesisIntent(tail))], Opened(AdoptionResumed))
            else && s.now > 0 && tail.id == |w.db.actions| == s.flags.adoptID
                 && r == Result(w, [Append(spec, s.now), Prepare(GenesisIntent(Link(digest, w.db.actions, spec, s.now)))],
                                Opened(AdoptionApplied))
  {
  }

  lemma AdoptResumeShape(digest: Digest, w: World, s: Start)
    requires Undisturbed(s) && Adoptable(digest, w, s) && w.db.actions != []
    requires w.db.actions[|w.db.actions| - 1].spec == AdoptSpec(s.flags.adoptID, s.flags.adoptSha)
    ensures Open(digest, w, s) ==
            Result(w, [Prepare(GenesisIntent(w.db.actions[|w.db.actions| - 1]))], Opened(AdoptionResumed))
  {
  }

  lemma AdoptResumeConverges(digest: Digest, w: World, s: Start, t: Start, tail: Action)
    requires SameRequest(s, t) && w.db.Current? && Adoptable(digest, w, s) && Adoptable(digest, w, t)
    requires Open(digest, w, s) == Result(w, [Prepare(GenesisIntent(tail))], Opened(AdoptionResumed))
    requires Open(digest, w, t) == Open(digest, w, s)
    ensures Converged(digest, w, s, t, 1)
  {
    var r := Open(digest, w, s);
    ApplyOne(digest, w, Prepare(GenesisIntent(tail)));
    assert r.writes[..1] == r.writes;
    EvidenceDefers(digest, Cut(digest, r, 1), t);
  }

  lemma AdoptFreshConverges(digest: Digest, w: World, s: Start, t: Start, cut: nat, spec: Spec, ack: Action)
    requires SameRequest(s, t) && w.db.Current? && Adoptable(digest, w, s) && Adoptable(digest, w, t)
    requires spec == AdoptSpec(s.flags.adoptID, s.flags.adoptSha) && ack == Link(digest, w.db.actions, spec, s.now)
    requires Open(digest, w, s) == Result(w, [Append(spec, s.now), Prepare(GenesisIntent(ack))], Opened(AdoptionApplied))
    requires 0 < cut <= 2
    ensures Converged(digest, w, s, t, cut)
  {
    var r := Open(digest, w, s);
    LinkKeepsChain(digest, w.db.actions, spec, s.now);
    ApplyOne(digest, w, Append(spec, s.now));
    ApplyTwo(digest, w, Append(spec, s.now), Prepare(GenesisIntent(ack)));
    assert r.writes[..cut][0].Append?;
    var crashed := Cut(digest, r, cut);
    if cut == 1 {
      assert r.writes[..cut] == [Append(spec, s.now)];
      AdoptResumeShape(digest, crashed, t);
      ApplyOne(digest, crashed, Prepare(GenesisIntent(ack)));
    } else {
      assert r.writes[..cut] == r.writes;
      EvidenceDefers(digest, crashed, t);
    }
  }

  lemma AdoptConverges(digest: Digest, w: World, s: Start, t: Start, cut: nat)
    requires SameRequest(s, t) && w.db.Current? && !s.flags.Reset()
    requires 0 < cut <= |Open(digest, w, s).writes|
    ensures Converged(digest, w, s, t, cut)
  {
    AdoptShape(digest, w, s);
    var tail := w.db.actions[|w.db.actions| - 1];
    if IsAdoptAck(tail) {
      AdoptResumeConverges(digest, w, s, t, tail);
    } else {
      var spec := AdoptSpec(s.flags.adoptID, s.flags.adoptSha);
      AdoptFreshConverges(digest, w, s, t, cut, spec, Link(digest, w.db.actions, spec, s.now));
    }
  }

  lemma LegacyConverges(digest: Digest, w: World, s: Start, t: Start, cut: nat)
    requires SameRequest(s, t) && w.db.LegacyV1?
    requires 0 < cut <= |Open(digest, w, s).writes|
    ensures Converged(digest, w, s, t, cut)
  {
    var r := Open(digest, w, s);
    var intent := LegacyIntent(w.db.legacyHead);
    ApplyOne(digest, w, Prepare(intent));
    ApplyOne(digest, w, Migrate);
    ApplyTwo(digest, w, Prepare(intent), Migrate);
    assert r == OpenExisting(w, s) && r == Open(digest, w, t);
    var crashed := Cut(digest, r, cut);
    if cut < |r.writes| {
      assert r.writes[..cut] == [Prepare(intent)];
      ApplyOne(digest, crashed, Migrate);
    } else {
      assert r.writes[..cut] == r.writes;
      assert crashed.db.SchemaV2?;
      assert Open(digest, crashed, t).writes == [];
    }
  }

  lemma NothingDoneConverges(digest: Digest, w: World, s: Start, t: Start)
    requires SameRequest(s, t)
    ensures Converged(digest, w, s, t, 0)
  {
  }

  /** Which crashes fall between file and schema, in terms of the start: the first write of an allowed genesis. */
  lemma WedgedIff(digest: Digest, w: World, s: Start, cut: nat)
    requires Undisturbed(s)
    ensures Wedged(Open(digest, w, s).writes, cut) <==> w.db.Absent? && GenesisAllowed(w, s) && cut == 1
  {
    if w.db.Absent? { FreshShape(digest, w, s); }
  }

  /**
   Crash convergence.  Stop a start after any number of its durable writes and
   start again with the same flag against the same log: the result is the state
   of an uninterrupted start, at the first clock if the acknowledgment was
   already written and at the second otherwise.  The one exception is a crash
   between creating the database file and writing its schema, after which no
   start writes or returns anything again.
   */
  lemma CrashConvergence(digest: Digest, w: World, s: Start, t: Start, cut: nat)
    requires SameRequest(s, t) && cut <= |Open(digest, w, s).writes|
    ensures Converged(digest, w, s, t, cut) <==> !Wedged(Open(digest, w, s).writes, cut)
    ensures Converged(digest, w, s, t, cut) <==> !(w.db.Absent? && GenesisAllowed(w, s) && cut == 1)
  {
    var r := Open(digest, w, s);
    WedgedIff(digest, w, s, cut);
    if cut == 0 {
      NothingDoneConverges(digest, w, s, t);
    } else if w.db.Absent? {
      FreshConverges(digest, w, s, t, cut);
      if Wedged(r.writes, cut) { WedgedDiverges(digest, w, s, t); }
    } else if w.db.LegacyV1? {
      LegacyConverges(digest, w, s, t, cut);
    } else if w.db.Current? {
      if s.flags.Reset() { ResetConverges(digest, w, s, t, cut); } else { AdoptConverges(digest, w, s, t, cut); }
    }
  }

  /** A database file that is not a database stays that way: every later start refuses and writes nothing. */
  lemma WedgedForever(digest: Digest, w: World, s: Start)
    requires w.db == Unreadable
    ensures Open(digest, w, s).writes == [] && Open(digest, w, s).outcome.Refused?
    ensures Final(digest, w, s) == w
  {
  }

  lemma WedgedDiverges(digest: Digest, w: World, s: Start, t: Start)
    requires SameRequest(s, t) && w.db.Absent? && Wedged(Open(digest, w, s).writes, 1)
    ensures !Converged(digest, w, s, t, 1)
  {
    var r := Open(digest, w, s);
    FreshShape(digest, w, s);
    FreshShape(digest, w, t);
    assert r.writes[..1] == [CreateFile];
    ApplyOne(digest, w, CreateFile);
    WedgedForever(digest, Cut(digest, r, 1), t);
    ApplyTwo(digest, w, CreateFile, Initialize);
    if Claims(t) && t.now > 0 {
      ApplyThree(digest, w, CreateFile, Initialize, Append(ResetSpec(t.tip.value), t.now));
    }
  }

  // -- any number of crashes

  /** One crashed start. */
  datatype Attempt = Attempt(s: Start, cut: nat)

  function Crashes(digest: Digest, w: World, attempts: seq<Attempt>): World
    decreases |attempts|
  {
    if attempts == [] then w
    else Crashes(digest, Cut(digest, Open(digest, w, attempts[0].s), attempts[0].cut), attempts[1..])
  }

  /** An attempt that got nothing done, whatever it read or failed to read. */
  predicate Futile(digest: Digest, w: World, a: Attempt) {
    var r := Open(digest, w, a.s); r.base == w && Prefix(r.writes, a.cut) == []
  }

  /** The attempt repeats the request and does not stop inside file creation. */
  predicate Repeated(digest: Digest, w: World, a: Attempt, t: Start) {
    var r := Open(digest, w, a.s); SameRequest(a.s, t) && a.cut <= |r.writes| && !Wedged(r.writes, a.cut)
  }

  /** Every attempt repeats the request or gets nothing done; with `short`, none gets all its writes done. */
  ghost predicate Repeats(digest: Digest, w: World, attempts: seq<Attempt>, t: Start, short: bool)
    decreases |attempts|
  {
    attempts == [] ||
    (var a := attempts[0];
     var r := Open(digest, w, a.s);
     (Futile(digest, w, a) || (Repeated(digest, w, a, t) && (short ==> a.cut < |r.writes|))) &&
     Repeats(digest, Cut(digest, r, a.cut), attempts[1..], t, short))
  }

  /** A start at `from` ends as one at `to` by `x` does: in the same state, and with `ending` in the same way. */
  ghost predicate EndsAs(digest: Digest, from: World, t: Start, to: World, x: Start, ending: bool) {
    && SameRequest(x, t) && Final(digest, from, t) == Final(digest, to, x)
    && (ending ==> SameEnding(Open(digest, from, t).outcome, Open(digest, to, x).outcome))
  }

  /**
   After any sequence of crashed attempts, among them any that failed without
   effect, one complete start ends where a single uninterrupted attempt would
   have, and in the same way if no earlier attempt was complete.
   */
  lemma {:induction false} ManyCrashesConverge(digest: Digest, w: World, attempts: seq<Attempt>, t: Start, short: bool)
    requires Undisturbed(t) && Repeats(digest, w, attempts, t, short)
    ensures var end := Crashes(digest, w, attempts);
            || EndsAs(digest, end, t, w, t, short)
            || exists a :: a in attempts && EndsAs(digest, end, t, w, a.s, short)
    decreases |attempts|
  {
    if attempts != [] {
      hide Open, Final;
      var a, rest := attempts[0], attempts[1..];
      var crashed := Cut(digest, Open(digest, w, a.s), a.cut);
      var end := Crashes(digest, w, attempts);
      ManyCrashesConverge(digest, crashed, rest, t, short);
      assert forall b | b in rest :: b in attempts;
      if Futile(digest, w, a) {
        assert crashed == w;
      } else if EndsAs(digest, end, t, crashed, t, short) {
        OneMoreCrash(digest, w, a, end, t, t, short);
      } else {
        var b :| b in rest && EndsAs(digest, end, t, crashed, b.s, short);
        OneMoreCrash(digest, w, a, end, t, b.s, short);
      }
    }
  }

  /** Put one crashed attempt in front. */
  lemma OneMoreCrash(digest: Digest, w: World, a: Attempt, end: World, t: Start, x: Start, short: bool)
    requires Repeated(digest, w, a, t) && (short ==> a.cut < |Open(digest, w, a.s).writes|)
    requires EndsAs(digest, end, t, Cut(digest, Open(digest, w, a.s), a.cut), x, short)
    ensures EndsAs(digest, end, t, w, x, short) || EndsAs(digest, end, t, w, a.s, short)
  {
    hide Open, Final;
    CrashConvergence(digest, w, a.s, x, a.cut);
  }
}
