/**
 The release log writer: child output leaves only in whole lines, so that a
 heartbeat never splits a record, and an overlong line stops everything.
 */
module LineWriter {
  import opened Wrappers

  const MAX_LINE := 65536
  const LF := '\n'

  /** What reaches the sink, by origin. */
  datatype Chunk = Line(text: string) | Heartbeat(name: string) | Tail(text: string)

  function Bytes(c: Chunk): string {
    match c
    case Line(text) => text
    case Heartbeat(name) => "release heartbeat: " + name + " active\n"
    case Tail(text) => text
  }

  function AllBytes(chunks: seq<Chunk>): string {
    if chunks == [] then [] else AllBytes(chunks[..|chunks| - 1]) + Bytes(chunks[|chunks| - 1])
  }

  /** The child's share of the output. */
  function Child(chunks: seq<Chunk>): string {
    if chunks == [] then []
    else
      var last := chunks[|chunks| - 1];
      Child(chunks[..|chunks| - 1]) + if last.Heartbeat? then "" else Bytes(last)
  }

  datatype State = State(output: seq<Chunk>, pending: string, failed: bool)

  // ---------------------------------------------------------------- the locked helpers

  function AppendPartial(st: State, part: string): State {
    if |st.pending| + |part| > MAX_LINE then st.(failed := true) else st.(pending := st.pending + part)
  }

  function EmitLine(st: State): State { State(st.output + [Line(st.pending + [LF])], [], st.failed) }

  function IndexLF(s: string): (d: nat)
    ensures d <= |s| && LF !in s[..d] && (d < |s| ==> s[d] == LF)
  {
    if s == [] || s[0] == LF then 0 else 1 + IndexLF(s[1..])
  }

  /** `Write` against a sink that accepts everything. */
  function WriteTo(st: State, value: string): State
    decreases |value|
  {
    if st.failed || value == [] then st
    else
      var d := IndexLF(value);
      var st' := AppendPartial(st, value[..d]);
      if st'.failed || d == |value| then st' else WriteTo(EmitLine(st'), value[d + 1..])
  }

  /** Writing only adds output. */
  lemma {:induction false} WriteGrows(st: State, value: string)
    ensures st.output <= WriteTo(st, value).output
    decreases |value|
  {
    if !st.failed && value != [] {
      var d := IndexLF(value);
      var part := AppendPartial(st, value[..d]);
      if !part.failed && d < |value| { WriteGrows(EmitLine(part), value[d + 1..]); }
    }
  }

  lemma {:induction false} IndexInFront(a: string, b: string)
    requires LF in a
    ensures IndexLF(a + b) == IndexLF(a) < |a|
    decreases |a|
  {
    if a[0] != LF {
      IndexInFront(a[1..], b);
      assert (a + b)[1..] == a[1..] + b;
    }
  }

  /** A text that ends a record can be written on its own. */
  lemma {:induction false} WriteConcat(st: State, a: string, b: string)
    requires AtBoundary(a)
    ensures WriteTo(st, a + b) == WriteTo(WriteTo(st, a), b)
    decreases |a|
  {
    if a == [] {
      assert a + b == b;
    } else {
      assert a[|a| - 1] == LF && LF in a;
      IndexInFront(a, b);
      IndexInFront(a, []);
      var d := IndexLF(a);
      var part := AppendPartial(st, a[..d]);
      assert (a + b)[..d] == a[..d] && (a + b)[d + 1..] == a[d + 1..] + b;
      if !st.failed && !part.failed { WriteConcat(EmitLine(part), a[d + 1..], b); }
    }
  }

  lemma {:induction false} IndexAtEnd(part: string)
    requires LF !in part
    ensures IndexLF(part + [LF]) == |part|
    decreases |part|
  {
    if part != [] {
      IndexAtEnd(part[1..]);
      assert (part + [LF])[1..] == part[1..] + [LF] && part[0] in part;
    }
  }

  /** One record. */
  lemma {:induction false} WriteRecord(st: State, part: string)
    requires !st.failed && LF !in part && |st.pending| + |part| <= MAX_LINE
    ensures WriteTo(st, part + [LF]) == State(st.output + [Line(st.pending + part + [LF])], [], false)
  {
    hide IndexLF;
    var value := part + [LF];
    IndexAtEnd(part);
    assert value[..|part|] == part && value[|part| + 1..] == [];
  }

  lemma {:induction false} BytesExtend(a: seq<Chunk>, b: seq<Chunk>)
    requires a <= b
    ensures AllBytes(a) <= AllBytes(b)
    decreases |b|
  {
    if a == b {
    } else {
      BytesExtend(a, b[..|b| - 1]);
    }
  }

  // ---------------------------------------------------------------- the writer

  datatype Error = LineTooLong | SinkFailed

  /** What the sink makes of one call: how many bytes it reports as written, and whether it reports an error. */
  datatype Answer = Answer(written: nat, failed: bool)

  /** The writer under its lock.  `sink(k, bytes)` is the sink's k-th call. */
  class Writer {
    const sink: (nat, string) -> Answer
    var calls: nat
    var output: seq<Chunk>
    /** What the sink took of the call that failed. */
    var torn: string
    var pending: string
    var err: Option<Error>

    constructor (sink: (nat, string) -> Answer)
      ensures this.sink == sink && calls == 0 && Valid() && Abs() == State([], [], false)
    {
      this.sink := sink;
      calls, output, torn, pending, err := 0, [], "", [], None;
    }

    function Abs(): State
      reads this
    {
      State(output, pending, err.Some?)
    }

    predicate Valid()
      reads this
    {
      err.None? ==> torn == ""
    }

    /** Call `k` takes all the bytes. */
    predicate Accepts(k: nat, bytes: string) { sink(k, bytes) == Answer(|bytes|, false) }

    /** Everything in the sink. */
    ghost function Sunk(): string
      reads this
    {
      AllBytes(output) + torn
    }

    /** `writeLocked`: a short write is a failure, and leaves a prefix of the bytes in the sink. */
    method Emit(chunk: Chunk) returns (ok: bool)
      requires err.None? && Valid()
      modifies this
      ensures Valid()
      ensures ok == Accepts(old(calls), Bytes(chunk)) && calls == old(calls) + 1 && pending == old(pending)
      ensures ok ==> err.None? && output == old(output) + [chunk] && torn == old(torn)
      ensures !ok ==> err == Some(SinkFailed) && output == old(output)
      ensures !ok ==> torn <= Bytes(chunk) && (sink(old(calls), Bytes(chunk)).written <= |Bytes(chunk)| ==>
                                               |torn| == sink(old(calls), Bytes(chunk)).written)
    {
      var bytes := Bytes(chunk);
      var answer := sink(calls, bytes);
      calls := calls + 1;
      ok := answer.written == |bytes| && !answer.failed;
      if ok { output := output + [chunk]; return; }
      err := Some(SinkFailed);
      torn := if answer.written <= |bytes| then bytes[..answer.written] else bytes;
    }

    /** The calls since `from` were the lines since `before`, all accepted. */
    ghost predicate Called(from: nat, before: seq<Chunk>, to: nat, after: seq<Chunk>) {
      && before <= after && to == from + |after| - |before|
      && forall i | |before| <= i < |after| :: Accepts(from + i - |before|, Bytes(after[i]))
    }

    /**
     `Write`.  Unless the sink fails the new state is `WriteTo`'s, and the sink
     was called once for every line, successfully.  If it fails, the call for
     the next line failed, the writer stays where it was before that line, and
     the bytes in the sink are a prefix of what `WriteTo` puts there.  `n` is all
     of the text on success and otherwise the records up to the failure: the
     writer has written them, except for the last one if the sink refused it.  An
     error is sticky and nothing is written behind it.
     */
    method Write(value: string) returns (n: nat, ok: bool)
      requires Valid()
      modifies this
      ensures Valid() && old(output) <= output
      ensures ok == err.None? && (ok ==> n == |value|) && n <= |value| && (!ok ==> AtBoundary(value[..n]))
      ensures old(err).Some? ==> Abs() == old(Abs()) && n == 0 && calls == old(calls) && torn == old(torn)
      ensures err != Some(SinkFailed) ==>
                && Abs() == WriteTo(old(Abs()), value) && torn == old(torn)
                && Called(old(calls), old(output), calls, output)
      ensures err == Some(LineTooLong) && old(err).None? ==> output == WriteTo(old(Abs()), value[..n]).output
      ensures err == Some(SinkFailed) && old(err).None? ==>
                && n > 0 && output + [Line(pending + [LF])] == WriteTo(old(Abs()), value[..n]).output
                && output + [Line(pending + [LF])] <= WriteTo(old(Abs()), value).output
                && calls > old(calls) && Called(old(calls), old(output), calls - 1, output)
                && !Accepts(calls - 1, pending + [LF]) && torn <= pending + [LF]
      ensures old(err).None? ==> Sunk() <= AllBytes(WriteTo(old(Abs()), value).output)
    {
      hide WriteTo, IndexLF, AtBoundary, AllBytes, At;
      n := 0;
      if err.Some? {
        NothingMore(Abs(), value);
        return 0, false;
      }
      ghost var start := Abs();
      ghost var spec := WriteTo(start, value);
      AtStart(start, value);
      while n < |value|
        invariant err.None? && torn == "" && n <= |value| && At(start, value, n, Abs())
        invariant old(output) <= output && Called(old(calls), old(output), calls, output)
      {
        var rest := value[n..];
        var d := IndexLF(rest);
        AtHere(start, value, n, Abs());
        if |pending| + d > MAX_LINE {
          AtLong(start, value, n, Abs());
          err := Some(LineTooLong);
          return n, false;
        }
        if d == |rest| {
          AtPartial(start, value, n, Abs());
          pending := pending + rest;
          return |value|, true;
        }
        AtNext(start, value, n, Abs(), d);
        pending, n := pending + rest[..d], n + d + 1;
        AtHere(start, value, n, State(output + [Line(pending + [LF])], [], false));
        var emitted := Emit(Line(pending + [LF]));
        if !emitted {
          SunkPrefix(output, torn, Line(pending + [LF]), spec.output);
          return n, false;
        }
        pending := [];
      }
      AtEnd(start, value, Abs());
      AtHere(start, value, n, Abs());
      return |value|, true;
    }

    method Beat(name: string) returns (ok: bool)
      requires Valid()
      modifies this
      ensures Valid() && ok == err.None? && pending == old(pending)
      ensures ok ==> output == old(output) + [Heartbeat(name)]
      ensures ok ==> AllBytes(output) == old(AllBytes(output)) + "release heartbeat: " + name + " active\n"
      ensures !ok ==> output == old(output)
      ensures old(err).None? ==> ok == Accepts(old(calls), Bytes(Heartbeat(name)))
      ensures old(err).Some? ==> err == old(err) && calls == old(calls)
    {
      if err.Some? { return false; }
      ok := Emit(Heartbeat(name));
    }

    method Flush() returns (ok: bool)
      requires Valid()
      modifies this
      ensures Valid() && ok == err.None?
      ensures ok ==> pending == [] && output == old(output) + if old(pending) == [] then [] else [Tail(old(pending))]
      ensures ok ==> AllBytes(output) == old(AllBytes(output)) + old(pending)
      ensures !ok ==> output == old(output) && pending == old(pending)
      ensures old(err).None? ==> ok == (old(pending) == [] || Accepts(old(calls), old(pending)))
    {
      if err.Some? { return false; }
      if pending == [] { return true; }
      ok := Emit(Tail(pending));
      if ok { pending := []; }
    }
  }

  // ---------------------------------------------------------------- between two records

  /** The first `n` characters are whole records, and writing them led from `start` to `st`. */
  ghost predicate At(start: State, value: string, n: nat, st: State) {
    && n <= |value| && AtBoundary(value[..n])
    && WriteTo(start, value[..n]) == st && WriteTo(st, value[n..]) == WriteTo(start, value)
  }

  lemma AtStart(start: State, value: string)
    ensures At(start, value, 0, start)
  {
    assert value[..0] == [] && value[0..] == value;
  }

  lemma AtHere(start: State, value: string, n: nat, st: State)
    requires At(start, value, n, st)
    ensures n <= |value| && AtBoundary(value[..n]) && WriteTo(start, value[..n]) == st
    ensures st.output <= WriteTo(start, value).output && AllBytes(st.output) <= AllBytes(WriteTo(start, value).output)
  {
    hide WriteTo;
    WriteGrows(st, value[n..]);
    BytesExtend(st.output, WriteTo(start, value).output);
  }

  lemma AtEnd(start: State, value: string, st: State)
    requires At(start, value, |value|, st)
    ensures WriteTo(start, value) == st
  {
    assert value[..|value|] == value;
  }

  lemma AtLong(start: State, value: string, n: nat, st: State)
    requires At(start, value, n, st) && n < |value| && !st.failed && |st.pending| + IndexLF(value[n..]) > MAX_LINE
    ensures WriteTo(start, value) == st.(failed := true)
  {
  }

  lemma AtPartial(start: State, value: string, n: nat, st: State)
    requires At(start, value, n, st) && n < |value| && !st.failed
    requires IndexLF(value[n..]) == |value| - n && |st.pending| + |value| - n <= MAX_LINE
    ensures WriteTo(start, value) == st.(pending := st.pending + value[n..])
    ensures AllBytes(st.output) <= AllBytes(WriteTo(start, value).output)
  {
    var rest := value[n..];
    assert rest[..|rest|] == rest;
  }

  lemma AtNext(start: State, value: string, n: nat, st: State, d: nat)
    requires At(start, value, n, st) && !st.failed && n + d < |value|
    requires IndexLF(value[n..]) == d && |st.pending| + d <= MAX_LINE
    ensures At(start, value, n + d + 1, State(st.output + [Line(st.pending + value[n..][..d] + [LF])], [], false))
  {
    hide WriteTo, IndexLF;
    var rest := value[n..];
    var part := rest[..d];
    WriteRecord(st, part);
    assert value[..n + d + 1] == value[..n] + (part + [LF]);
    WriteConcat(start, value[..n], part + [LF]);
    assert rest == (part + [LF]) + value[n + d + 1..];
    WriteConcat(st, part + [LF], value[n + d + 1..]);
  }

  lemma {:induction false} NothingMore(st: State, value: string)
    requires st.failed
    ensures WriteTo(st, value) == st && AtBoundary(value[..0])
  {
  }

  lemma {:induction false} SunkPrefix(output: seq<Chunk>, torn: string, chunk: Chunk, spec: seq<Chunk>)
    requires output + [chunk] <= spec && torn <= Bytes(chunk)
    ensures AllBytes(output) + torn <= AllBytes(spec)
  {
    BytesExtend(output + [chunk], spec);
    assert (output + [chunk])[..|output|] == output;
  }

  // ---------------------------------------------------------------- one character at a time

  /** The same writer fed character by character. */
  function Push(st: State, c: char): State {
    if st.failed then st
    else if c == LF then EmitLine(st)
    else if |st.pending| == MAX_LINE then st.(failed := true)
    else st.(pending := st.pending + [c])
  }

  function Feed(st: State, s: string): State {
    if s == [] then st else Push(Feed(st, s[..|s| - 1]), s[|s| - 1])
  }

  lemma {:induction false} FeedConcat(st: State, a: string, b: string)
    ensures Feed(st, a + b) == Feed(Feed(st, a), b)
    decreases |b|
  {
    hide Push;
    if b == [] {
      assert a + b == a;
    } else {
      FeedConcat(st, a, b[..|b| - 1]);
      assert (a + b)[..|a + b| - 1] == a + b[..|b| - 1];
    }
  }

  lemma {:induction false} FeedFailed(st: State, s: string)
    requires st.failed
    ensures Feed(st, s) == st
  {
    if s != [] { FeedFailed(st, s[..|s| - 1]); }
  }

  /** Two states that differ at most in what a failed writer still holds. */
  predicate Same(a: State, b: State) {
    a.output == b.output && a.failed == b.failed && (!a.failed ==> a.pending == b.pending)
  }

  lemma {:induction false} FeedPart(st: State, part: string)
    requires !st.failed && LF !in part && |st.pending| <= MAX_LINE
    ensures Same(Feed(st, part), AppendPartial(st, part))
    decreases |part|
  {
    if part == [] {
      assert st.pending + part == st.pending;
    } else {
      var front, c := part[..|part| - 1], part[|part| - 1];
      FeedPart(st, front);
      assert c in part && (st.pending + front) + [c] == st.pending + part;
    }
  }

  lemma {:induction false} FeedSame(a: State, b: State, s: string)
    requires Same(a, b)
    ensures Same(Feed(a, s), Feed(b, s))
    decreases |s|
  {
    if s != [] { FeedSame(a, b, s[..|s| - 1]); }
  }

  /** `Write` in chunks does what feeding characters does. */
  lemma {:induction false} WriteIsFeed(st: State, value: string)
    requires |st.pending| <= MAX_LINE
    ensures Same(WriteTo(st, value), Feed(st, value)) && |WriteTo(st, value).pending| <= MAX_LINE
    decreases |value|
  {
    hide Feed, Push;
    if st.failed {
      FeedFailed(st, value);
    } else if value == [] {
      FeedNothing(st);
    } else {
      var d := IndexLF(value);
      var part := AppendPartial(st, value[..d]);
      FeedPart(st, value[..d]);
      if d == |value| {
        assert value[..d] == value;
      } else {
        var rest := value[d + 1..];
        assert value == value[..d] + ([LF] + rest);
        FeedConcat(st, value[..d], [LF] + rest);
        FeedSame(Feed(st, value[..d]), part, [LF] + rest);
        if part.failed {
          FeedFailed(part, [LF] + rest);
        } else {
          FeedConcat(part, [LF], rest);
          FeedLF(part);
          WriteIsFeed(EmitLine(part), rest);
        }
      }
    }
  }

  lemma {:induction false} FeedNothing(st: State)
    ensures Feed(st, []) == st
  {
  }

  lemma {:induction false} FeedLF(st: State)
    requires !st.failed
    ensures Feed(st, [LF]) == EmitLine(st)
  {
  }

  // ---------------------------------------------------------------- what a stream becomes

  /** More than a line's worth of text from `i` on without a line end. */
  predicate StretchAt(s: string, i: nat) { i + 65537 <= |s| && '\n' !in s[i..i + 65537] }

  /** Some stretch of the stream is longer than a line may be. */
  ghost predicate Overlong(s: string) { exists i: nat :: StretchAt(s, i) }

  /** Only whole lines and heartbeats. */
  predicate WholeLines(chunks: seq<Chunk>) {
    forall c | c in chunks :: !c.Tail? && (c.Line? ==> c.text != [] && c.text[|c.text| - 1] == LF)
  }

  /** The text ends where a record ends. */
  predicate AtBoundary(s: string) { s == [] || s[|s| - 1] == LF }

  /** What the writer holds after the child produced `s`. */
  ghost predicate Holds(st: State, s: string) {
    && WholeLines(st.output) && AtBoundary(Child(st.output))
    && (st.failed <==> Overlong(s))
    && (!st.failed ==> Child(st.output) + st.pending == s && LF !in st.pending && |st.pending| <= MAX_LINE)
    && (st.failed ==> Child(st.output) <= s)
  }

  lemma {:induction false} LineExtends(output: seq<Chunk>, text: string)
    ensures Child(output + [Line(text)]) == Child(output) + text
  {
  }

  lemma StretchBefore(s: string, c: char, i: nat)
    requires i + MAX_LINE + 1 <= |s|
    ensures StretchAt(s + [c], i) == StretchAt(s, i)
  {
    assert (s + [c])[i..i + MAX_LINE + 1] == s[i..i + MAX_LINE + 1];
  }

  lemma OverlongExtends(s: string, c: char)
    requires Overlong(s)
    ensures Overlong(s + [c])
  {
    var i: nat :| StretchAt(s, i);
    StretchBefore(s, c, i);
  }

  /** One more character makes the stream overlong only by completing a stretch that ends with it. */
  lemma OverlongAt(s: string, c: char)
    requires !Overlong(s)
    ensures Overlong(s + [c]) <==> c != LF && |s| >= MAX_LINE && LF !in s[|s| - MAX_LINE..]
  {
    var t := s + [c];
    forall i: nat | i + MAX_LINE + 1 <= |s| ensures !StretchAt(t, i) { StretchBefore(s, c, i); }
    if |s| >= MAX_LINE {
      var i := |s| - MAX_LINE;
      assert t[i..i + MAX_LINE + 1] == s[i..] + [c];
      assert StretchAt(t, i) <==> c != LF && LF !in s[i..];
    }
  }

  /** The trailing stretch is free of line ends for exactly as long as the pending text. */
  lemma TrailingStretch(child: string, pending: string)
    requires AtBoundary(child) && LF !in pending && |pending| <= MAX_LINE
    ensures var s := child + pending;
            |s| >= MAX_LINE && LF !in s[|s| - MAX_LINE..] <==> |pending| == MAX_LINE
  {
    var s := child + pending;
    if |pending| == MAX_LINE {
      assert s[|s| - MAX_LINE..] == pending;
    } else if |s| >= MAX_LINE {
      var at := |child| - 1;
      assert s[at] == LF && at >= |s| - MAX_LINE;
      assert s[|s| - MAX_LINE..][at - (|s| - MAX_LINE)] == LF;
    }
  }

  lemma HoldsPush(st: State, s: string, c: char)
    requires Holds(st, s)
    ensures Holds(Push(st, c), s + [c])
  {
    hide Overlong, Child;
    if st.failed {
      OverlongExtends(s, c);
    } else {
      OverlongAt(s, c);
      TrailingStretch(Child(st.output), st.pending);
      if c == LF {
        LineExtends(st.output, st.pending + [LF]);
        assert Child(st.output) + (st.pending + [LF]) == s + [LF];
      } else if |st.pending| < MAX_LINE {
        assert Child(st.output) + (st.pending + [c]) == s + [c];
      }
    }
  }

  /** Heartbeats do not disturb what the writer holds. */
  lemma {:induction false} HoldsBeat(st: State, s: string, name: string)
    requires Holds(st, s)
    ensures Holds(st.(output := st.output + [Heartbeat(name)]), s)
  {
  }

  lemma {:induction false} HoldsFeed(st: State, s: string, more: string)
    requires Holds(st, s)
    ensures Holds(Feed(st, more), s + more)
    decreases |more|
  {
    hide Holds, Push;
    if more == [] {
      assert s + more == s;
    } else {
      var front, c := more[..|more| - 1], more[|more| - 1];
      HoldsFeed(st, s, front);
      HoldsPush(Feed(st, front), s + front, c);
      assert s + more == (s + front) + [c];
    }
  }

  // ---------------------------------------------------------------- every run

  datatype Event = Write(value: string) | Beat(name: string)

  function Step(st: State, e: Event): State {
    match e
    case Write(value) => WriteTo(st, value)
    case Beat(name) => if st.failed then st else st.(output := st.output + [Heartbeat(name)])
  }

  function Run(events: seq<Event>): State {
    if events == [] then State([], [], false) else Step(Run(events[..|events| - 1]), events[|events| - 1])
  }

  /** Everything the child wrote. */
  function Stream(events: seq<Event>): string {
    if events == [] then []
    else Stream(events[..|events| - 1]) + if events[|events| - 1].Write? then events[|events| - 1].value else ""
  }

  /** A failed writer holds a prefix too; `Holds` does not depend on what exactly is pending then. */
  lemma HoldsSame(a: State, b: State, s: string)
    requires Same(a, b) && Holds(b, s)
    ensures Holds(a, s)
  {
  }

  /**
   For every split of the child's stream into writes and every placement of
   heartbeats: without failure the child's output and the pending text are the
   stream; failure happens exactly when some stretch of the stream is too long
   for a line, so chunking plays no part in it; and at most one line's worth of
   text is ever held back.
   */
  lemma {:induction false} WriterIsFaithful(events: seq<Event>)
    ensures Holds(Run(events), Stream(events)) && |Run(events).pending| <= 65536
    decreases |events|
  {
    hide Holds, Feed, WriteTo;
    if events == [] {
      NothingHeld();
    } else {
      var front, e := events[..|events| - 1], events[|events| - 1];
      var st, s := Run(front), Stream(front);
      WriterIsFaithful(front);
      if e.Write? {
        WriteIsFeed(st, e.value);
        HoldsFeed(st, s, e.value);
        HoldsSame(WriteTo(st, e.value), Feed(st, e.value), s + e.value);
      } else {
        HoldsBeat(st, s, e.name);
        assert s + "" == s;
      }
    }
  }

  lemma NothingHeld()
    ensures Holds(State([], [], false), [])
  {
  }

  /** A heartbeat starts on a record boundary of the whole output. */
  lemma {:induction false} HeartbeatsOnBoundaries(events: seq<Event>, k: nat)
    requires k <= |Run(events).output|
    ensures AtBoundary(AllBytes(Run(events).output[..k]))
  {
    WriterIsFaithful(events);
    var output := Run(events).output;
    assert WholeLines(output);
    if k > 0 {
      assert output[..k][..k - 1] == output[..k - 1];
      var last := output[k - 1];
      assert last in output;
      assert Bytes(last) != [] && Bytes(last)[|Bytes(last)| - 1] == LF;
    }
  }

  /** Equal up to heartbeats and to what a failed writer still holds. */
  predicate SameChild(a: State, b: State) {
    Child(a.output) == Child(b.output) && a.failed == b.failed && (!a.failed ==> a.pending == b.pending)
  }

  lemma {:induction false} FeedSameChild(a: State, b: State, s: string)
    requires SameChild(a, b)
    ensures SameChild(Feed(a, s), Feed(b, s))
    decreases |s|
  {
    hide Child;
    if s != [] {
      var front := s[..|s| - 1];
      FeedSameChild(a, b, front);
      LineExtends(Feed(a, front).output, Feed(a, front).pending + [LF]);
      LineExtends(Feed(b, front).output, Feed(b, front).pending + [LF]);
    }
  }

  lemma {:induction false} RunIsFeed(events: seq<Event>)
    ensures SameChild(Run(events), Feed(State([], [], false), Stream(events)))
    decreases |events|
  {
    hide Feed, WriteTo;
    var start := State([], [], false);
    if events == [] {
      FeedNothing(start);
    } else {
      var front, e := events[..|events| - 1], events[|events| - 1];
      RunIsFeed(front);
      if e.Write? {
        WriterIsFaithful(front);
        WriteIsFeed(Run(front), e.value);
        FeedConcat(start, Stream(front), e.value);
        FeedSameChild(Run(front), Feed(start, Stream(front)), e.value);
      } else {
        assert Stream(front) + "" == Stream(front);
        assert (Run(front).output + [Heartbeat(e.name)])[..|Run(front).output|] == Run(front).output;
      }
    }
  }

  /** Two runs over the same stream show the same child output and fail alike, however it was cut and interleaved. */
  lemma ChunkingIsIrrelevant(a: seq<Event>, b: seq<Event>)
    requires Stream(a) == Stream(b)
    ensures SameChild(Run(a), Run(b))
  {
    RunIsFeed(a);
    RunIsFeed(b);
  }
}
