/**
  The two stream readers of one bash command. Between two awaits a reader runs
  alone, so the readers interleave in three kinds of segments: data arrived,
  the publication of a chunk finished, end of stream. The model is the state
  after each segment; a timeout or the end of the process may cut the run
  after any of them.
 */
module BashOutputs {
  import opened Prelude

  const MAX_CONTENT_CHAR_LENGTH := 1024 * 1024

  datatype Stream = Stdout | Stderr

  /** Where a reader awaits: its next read, the publication of a chunk, or nothing any more. */
  datatype Phase = Reading | Publishing | Finished

  /** A reader's own buffer, and the variable it shares with the code that writes the final event. */
  datatype Reader = Reader(phase: Phase, buffer: string, shared: string)

  datatype Chunk = Chunk(stream: Stream, text: string, order: nat)

  datatype State = State(out: Reader, err: Reader, order: nat, saved: seq<Chunk>)

  datatype Segment = Data(stream: Stream, text: string) | Published(stream: Stream) | Eof(stream: Stream)

  const START := State(Reader(Reading, "", ""), Reader(Reading, "", ""), 0, [])

  function Get(s: State, stream: Stream): (r: Reader) {
    if stream.Stdout? then s.out else s.err
  }

  function Put(s: State, stream: Stream, r: Reader): (s': State) {
    if stream.Stdout? then s.(out := r) else s.(err := r)
  }

  /** The head of the inner loop: save one full chunk and await its publication, or go back to reading. */
  function SplitIfLong(s: State, stream: Stream): (s': State) {
    var r := Get(s, stream);
    if |r.buffer| > MAX_CONTENT_CHAR_LENGTH then
      var chunk := Chunk(stream, r.buffer[..MAX_CONTENT_CHAR_LENGTH], s.order);
      var rest := r.buffer[MAX_CONTENT_CHAR_LENGTH..];
      Put(s, stream, r.(phase := Publishing, buffer := rest)).(saved := s.saved + [chunk])
    else Put(s, stream, r.(phase := Reading))
  }

  predicate Enabled(s: State, g: Segment) {
    match g
    case Data(stream, _) => Get(s, stream).phase.Reading?
    case Published(stream) => Get(s, stream).phase.Publishing?
    case Eof(stream) => Get(s, stream).phase.Reading?
  }

  function Run(s: State, g: Segment): (s': State) {
    var r := Get(s, g.stream);
    match g
    case Data(stream, text) =>
      SplitIfLong(Put(s, stream, r.(buffer := r.buffer + text, shared := r.buffer + text)), stream)
    case Published(stream) =>
      SplitIfLong(Put(s.(order := s.order + 1), stream, r.(shared := r.buffer)), stream)
    case Eof(stream) => Put(s, stream, r.(phase := Finished))
  }

  // --------------------------------------------------- the readers themselves

  /** The closure variables of _execute_bash_command and its two read_stream coroutines. */
  class CommandOutput {
    var outputOrder: nat
    var stdoutBuffer: string
    var stderrBuffer: string
    var outLocal: string
    var errLocal: string
    var outPhase: Phase
    var errPhase: Phase
    var saved: seq<Chunk>

    ghost function View(): (s: State)
      reads this
    {
      State(Reader(outPhase, outLocal, stdoutBuffer), Reader(errPhase, errLocal, stderrBuffer), outputOrder, saved)
    }

    constructor ()
      ensures View() == START
    {
      outputOrder, stdoutBuffer, stderrBuffer := 0, "", "";
      outLocal, errLocal, outPhase, errPhase, saved := "", "", Reading, Reading, [];
    }

    /** Runs from an await to the next one: at most one chunk is cut off and saved. */
    method CutChunk(stream: Stream)
      modifies this
      ensures View() == SplitIfLong(old(View()), stream)
    {
      var buffer := if stream.Stderr? then errLocal else outLocal;
      var phase := Reading;
      if |buffer| > MAX_CONTENT_CHAR_LENGTH {
        var chunk := buffer[..MAX_CONTENT_CHAR_LENGTH];
        buffer := buffer[MAX_CONTENT_CHAR_LENGTH..];
        saved := saved + [Chunk(stream, chunk, outputOrder)];
        phase := Publishing;
      }
      if stream.Stderr? {
        errLocal, errPhase := buffer, phase;
      } else {
        outLocal, outPhase := buffer, phase;
      }
    }

    /** stream.read returned data. */
    method OnData(stream: Stream, text: string)
      requires Enabled(View(), Data(stream, text))
      modifies this
      ensures View() == Run(old(View()), Data(stream, text))
    {
      if stream.Stderr? {
        errLocal := errLocal + text;
        stderrBuffer := errLocal;
      } else {
        outLocal := outLocal + text;
        stdoutBuffer := outLocal;
      }
      CutChunk(stream);
    }

    /** The awaited publication of the last chunk finished. */
    method OnPublished(stream: Stream)
      requires Enabled(View(), Published(stream))
      modifies this
      ensures View() == Run(old(View()), Published(stream))
    {
      outputOrder := outputOrder + 1;
      if stream.Stderr? {
        stderrBuffer := errLocal;
      } else {
        stdoutBuffer := outLocal;
      }
      CutChunk(stream);
    }

    method OnEof(stream: Stream)
      requires Enabled(View(), Eof(stream))
      modifies this
      ensures View() == Run(old(View()), Eof(stream))
    {
      if stream.Stderr? {
        errPhase := Finished;
      } else {
        outPhase := Finished;
      }
    }

    /** The final event, written from the shared buffers alone. */
    method FinalOutput(exitCode: Option<int>) returns (event: Option<FinalEvent>)
      ensures event == Final(View(), exitCode)
    {
      var finalStdout := if stdoutBuffer != "" then Some(stdoutBuffer) else None;
      var finalStderr := if stderrBuffer != "" then Some(stderrBuffer) else None;
      if finalStdout.Some? || finalStderr.Some? || exitCode.Some? {
        event := Some(FinalEvent(outputOrder, exitCode, finalStdout, finalStderr));
      } else {
        event := None;
      }
    }
  }

  datatype FinalEvent = FinalEvent(order: nat, exitCode: Option<int>, stdout: Option<string>, stderr: Option<string>)

  function NonEmpty(s: string): (text: Option<string>) {
    if s == "" then None else Some(s)
  }

  function Final(s: State, exitCode: Option<int>): (event: Option<FinalEvent>) {
    if s.out.shared == "" && s.err.shared == "" && exitCode.None? then None
    else Some(FinalEvent(s.order, exitCode, NonEmpty(s.out.shared), NonEmpty(s.err.shared)))
  }

  // ------------------------------------------------------------------- runs

  /** The state after the first n segments of an interleaving. */
  ghost function After(run: seq<Segment>, n: nat): (s: State)
    requires n <= |run|
  {
    if n == 0 then START else Run(After(run, n - 1), run[n - 1])
  }

  ghost predicate Interleaving(run: seq<Segment>) {
    forall k: nat :: k < |run| ==> Enabled(After(run, k), run[k])
  }

  /** Everything read from a stream in the first n segments. */
  ghost function Consumed(run: seq<Segment>, n: nat, stream: Stream): (text: string)
    requires n <= |run|
  {
    if n == 0 then ""
    else
      var g := run[n - 1];
      Consumed(run, n - 1, stream) + (if g.Data? && g.stream == stream then g.text else "")
  }

  /** The text of a stream in the saved events, in save order. */
  ghost function Text(saved: seq<Chunk>, stream: Stream): (text: string) {
    if saved == [] then ""
    else Text(saved[..|saved| - 1], stream) +
         (if saved[|saved| - 1].stream == stream then saved[|saved| - 1].text else "")
  }

  ghost function FinalText(event: Option<FinalEvent>, stream: Stream): (final: string) {
    match event
    case None => ""
    case Some(e) =>
      match (if stream.Stdout? then e.stdout else e.stderr)
      case None => ""
      case Some(text) => text
  }

  ghost function Count(saved: seq<Chunk>, stream: Stream): (count: nat) {
    if saved == [] then 0
    else Count(saved[..|saved| - 1], stream) + (if saved[|saved| - 1].stream == stream then 1 else 0)
  }

  // ------------------------------------------------------------ conservation

  /**
    One reader: what was saved and what it still buffers is what it consumed;
    the shared variable lags by the chunk being published.
   */
  ghost predicate StreamInv(s: State, stream: Stream, consumed: string) {
    var r := Get(s, stream);
    var text := Text(s.saved, stream);
    && text + r.buffer == consumed
    && |text| == Count(s.saved, stream) * MAX_CONTENT_CHAR_LENGTH
    && (r.phase.Publishing? ==>
          |r.shared| == |r.buffer| + MAX_CONTENT_CHAR_LENGTH && |text| >= MAX_CONTENT_CHAR_LENGTH &&
          text[..|text| - MAX_CONTENT_CHAR_LENGTH] + r.shared == consumed)
    && (!r.phase.Publishing? ==> r.shared == r.buffer && |r.buffer| <= MAX_CONTENT_CHAR_LENGTH)
    && (Count(s.saved, stream) > 0 ==> r.buffer != "")
  }

  ghost predicate FullChunks(s: State) {
    forall k :: 0 <= k < |s.saved| ==> |s.saved[k].text| == MAX_CONTENT_CHAR_LENGTH
  }

  lemma {:induction false} SplitKeepsStream(s: State, stream: Stream, consumed: string)
    requires Text(s.saved, stream) + Get(s, stream).buffer == consumed
    requires |Text(s.saved, stream)| == Count(s.saved, stream) * MAX_CONTENT_CHAR_LENGTH
    requires Get(s, stream).shared == Get(s, stream).buffer
    requires Count(s.saved, stream) > 0 ==> Get(s, stream).buffer != ""
    requires FullChunks(s)
    ensures StreamInv(SplitIfLong(s, stream), stream, consumed)
    ensures FullChunks(SplitIfLong(s, stream))
  {
    hide Text, Count;
    var r := Get(s, stream);
    if |r.buffer| > MAX_CONTENT_CHAR_LENGTH {
      var head, tail := r.buffer[..MAX_CONTENT_CHAR_LENGTH], r.buffer[MAX_CONTENT_CHAR_LENGTH..];
      var text := Text(s.saved, stream);
      TextOfOneMore(s.saved, Chunk(stream, head, s.order), stream);
      assert r.buffer == head + tail;
      assert (text + head)[..|text + head| - MAX_CONTENT_CHAR_LENGTH] == text;
      assert (text + head) + tail == text + (head + tail);
    }
  }

  lemma {:induction false} TextOfOneMore(saved: seq<Chunk>, chunk: Chunk, stream: Stream)
    ensures Text(saved + [chunk], stream) ==
            if chunk.stream == stream then Text(saved, stream) + chunk.text else Text(saved, stream)
    ensures Count(saved + [chunk], stream) == Count(saved, stream) + (if chunk.stream == stream then 1 else 0)
  {
    assert (saved + [chunk])[..|saved|] == saved;
  }

  /** Splitting one stream's buffer does not touch the other's text. */
  lemma {:induction false} SplitLeavesOther(s: State, stream: Stream, other: Stream)
    requires other != stream
    ensures var s' := SplitIfLong(s, stream);
            && Get(s', other) == Get(s, other)
            && Text(s'.saved, other) == Text(s.saved, other)
            && Count(s'.saved, other) == Count(s.saved, other)
  {
    hide Text, Count;
    var r := Get(s, stream);
    if |r.buffer| > MAX_CONTENT_CHAR_LENGTH {
      TextOfOneMore(s.saved, Chunk(stream, r.buffer[..MAX_CONTENT_CHAR_LENGTH], s.order), other);
    }
  }

  ghost predicate BothInv(run: seq<Segment>, n: nat)
    requires n <= |run|
  {
    && StreamInv(After(run, n), Stdout, Consumed(run, n, Stdout))
    && StreamInv(After(run, n), Stderr, Consumed(run, n, Stderr))
    && FullChunks(After(run, n))
  }

  lemma OwnSegmentKeepsStream(s: State, g: Segment, consumed: string)
    requires StreamInv(s, g.stream, consumed) && FullChunks(s) && Enabled(s, g)
    ensures StreamInv(Run(s, g), g.stream, consumed + (if g.Data? then g.text else ""))
    ensures FullChunks(Run(s, g))
  {
    hide SplitIfLong, Text, Count, FullChunks;
    var stream, r := g.stream, Get(s, g.stream);
    assert consumed + "" == consumed;
    match g
    case Data(_, text) =>
      var s1 := Put(s, stream, r.(buffer := r.buffer + text, shared := r.buffer + text));
      assert Text(s.saved, stream) + (r.buffer + text) == consumed + text;
      SplitKeepsStream(s1, stream, consumed + text) by { SameChunksFull(s, s1); }
    case Published(_) =>
      var s1 := Put(s.(order := s.order + 1), stream, r.(shared := r.buffer));
      SplitKeepsStream(s1, stream, consumed) by { SameChunksFull(s, s1); }
    case Eof(_) => SameChunksFull(s, Run(s, g));
  }

  /** The saved chunks are all FullChunks looks at. */
  lemma SameChunksFull(s: State, s': State)
    requires FullChunks(s) && s'.saved == s.saved
    ensures FullChunks(s')
  {
  }

  lemma OtherSegmentKeepsStream(s: State, g: Segment, stream: Stream, consumed: string)
    requires StreamInv(s, stream, consumed) && g.stream != stream
    ensures StreamInv(Run(s, g), stream, consumed)
  {
    hide SplitIfLong, Text, Count;
    var r := Get(s, g.stream);
    match g
    case Data(_, text) =>
      SplitLeavesOther(Put(s, g.stream, r.(buffer := r.buffer + text, shared := r.buffer + text)), g.stream, stream);
    case Published(_) =>
      SplitLeavesOther(Put(s.(order := s.order + 1), g.stream, r.(shared := r.buffer)), g.stream, stream);
    case Eof(_) =>
  }

  /** One segment keeps both streams' invariants. */
  lemma SegmentKeepsText(s: State, g: Segment, consumed: string, other: Stream, otherConsumed: string)
    requires StreamInv(s, g.stream, consumed) && StreamInv(s, other, otherConsumed) && other != g.stream
    requires FullChunks(s) && Enabled(s, g)
    ensures StreamInv(Run(s, g), g.stream, consumed + (if g.Data? then g.text else ""))
    ensures StreamInv(Run(s, g), other, otherConsumed)
    ensures FullChunks(Run(s, g))
  {
    hide StreamInv, FullChunks, Run, Enabled;
    OwnSegmentKeepsStream(s, g, consumed);
    OtherSegmentKeepsStream(s, g, other, otherConsumed);
  }

  lemma {:induction false} EveryInterleavingKeepsText(run: seq<Segment>, n: nat)
    requires Interleaving(run) && n <= |run|
    ensures BothInv(run, n)
  {
    hide StreamInv, Run, Enabled, FullChunks;
    if n == 0 {
      assert StreamInv(START, Stdout, "") && StreamInv(START, Stderr, "") && FullChunks(START) by { StartInv(); }
    } else {
      EveryInterleavingKeepsText(run, n - 1);
      var s, g := After(run, n - 1), run[n - 1];
      var other := if g.stream.Stdout? then Stderr else Stdout;
      SegmentKeepsText(s, g, Consumed(run, n - 1, g.stream), other, Consumed(run, n - 1, other));
      assert Consumed(run, n, other) == Consumed(run, n - 1, other) + "" == Consumed(run, n - 1, other);
    }
  }

  lemma StartInv()
    ensures StreamInv(START, Stdout, "") && StreamInv(START, Stderr, "") && FullChunks(START)
  {
  }

  /**
    Conservation of output, exactly: cut the run anywhere, and the saved events
    followed by the final event carry precisely what a reader consumed if and
    only if that reader is not waiting for a publication at the cut. In
    particular it holds for runs that end and for timeouts that find both
    readers waiting for input.
   */
  lemma {:induction false} OutputConservedIffNotPublishing(run: seq<Segment>, exitCode: Option<int>, stream: Stream)
    requires Interleaving(run)
    ensures var s := After(run, |run|);
            Text(s.saved, stream) + FinalText(Final(s, exitCode), stream) == Consumed(run, |run|, stream)
            <==> !Get(s, stream).phase.Publishing?
  {
    hide After, Interleaving, Text, Count;
    EveryInterleavingKeepsText(run, |run|);
    var s := After(run, |run|);
    assert FinalText(Final(s, exitCode), stream) == Get(s, stream).shared;
    var text, consumed := Text(s.saved, stream), Consumed(run, |run|, stream);
    assert |consumed| == |text| + |Get(s, stream).buffer|;
  }

  /** A cut during a publication repeats that one chunk: the final event overlaps the last saved one. */
  lemma {:induction false} CutWhilePublishingRepeatsOneChunk(run: seq<Segment>, exitCode: Option<int>, stream: Stream)
    requires Interleaving(run) && Get(After(run, |run|), stream).phase.Publishing?
    ensures var s := After(run, |run|);
            var text := Text(s.saved, stream);
            && |text| >= MAX_CONTENT_CHAR_LENGTH
            && text[..|text| - MAX_CONTENT_CHAR_LENGTH] + FinalText(Final(s, exitCode), stream)
               == Consumed(run, |run|, stream)
  {
    hide After, Interleaving, Text, Count;
    EveryInterleavingKeepsText(run, |run|);
  }

  /**
    The final event: it reports the exit code it is given, there is one exactly
    when there is an exit code or some stream's text was not all saved, and a
    stream without text is None in it, not empty.
   */
  lemma {:induction false} FinalEventReports(run: seq<Segment>, exitCode: Option<int>)
    requires Interleaving(run)
    ensures var s := After(run, |run|);
            var event := Final(s, exitCode);
            && (event.Some? <==>
                || exitCode.Some?
                || Text(s.saved, Stdout) != Consumed(run, |run|, Stdout)
                || Text(s.saved, Stderr) != Consumed(run, |run|, Stderr))
            && (event.Some? ==>
                  && event.value.exitCode == exitCode
                  && (event.value.stdout.None? <==> Text(s.saved, Stdout) == Consumed(run, |run|, Stdout))
                  && (event.value.stderr.None? <==> Text(s.saved, Stderr) == Consumed(run, |run|, Stderr)))
  {
    hide After, Interleaving, Text, Count, Consumed;
    EveryInterleavingKeepsText(run, |run|);
    var s := After(run, |run|);
    SharedEmptyIffAllSaved(s, Stdout, Consumed(run, |run|, Stdout));
    SharedEmptyIffAllSaved(s, Stderr, Consumed(run, |run|, Stderr));
  }

  lemma {:induction false} SharedEmptyIffAllSaved(s: State, stream: Stream, consumed: string)
    requires StreamInv(s, stream, consumed)
    ensures Get(s, stream).shared == "" <==> Text(s.saved, stream) == consumed
  {
    hide Text, Count;
    var text := Text(s.saved, stream);
    assert |consumed| == |text| + |Get(s, stream).buffer|;
    assert Get(s, stream).buffer == "" ==> text == text + "" == consumed;
    assert Get(s, stream).phase.Publishing? ==> Count(s.saved, stream) > 0;
  }

  /** A reader that met the end of its stream does nothing any more, and has saved or kept all it read. */
  lemma {:induction false} EndOfStreamIsFinal(run: seq<Segment>, k: nat, n: nat)
    requires Interleaving(run) && k < n <= |run| && run[k].Eof?
    ensures var stream := run[k].stream;
            && Get(After(run, n), stream).phase.Finished?
            && Consumed(run, n, stream) == Consumed(run, k, stream)
            && (n < |run| ==> run[n].stream != stream)
  {
    hide Text, SplitIfLong;
    var stream := run[k].stream;
    if n == k + 1 {
      assert Consumed(run, k, stream) + "" == Consumed(run, k, stream);
    } else {
      EndOfStreamIsFinal(run, k, n - 1);
      OthersLeave(After(run, n - 1), run[n - 1], stream);
      assert Consumed(run, n - 1, stream) + "" == Consumed(run, n - 1, stream);
    }
    assert n < |run| ==> Enabled(After(run, n), run[n]);
  }

  lemma OthersLeave(s: State, g: Segment, stream: Stream)
    requires g.stream != stream
    ensures Get(Run(s, g), stream) == Get(s, stream)
  {
  }

  // ------------------------------------------------- runs of ordinary reads

  /** The most a reader asks its stream for. */
  const READ_SIZE := 8192

  /** Every read returned something, and no more than was asked for. */
  ghost predicate OrdinaryReads(run: seq<Segment>) {
    forall k :: 0 <= k < |run| && run[k].Data? ==> 0 < |run[k].text| <= READ_SIZE
  }

  lemma {:induction false} PrefixAfter(run: seq<Segment>, g: Segment, n: nat)
    requires n <= |run|
    ensures After(run + [g], n) == After(run, n)
  {
    hide Run;
    if n == 0 {
    } else {
      PrefixAfter(run, g, n - 1);
    }
  }

  /** One more segment of an interleaving. */
  lemma {:induction false} OneMore(run: seq<Segment>, g: Segment)
    requires Interleaving(run) && Enabled(After(run, |run|), g)
    ensures Interleaving(run + [g])
    ensures After(run + [g], |run| + 1) == Run(After(run, |run|), g)
  {
    hide Run, Enabled;
    forall n: nat | n <= |run|
      ensures After(run + [g], n) == After(run, n)
    {
      PrefixAfter(run, g, n);
    }
  }

  /** The stream's buffer holds n characters, all read and none cut off yet. */
  predicate Filled(s: State, stream: Stream, n: nat) {
    && Get(s, stream).phase.Reading?
    && Get(s, stream).buffer == Get(s, stream).shared
    && |Get(s, stream).buffer| == n
  }

  lemma ReadFills(s: State, stream: Stream, n: nat, text: string)
    requires Filled(s, stream, n) && n + |text| <= MAX_CONTENT_CHAR_LENGTH
    ensures var s' := Run(s, Data(stream, text));
            && Filled(s', stream, n + |text|)
            && s' == Put(s, stream, Get(s', stream))
  {
  }

  /** Reads of the full size until a buffer holds one whole chunk. */
  lemma {:induction false} FillWithReads(run: seq<Segment>, stream: Stream, n: nat) returns (filled: seq<Segment>)
    requires Interleaving(run) && OrdinaryReads(run)
    requires n <= 128 && Filled(After(run, |run|), stream, n * READ_SIZE)
    ensures Interleaving(filled) && OrdinaryReads(filled)
    ensures Filled(After(filled, |filled|), stream, MAX_CONTENT_CHAR_LENGTH)
    ensures var s, s' := After(run, |run|), After(filled, |filled|); s' == Put(s, stream, Get(s', stream))
    decreases 128 - n
  {
    hide Run, After, Interleaving;
    if n == 128 {
      filled := run;
    } else {
      var text := seq(READ_SIZE, i => 'x');
      ReadFills(After(run, |run|), stream, n * READ_SIZE, text);
      OneMore(run, Data(stream, text));
      filled := FillWithReads(run + [Data(stream, text)], stream, n + 1);
    }
  }

  /** One character too many: the buffer's chunk is cut off and its publication awaited. */
  lemma OneTooMany(s: State, stream: Stream)
    requires Filled(s, stream, MAX_CONTENT_CHAR_LENGTH)
    ensures var s' := Run(s, Data(stream, "x"));
            && s' == Put(s, stream, Get(s', stream)).(saved := s'.saved)
            && Get(s', stream).phase.Publishing? && |Get(s', stream).buffer| == 1
            && (exists text :: s'.saved == s.saved + [Chunk(stream, text, s.order)])
  {
    var r := Get(s, stream);
    var s1 := Put(s, stream, r.(buffer := r.buffer + "x", shared := r.buffer + "x"));
    assert SplitIfLong(s1, stream).saved
        == s.saved + [Chunk(stream, (r.buffer + "x")[..MAX_CONTENT_CHAR_LENGTH], s.order)];
  }

  lemma EmptyRun()
    ensures Interleaving([]) && OrdinaryReads([]) && After([], 0) == START
    ensures Filled(START, Stdout, 0) && Filled(START, Stderr, 0)
  {
  }

  /** A cut that duplicates: the run stops while the chunk that one more character forced out is published. */
  lemma TimeoutOnPublicationDuplicates(exitCode: Option<int>)
    ensures exists run: seq<Segment> ::
              && Interleaving(run) && OrdinaryReads(run)
              && var s := After(run, |run|);
              |Text(s.saved, Stdout) + FinalText(Final(s, exitCode), Stdout)|
              == |Consumed(run, |run|, Stdout)| + MAX_CONTENT_CHAR_LENGTH
  {
    hide Run, After, Interleaving, Text, Consumed, Final;
    EmptyRun();
    var run := FillWithReads([], Stdout, 0);
    OneTooMany(After(run, |run|), Stdout);
    OneMore(run, Data(Stdout, "x"));
    CutWhilePublishingRepeatsOneChunk(run + [Data(Stdout, "x")], exitCode, Stdout);
  }

  /**
    Sizes: every saved chunk has exactly the maximum length, the text that was not
    saved is not empty once any was, and the final event's text is within the
    maximum exactly when the reader is not waiting for a publication at the cut.
   */
  lemma {:induction false} ChunksAreFullAndRemainderFits(run: seq<Segment>, exitCode: Option<int>, stream: Stream)
    requires Interleaving(run)
    ensures var s := After(run, |run|);
            var final := FinalText(Final(s, exitCode), stream);
            && FullChunks(s)
            && |Consumed(run, |run|, stream)|
               == Count(s.saved, stream) * MAX_CONTENT_CHAR_LENGTH + |Get(s, stream).buffer|
            && (Count(s.saved, stream) > 0 ==> Get(s, stream).buffer != "" && final != "")
            && (|final| <= MAX_CONTENT_CHAR_LENGTH <==> !Get(s, stream).phase.Publishing?)
  {
    hide After, Interleaving, Text, Count;
    EveryInterleavingKeepsText(run, |run|);
    var s := After(run, |run|);
    assert FinalText(Final(s, exitCode), stream) == Get(s, stream).shared;
    assert Get(s, stream).phase.Publishing? ==> Count(s.saved, stream) > 0;
  }

  // ------------------------------------------------------------------ orders

  function Pending(s: State): (pending: nat) {
    (if s.out.phase.Publishing? then 1 else 0) + (if s.err.phase.Publishing? then 1 else 0)
  }

  /** Save order respects the numbers, strictly within a stream. */
  ghost predicate Numbered(saved: seq<Chunk>) {
    && (forall i, j :: 0 <= i < j < |saved| ==> saved[i].order <= saved[j].order)
    && (forall i, j ::
          0 <= i < j < |saved| && saved[i].stream == saved[j].stream ==> saved[i].order < saved[j].order)
  }

  /** No number exceeds the counter, and only a chunk still being published can equal it. */
  ghost predicate Bounded(saved: seq<Chunk>, order: nat, outPending: bool, errPending: bool) {
    && (forall k :: 0 <= k < |saved| ==> saved[k].order <= order)
    && (forall k ::
          0 <= k < |saved| && !(if saved[k].stream.Stdout? then outPending else errPending)
          ==> saved[k].order < order)
  }

  /** The shared counter counts the published chunks. */
  ghost predicate OrderInv(s: State) {
    && s.order + Pending(s) == |s.saved|
    && Numbered(s.saved)
    && Bounded(s.saved, s.order, s.out.phase.Publishing?, s.err.phase.Publishing?)
  }

  lemma OneMoreIsNumbered(saved: seq<Chunk>, chunk: Chunk)
    requires Numbered(saved)
    requires forall k :: 0 <= k < |saved| ==> saved[k].order <= chunk.order
    requires forall k :: 0 <= k < |saved| && saved[k].stream == chunk.stream ==> saved[k].order < chunk.order
    ensures Numbered(saved + [chunk])
  {
  }

  lemma SplitKeepsOrder(s: State, stream: Stream)
    requires OrderInv(s) && !Get(s, stream).phase.Publishing?
    ensures OrderInv(SplitIfLong(s, stream))
  {
    hide Numbered;
    var buffer := Get(s, stream).buffer;
    if |buffer| > MAX_CONTENT_CHAR_LENGTH {
      OneMoreIsNumbered(s.saved, Chunk(stream, buffer[..MAX_CONTENT_CHAR_LENGTH], s.order));
    }
  }

  lemma CountingKeepsOrder(s: State, stream: Stream, shared: string)
    requires OrderInv(s) && Get(s, stream).phase.Publishing?
    ensures OrderInv(Put(s.(order := s.order + 1), stream, Get(s, stream).(phase := Reading, shared := shared)))
  {
    hide Numbered;
  }

  lemma BufferingKeepsOrder(s: State, stream: Stream, phase: Phase, buffer: string, shared: string)
    requires OrderInv(s) && !Get(s, stream).phase.Publishing? && !phase.Publishing?
    ensures OrderInv(Put(s, stream, Reader(phase, buffer, shared)))
  {
    hide Numbered;
  }

  lemma SegmentKeepsOrder(s: State, g: Segment)
    requires OrderInv(s) && Enabled(s, g)
    ensures OrderInv(Run(s, g))
  {
    hide OrderInv;
    var r := Get(s, g.stream);
    match g
    case Data(stream, text) =>
      BufferingKeepsOrder(s, stream, Reading, r.buffer + text, r.buffer + text);
      SplitKeepsOrder(Put(s, stream, Reader(Reading, r.buffer + text, r.buffer + text)), stream);
    case Published(stream) =>
      var s1 := Put(s.(order := s.order + 1), stream, r.(phase := Reading, shared := r.buffer));
      CountingKeepsOrder(s, stream, r.buffer);
      SplitKeepsOrder(s1, stream);
      assert SplitIfLong(s1, stream) == Run(s, g);
    case Eof(stream) =>
      BufferingKeepsOrder(s, stream, Finished, r.buffer, r.shared);
  }

  lemma {:induction false} EveryInterleavingKeepsOrder(run: seq<Segment>, n: nat)
    requires Interleaving(run) && n <= |run|
    ensures OrderInv(After(run, n))
  {
    hide OrderInv, Run, Enabled;
    if n == 0 {
      assert OrderInv(START) by { StartOrder(); }
    } else {
      EveryInterleavingKeepsOrder(run, n - 1);
      SegmentKeepsOrder(After(run, n - 1), run[n - 1]);
    }
  }

  lemma StartOrder()
    ensures OrderInv(START)
  {
  }

  /**
    Order numbers for every interleaving: non-decreasing in save order, strictly
    increasing within a stream; the final event's number is the number of chunks
    saved exactly when no publication is pending, and is then larger than all of
    theirs.
   */
  lemma {:induction false} OrdersFollowSaves(run: seq<Segment>, exitCode: Option<int>)
    requires Interleaving(run) && Final(After(run, |run|), exitCode).Some?
    ensures var s := After(run, |run|);
            var last := Final(s, exitCode).value;
            && (forall i, j :: 0 <= i < j < |s.saved| ==> s.saved[i].order <= s.saved[j].order)
            && (forall i, j ::
                  0 <= i < j < |s.saved| && s.saved[i].stream == s.saved[j].stream
                  ==> s.saved[i].order < s.saved[j].order)
            && (last.order == |s.saved| <==> Pending(s) == 0)
            && (Pending(s) == 0 ==> forall k :: 0 <= k < |s.saved| ==> s.saved[k].order < last.order)
  {
    hide After, Interleaving;
    EveryInterleavingKeepsOrder(run, |run|);
  }

  ghost predicate DistinctOrders(saved: seq<Chunk>) {
    forall i, j :: 0 <= i < j < |saved| ==> saved[i].order != saved[j].order
  }

  /** The two readers are never both awaiting a publication. */
  ghost predicate NeverBothPublishing(run: seq<Segment>) {
    forall n: nat :: n <= |run| ==> Pending(After(run, n)) <= 1
  }

  ghost predicate NumberedByPosition(saved: seq<Chunk>) {
    forall k :: 0 <= k < |saved| ==> saved[k].order == k
  }

  /** A segment saves at most one chunk, numbered with the counter as it then stands. */
  lemma SegmentSaves(s: State, g: Segment)
    ensures var s' := Run(s, g);
            || s'.saved == s.saved
            || (Pending(s') >= 1 && exists text :: s'.saved == s.saved + [Chunk(g.stream, text, s'.order)])
  {
    var s', r := Run(s, g), Get(s, g.stream);
    if g.Data? && |r.buffer + g.text| > MAX_CONTENT_CHAR_LENGTH {
      var text := (r.buffer + g.text)[..MAX_CONTENT_CHAR_LENGTH];
      assert s'.saved == s.saved + [Chunk(g.stream, text, s'.order)];
    }
    if g.Published? && |r.buffer| > MAX_CONTENT_CHAR_LENGTH {
      var text := r.buffer[..MAX_CONTENT_CHAR_LENGTH];
      assert s'.saved == s.saved + [Chunk(g.stream, text, s'.order)];
    }
  }

  /** As long as the publications do not overlap, chunks are numbered 0, 1, 2, ... in save order. */
  lemma {:induction false} NumberedWhileNeverBoth(run: seq<Segment>, n: nat)
    requires Interleaving(run) && n <= |run| && NeverBothPublishing(run)
    ensures NumberedByPosition(After(run, n).saved)
  {
    hide Run, Enabled, Numbered, Bounded;
    if n == 0 {
    } else {
      NumberedWhileNeverBoth(run, n - 1);
      SegmentSaves(After(run, n - 1), run[n - 1]);
      EveryInterleavingKeepsOrder(run, n);
    }
  }

  /** What was saved stays saved. */
  lemma {:induction false} SavedIsKept(run: seq<Segment>, m: nat, n: nat)
    requires m <= n <= |run|
    ensures After(run, m).saved <= After(run, n).saved
  {
    hide Run;
    if m == n {
    } else {
      SavedIsKept(run, m, n - 1);
      SegmentSaves(After(run, n - 1), run[n - 1]);
    }
  }

  lemma {:induction false} DistinctReachPosition(saved: seq<Chunk>, k: nat)
    requires Numbered(saved) && DistinctOrders(saved) && k < |saved|
    ensures k <= saved[k].order
  {
    if k == 0 {
    } else {
      DistinctReachPosition(saved, k - 1);
      assert saved[k - 1].order <= saved[k].order && saved[k - 1].order != saved[k].order;
    }
  }

  /** With both publications pending, the chunks outnumber the numbers. */
  lemma BothPublishingShares(s: State)
    requires OrderInv(s) && Pending(s) == 2
    ensures !DistinctOrders(s.saved)
  {
    var last := |s.saved| - 1;
    if DistinctOrders(s.saved) {
      DistinctReachPosition(s.saved, last);
    }
  }

  /**
    Exactly when order numbers identify chunks: for every interleaving, the saved
    chunks carry distinct numbers iff the readers were never both awaiting a
    publication.
   */
  lemma {:induction false} OrdersDistinctIffNeverBothPublishing(run: seq<Segment>)
    requires Interleaving(run)
    ensures DistinctOrders(After(run, |run|).saved) <==> NeverBothPublishing(run)
  {
    hide After, Run, Interleaving, OrderInv;
    if NeverBothPublishing(run) {
      NumberedWhileNeverBoth(run, |run|);
    } else {
      var n: nat :| n <= |run| && !(Pending(After(run, n)) <= 1);
      EveryInterleavingKeepsOrder(run, n);
      BothPublishingShares(After(run, n));
      SavedIsKept(run, n, |run|);
    }
  }

  /** The final event's number is new as well iff, besides, nothing is being published at the cut. */
  lemma {:induction false} AllOrdersDistinctIff(run: seq<Segment>, exitCode: Option<int>)
    requires Interleaving(run) && Final(After(run, |run|), exitCode).Some?
    ensures var s := After(run, |run|);
            var last := Final(s, exitCode).value.order;
            (DistinctOrders(s.saved) && (forall k :: 0 <= k < |s.saved| ==> s.saved[k].order != last))
            <==> NeverBothPublishing(run) && Pending(s) == 0
  {
    hide After, Run, Interleaving, Enabled;
    OrdersDistinctIffNeverBothPublishing(run);
    OrdersFollowSaves(run, exitCode);
    EveryInterleavingKeepsOrder(run, |run|);
    var s := After(run, |run|);
    if NeverBothPublishing(run) && Pending(s) != 0 {
      NumberedWhileNeverBoth(run, |run|);
      assert Pending(s) == 1;
      assert s.saved[|s.saved| - 1].order == s.order;
    }
  }

  /** Numbers do get shared: both buffers fill up, both chunks are cut off, both publications end. */
  lemma StreamsMayShareANumber()
    ensures exists run: seq<Segment> ::
              && Interleaving(run) && OrdinaryReads(run)
              && var s := After(run, |run|);
              && Pending(s) == 0 && |s.saved| == 2
              && s.saved[0].stream != s.saved[1].stream && s.saved[0].order == s.saved[1].order
  {
    hide Run, After, Interleaving;
    EmptyRun();
    var run := FillWithReads([], Stdout, 0);
    run := FillWithReads(run, Stderr, 0);
    OneTooMany(After(run, |run|), Stdout);
    OneMore(run, Data(Stdout, "x"));
    run := run + [Data(Stdout, "x")];
    OneTooMany(After(run, |run|), Stderr);
    OneMore(run, Data(Stderr, "x"));
    run := run + [Data(Stderr, "x")];
    PublishedShort(After(run, |run|), Stdout);
    OneMore(run, Published(Stdout));
    run := run + [Published(Stdout)];
    PublishedShort(After(run, |run|), Stderr);
    OneMore(run, Published(Stderr));
    run := run + [Published(Stderr)];
  }

  /** A publication that ends with little left in the buffer: the reader goes back to reading. */
  lemma PublishedShort(s: State, stream: Stream)
    requires Get(s, stream).phase.Publishing? && |Get(s, stream).buffer| <= MAX_CONTENT_CHAR_LENGTH
    ensures var s' := Run(s, Published(stream));
            s' == Put(s, stream, Get(s', stream)).(order := s.order + 1) && Get(s', stream).phase.Reading?
  {
  }
}
