/**
 The two output streams of a child process, fed into one collector in their order of arrival:
 scripts/browser-test-runner.js, lines 102-109.
 */
module OutputStreams {
  import opened Common
  import opened DiagnosticCollector

  datatype Stream = Output | Errors

  datatype Delivery = Delivery(stream: Stream, chunk: Chunk)

  /** What the collector is given. */
  function AllChunks(deliveries: seq<Delivery>): seq<Chunk> {
    if deliveries == [] then [] else AllChunks(Init(deliveries)) + [Last(deliveries).chunk]
  }

  /** What one stream delivered. */
  function ChunksOf(deliveries: seq<Delivery>, stream: Stream): seq<Chunk> {
    if deliveries == [] then []
    else ChunksOf(Init(deliveries), stream) + if Last(deliveries).stream == stream then [Last(deliveries).chunk] else []
  }

  function AllText(deliveries: seq<Delivery>): string {
    Flatten(AllChunks(deliveries))
  }

  function TextOf(deliveries: seq<Delivery>, stream: Stream): string {
    Flatten(ChunksOf(deliveries, stream))
  }

  lemma FlattenNext(chunks: seq<Chunk>, chunk: Chunk)
    ensures Flatten(chunks + [chunk]) == Flatten(chunks) + ChunkText(chunk)
  {
    assert Init(chunks + [chunk]) == chunks;
  }

  lemma NextDelivery(deliveries: seq<Delivery>)
    requires deliveries != []
    ensures var before, last := Init(deliveries), Last(deliveries);
      && AllText(deliveries) == AllText(before) + ChunkText(last.chunk)
      && (forall s :: TextOf(deliveries, s) ==
            if s == last.stream then TextOf(before, s) + ChunkText(last.chunk) else TextOf(before, s))
  {
    var before, last := Init(deliveries), Last(deliveries);
    FlattenNext(AllChunks(before), last.chunk);
    forall s
      ensures TextOf(deliveries, s) ==
        if s == last.stream then TextOf(before, s) + ChunkText(last.chunk) else TextOf(before, s)
    {
      FlattenNext(ChunksOf(before, s), last.chunk);
      assert ChunksOf(before, s) + [] == ChunksOf(before, s);
    }
  }

  predicate AtLineEnd(text: string) {
    text == "" || Last(text) == '\n'
  }

  /** Whenever the other stream takes over, no line is unfinished. */
  predicate SwitchesAtLineEnds(deliveries: seq<Delivery>) {
    forall i | 0 < i < |deliveries| && deliveries[i].stream != deliveries[i - 1].stream ::
      AtLineEnd(AllText(deliveries[..i]))
  }

  // ----- Lines behind a line end -----

  lemma {:induction false} NothingPending(text: string)
    requires AtLineEnd(text)
    ensures Last(SplitLines(text)) == ""
  {
    if text == "" {
    } else if text[0] == '\n' {
      NothingPending(text[1..]);
    } else if |text| >= 2 && text[..2] == "\r\n" {
      NothingPending(text[2..]);
    } else {
      assert |text| > 1 && Last(text[1..]) == '\n';
      NothingPending(text[1..]);
      LineEnded(text[1..]);
    }
  }

  lemma LineEnded(text: string)
    requires text != "" && Last(text) == '\n'
    ensures |SplitLines(text)| > 1
  {
    var terminators := SplitLinesInverts(text);
    assert Last(text) in text;
  }

  lemma LinesBehind(a: string, b: string)
    requires AtLineEnd(a)
    ensures LinesOf(a + b) == LinesOf(a) + LinesOf(b)
  {
    hide SplitLines;
    NothingPending(a);
    SplitLinesContinues(a, b);
    assert "" + b == b;
    var first, second := Init(SplitLines(a)), SplitLines(b);
    assert Init(first + second) == first + Init(second) && Last(first + second) == Last(second);
  }

  // ----- Interleaving -----

  /** c is made of the entries of a and of b, those of each in their own order. */
  ghost predicate Interleaves<T(!new)>(c: seq<T>, a: seq<T>, b: seq<T>) {
    if c == [] then a == [] && b == []
    else
      || (a != [] && Last(a) == Last(c) && Interleaves(Init(c), Init(a), b))
      || (b != [] && Last(b) == Last(c) && Interleaves(Init(c), a, Init(b)))
  }

  lemma {:induction false} MoreOfFirst<T(!new)>(c: seq<T>, a: seq<T>, b: seq<T>, x: seq<T>)
    requires Interleaves(c, a, b)
    ensures Interleaves(c + x, a + x, b)
  {
    if x == [] {
      assert c + x == c && a + x == a;
    } else {
      MoreOfFirst(c, a, b, Init(x));
      assert Init(c + x) == c + Init(x) && Init(a + x) == a + Init(x);
    }
  }

  lemma {:induction false} Swapped<T(!new)>(c: seq<T>, a: seq<T>, b: seq<T>)
    requires Interleaves(c, a, b)
    ensures Interleaves(c, b, a)
  {
    if c != [] {
      if a != [] && Last(a) == Last(c) && Interleaves(Init(c), Init(a), b) {
        Swapped(Init(c), Init(a), b);
      } else {
        Swapped(Init(c), a, Init(b));
      }
    }
  }

  // ----- The streams -----

  function Other(s: Stream): Stream {
    if s == Output then Errors else Output
  }

  /**
   Everything up to some line end interleaves, and what has come since then, `open`, is of the stream that came last.
   */
  ghost predicate Apart(deliveries: seq<Delivery>, done: string, current: string, open: string, s: Stream) {
    && AtLineEnd(done) && AtLineEnd(current) && AtLineEnd(TextOf(deliveries, Other(s)))
    && AllText(deliveries) == done + open && TextOf(deliveries, s) == current + open
    && Interleaves(LinesOf(done), LinesOf(current), LinesOf(TextOf(deliveries, Other(s))))
  }

  lemma BehindLineEnd(done: string, open: string)
    requires AtLineEnd(done) && AtLineEnd(done + open)
    ensures AtLineEnd(open)
  {
    assert open != "" ==> Last(done + open) == Last(open);
  }

  lemma JoinLineEnds(a: string, b: string)
    requires AtLineEnd(a) && AtLineEnd(b)
    ensures AtLineEnd(a + b)
  {
    assert b == "" ==> a + b == a;
    assert b != "" ==> Last(a + b) == Last(b);
  }

  // What is open joins the lines of its stream.
  lemma Joined(deliveries: seq<Delivery>, done: string, current: string, open: string, s: Stream)
    requires Apart(deliveries, done, current, open, s)
    ensures var these, others := LinesOf(TextOf(deliveries, s)), LinesOf(TextOf(deliveries, Other(s)));
      Interleaves(LinesOf(AllText(deliveries)), these, others)
  {
    hide LinesOf, Interleaves;
    LinesBehind(done, open);
    LinesBehind(current, open);
    MoreOfFirst(LinesOf(done), LinesOf(current), LinesOf(TextOf(deliveries, Other(s))), LinesOf(open));
  }

  lemma {:induction false} StreamsApart(deliveries: seq<Delivery>)
    returns (done: string, current: string, open: string, s: Stream)
    requires SwitchesAtLineEnds(deliveries)
    ensures Apart(deliveries, done, current, open, s)
    ensures deliveries != [] ==> s == Last(deliveries).stream
  {
    hide LinesOf, Interleaves, AtLineEnd, AllText, TextOf;
    if deliveries == [] {
      done, current, open, s := "", "", "", Output;
      NothingDelivered();
    } else {
      var before, last := Init(deliveries), Last(deliveries);
      NextDelivery(deliveries);
      assert forall i | 0 < i < |before| :: before[..i] == deliveries[..i];
      done, current, open, s := StreamsApart(before);
      if s == last.stream {
        assert done + open + ChunkText(last.chunk) == done + (open + ChunkText(last.chunk));
        assert current + open + ChunkText(last.chunk) == current + (open + ChunkText(last.chunk));
        open := open + ChunkText(last.chunk);
      } else {
        assert AtLineEnd(AllText(before)) by {
          NoneAtLineEnd();
          assert before == deliveries[..|before|];
        }
        BehindLineEnd(done, open);
        JoinLineEnds(current, open);
        Joined(before, done, current, open, s);
        Swapped(LinesOf(AllText(before)), LinesOf(TextOf(before, s)), LinesOf(TextOf(before, Other(s))));
        done, current, open, s := AllText(before), TextOf(before, last.stream), ChunkText(last.chunk), last.stream;
      }
    }
  }

  lemma NothingDelivered()
    ensures Apart([], "", "", "", Output)
  {
  }

  lemma NoneAtLineEnd()
    ensures AllText([]) == "" && AtLineEnd("")
  {
  }

  /** When streams switch at line ends only, the lines the collector reads are those of both streams, interleaved. */
  lemma LinesInterleave(deliveries: seq<Delivery>)
    requires SwitchesAtLineEnds(deliveries)
    ensures var output, errors := LinesOf(TextOf(deliveries, Output)), LinesOf(TextOf(deliveries, Errors));
      Interleaves(LinesOf(AllText(deliveries)), output, errors)
  {
    hide LinesOf, Interleaves, AtLineEnd, AllText, TextOf;
    var done, current, open, s := StreamsApart(deliveries);
    Joined(deliveries, done, current, open, s);
    if s == Errors {
      var all, output := LinesOf(AllText(deliveries)), LinesOf(TextOf(deliveries, Output));
      Swapped(all, LinesOf(TextOf(deliveries, Errors)), output);
    }
  }

  // ----- Reports -----

  lemma {:induction false} RecordsInterleave<R(!new)>(c: seq<string>, a: seq<string>, b: seq<string>,
      decode: string -> Option<R>)
    requires Interleaves(c, a, b)
    ensures Interleaves(ValidRecords(c, decode), ValidRecords(a, decode), ValidRecords(b, decode))
    ensures InvalidCount(c, decode) == InvalidCount(a, decode) + InvalidCount(b, decode)
  {
    hide ParseLine;
    if c != [] {
      if a != [] && Last(a) == Last(c) && Interleaves(Init(c), Init(a), b) {
        RecordsInterleave(Init(c), Init(a), b, decode);
        LastRecord(c, a, b, decode);
      } else {
        Swapped(Init(c), a, Init(b));
        RecordsInterleave(Init(c), Init(b), a, decode);
        LastRecord(c, b, a, decode);
        Swapped(ValidRecords(c, decode), ValidRecords(b, decode), ValidRecords(a, decode));
      }
    }
  }

  lemma LastRecord<R(!new)>(c: seq<string>, a: seq<string>, b: seq<string>, decode: string -> Option<R>)
    requires c != [] && a != [] && Last(a) == Last(c)
    requires Interleaves(ValidRecords(Init(c), decode), ValidRecords(Init(a), decode), ValidRecords(b, decode))
    ensures Interleaves(ValidRecords(c, decode), ValidRecords(a, decode), ValidRecords(b, decode))
  {
    var x := match ParseLine(Last(c), decode) case Valid(r) => [r] case _ => [];
    MoreOfFirst(ValidRecords(Init(c), decode), ValidRecords(Init(a), decode), ValidRecords(b, decode), x);
  }

  /**
   When streams switch at line ends only, one collector over both reports what both report: the same numbers of valid
   and of invalid records, and the valid ones of each stream in their order.
   */
  lemma BothStreamsReported<R(!new)>(deliveries: seq<Delivery>, limit: nat, decode: string -> Option<R>)
    requires SwitchesAtLineEnds(deliveries)
    ensures var lines, output := LinesOf(AllText(deliveries)), LinesOf(TextOf(deliveries, Output));
      var errors := LinesOf(TextOf(deliveries, Errors));
      var both, first := ReportOf(lines, limit, decode), ReportOf(output, limit, decode);
      var second := ReportOf(errors, limit, decode);
      && Interleaves(ValidRecords(lines, decode), ValidRecords(output, decode), ValidRecords(errors, decode))
      && both.invalidRecordCount == first.invalidRecordCount + second.invalidRecordCount
      && |both.records| + both.discardedRecordCount
        == |first.records| + first.discardedRecordCount + |second.records| + second.discardedRecordCount
  {
    hide LinesOf, AllText, TextOf, SwitchesAtLineEnds;
    LinesInterleave(deliveries);
    var lines, output := LinesOf(AllText(deliveries)), LinesOf(TextOf(deliveries, Output));
    var errors := LinesOf(TextOf(deliveries, Errors));
    RecordsInterleave(lines, output, errors, decode);
    InterleavedLength(ValidRecords(lines, decode), ValidRecords(output, decode), ValidRecords(errors, decode));
  }

  lemma {:induction false} InterleavedLength<T(!new)>(c: seq<T>, a: seq<T>, b: seq<T>)
    requires Interleaves(c, a, b)
    ensures |c| == |a| + |b|
  {
    if c != [] {
      if a != [] && Last(a) == Last(c) && Interleaves(Init(c), Init(a), b) {
        InterleavedLength(Init(c), Init(a), b);
      } else {
        InterleavedLength(Init(c), a, Init(b));
      }
    }
  }

  lemma TrimTogether(json: string, noise: string)
    requires Trimmed(json) && noise != "" && !WhiteSpace(Last(noise))
    ensures Trim(json) == json && Trim(json + noise) == json + noise
  {
    assert Last(json + noise) == Last(noise);
  }

  lemma TwoDeliveries(text: string, noise: string)
    ensures var deliveries := [Delivery(Output, Text(text)), Delivery(Errors, Text(noise))];
      && AllText(deliveries) == text + noise
      && TextOf(deliveries, Output) == text && TextOf(deliveries, Errors) == noise
  {
    var deliveries := [Delivery(Output, Text(text)), Delivery(Errors, Text(noise))];
    assert Init(deliveries) == [Delivery(Output, Text(text))] && Init(Init(deliveries)) == [];
    hide AllText, TextOf;
    NextDelivery(Init(deliveries));
    NextDelivery(deliveries);
    NothingSaid();
  }

  lemma NothingSaid()
    ensures AllText([]) == "" && forall s :: TextOf([], s) == ""
  {
  }

  /** A valid record is lost when the other stream writes before its line is finished. */
  lemma OtherStreamSpoilsRecord<R>(json: string, noise: string, decode: string -> Option<R>, record: R)
    requires Trimmed(json) && decode(json) == Some(record) && decode(json + noise) == None
    requires noise != "" && '\n' !in noise && !WhiteSpace(Last(noise)) && !Carries(noise)
    ensures var deliveries := [Delivery(Output, Text(DIAGNOSTIC_MARKER + json)), Delivery(Errors, Text(noise))];
      && ReportOf(LinesOf(TextOf(deliveries, Output)), 1, decode) == Report([record], 0, 0)
      && ReportOf(LinesOf(TextOf(deliveries, Errors)), 1, decode) == Report([], 0, 0)
      && ReportOf(LinesOf(AllText(deliveries)), 1, decode) == Report([], 0, 1)
  {
    TwoDeliveries(DIAGNOSTIC_MARKER + json, noise);
    TrimTogether(json, noise);
    MarkedLine(json, decode);
    MarkedLine(json + noise, decode);
    OneLine(noise);
    UnmarkedLine(noise, decode);
    Grouped(DIAGNOSTIC_MARKER, json, noise);
    hide *;
  }

  lemma UnmarkedLine<R>(line: string, decode: string -> Option<R>)
    requires !Carries(line)
    ensures ReportOf([line], 1, decode) == Report([], 0, 0)
  {
    assert Init([line]) == [] && Last([line]) == line;
    assert ValidRecords([line], decode) == ValidRecords([], decode) + [];
    assert InvalidCount([line], decode) == InvalidCount([], decode) + 0;
  }
}
