/** The streaming collector of diagnostic lines: scripts/browser-runtime-diagnostic-evidence.js, lines 152-219. */
module DiagnosticCollector {
  import opened Common
  import opened Utf8

  const DIAGNOSTIC_MARKER := "[harmoniarr-browser-runtime-diagnostic]"

  // ----- Lines -----

  function Init<T>(s: seq<T>): seq<T>
    requires s != []
  {
    s[..|s| - 1]
  }

  function Last<T>(s: seq<T>): T
    requires s != []
  {
    s[|s| - 1]
  }

  /** `text.split(/\r?\n/u)`. */
  function SplitLines(text: string): (lines: seq<string>)
    ensures lines != []
  {
    if text == "" then [""]
    else if text[0] == '\n' then [""] + SplitLines(text[1..])
    else if |text| >= 2 && text[..2] == "\r\n" then [""] + SplitLines(text[2..])
    else Prepend(text[0], SplitLines(text[1..]))
  }

  function Prepend(c: char, lines: seq<string>): (r: seq<string>)
    requires lines != []
    ensures |r| == |lines|
  {
    [[c] + lines[0]] + lines[1..]
  }

  /** Lines and the terminators between them, put back together. */
  function Weave(lines: seq<string>, terminators: seq<string>): string
    requires |lines| == |terminators| + 1
  {
    if terminators == [] then lines[0] else lines[0] + terminators[0] + Weave(lines[1..], terminators[1..])
  }

  /**
   Lines hold no line feed, and a carriage return in front of a line feed is part of the terminator, not of the
   line.
   */
  predicate Terminated(lines: seq<string>, terminators: seq<string>)
    requires |lines| == |terminators| + 1
  {
    && '\n' !in lines[0]
    && (terminators != [] ==>
      && (terminators[0] == "\r\n" || (terminators[0] == "\n" && (lines[0] == "" || Last(lines[0]) != '\r')))
      && Terminated(lines[1..], terminators[1..]))
  }

  /** Splitting is undone by putting the terminators back. */
  lemma {:induction false} SplitLinesInverts(text: string) returns (terminators: seq<string>)
    ensures |SplitLines(text)| == |terminators| + 1
    ensures Weave(SplitLines(text), terminators) == text && Terminated(SplitLines(text), terminators)
  {
    if text == "" {
      terminators := [];
    } else if text[0] == '\n' {
      var rest := SplitLinesInverts(text[1..]);
      terminators := ["\n"] + rest;
      assert text == "" + "\n" + text[1..];
      assert SplitLines(text)[1..] == SplitLines(text[1..]) && terminators[1..] == rest;
    } else if |text| >= 2 && text[..2] == "\r\n" {
      var rest := SplitLinesInverts(text[2..]);
      terminators := ["\r\n"] + rest;
      assert text == "" + "\r\n" + text[2..];
      assert SplitLines(text)[1..] == SplitLines(text[2..]) && terminators[1..] == rest;
    } else {
      terminators := SplitLinesInverts(text[1..]);
      assert text == [text[0]] + text[1..];
      PrependWeaves(text[0], SplitLines(text[1..]), terminators);
      PrependTerminated(text, terminators);
    }
  }

  lemma PrependTerminated(text: string, terminators: seq<string>)
    requires text != "" && text[0] != '\n' && !(|text| >= 2 && text[..2] == "\r\n")
    requires |SplitLines(text[1..])| == |terminators| + 1
    requires Weave(SplitLines(text[1..]), terminators) == text[1..] && Terminated(SplitLines(text[1..]), terminators)
    ensures Terminated(Prepend(text[0], SplitLines(text[1..])), terminators)
  {
  }

  lemma PrependWeaves(c: char, lines: seq<string>, terminators: seq<string>)
    requires |lines| == |terminators| + 1
    ensures Weave(Prepend(c, lines), terminators) == [c] + Weave(lines, terminators)
  {
  }

  lemma {:induction false} UnbrokenLine(text: string)
    requires |SplitLines(text)| == 1
    ensures SplitLines(text) == [text]
  {
    if text != "" {
      UnbrokenLine(text[1..]);
      assert [text[0]] + text[1..] == text;
    }
  }

  lemma LoneReturn()
    ensures SplitLines("\r") == ["\r"]
  {
    assert "\r"[1..] == "";
    assert ['\r'] + "" == "\r";
  }

  /** Text that arrives in two parts: the unfinished last line of the first part is split again with the second. */
  lemma {:induction false} SplitLinesContinues(a: string, b: string)
    ensures SplitLines(a + b) == Init(SplitLines(a)) + SplitLines(Last(SplitLines(a)) + b)
  {
    hide Init, Last, Prepend;
    InitLastOne(a);
    if a == "" {
      assert a + b == b;
    } else if a[0] == '\n' {
      assert (a + b)[1..] == a[1..] + b;
      SplitLinesContinues(a[1..], b);
      InitCons("", SplitLines(a[1..]), SplitLines(Last(SplitLines(a[1..])) + b));
    } else if |a| >= 2 && a[..2] == "\r\n" {
      assert (a + b)[..2] == a[..2] && (a + b)[2..] == a[2..] + b;
      SplitLinesContinues(a[2..], b);
      InitCons("", SplitLines(a[2..]), SplitLines(Last(SplitLines(a[2..])) + b));
    } else if |SplitLines(a)| == 1 {
      UnbrokenLine(a);
    } else {
      assert a[1..] != "" by {
        LoneReturn();
      }
      assert (a + b)[1..] == a[1..] + b && (a + b)[..2] == a[..2];
      SplitLinesContinues(a[1..], b);
      PrependInit(a[0], SplitLines(a[1..]), SplitLines(Last(SplitLines(a[1..])) + b));
    }
  }

  lemma InitLastOne(line: string)
    ensures Init([line]) == [] && Last([line]) == line
  {
  }

  lemma InitCons(line: string, lines: seq<string>, more: seq<string>)
    requires lines != []
    ensures Init([line] + lines) + more == [line] + (Init(lines) + more) && Last([line] + lines) == Last(lines)
  {
  }

  lemma PrependInit(c: char, lines: seq<string>, more: seq<string>)
    requires |lines| > 1
    ensures Prepend(c, Init(lines) + more) == Init(Prepend(c, lines)) + more
    ensures Last(Prepend(c, lines)) == Last(lines)
  {
  }

  // ----- What is made of the lines -----

  datatype Parsed<R> = NoMarker | Invalid | Valid(record: R)

  predicate StartsWith(s: string, prefix: string) {
    |prefix| <= |s| && s[..|prefix|] == prefix
  }

  predicate Carries(line: string) {
    StartsWith(line, DIAGNOSTIC_MARKER) || (line != "" && Carries(line[1..]))
  }

  /** The text behind the first marker. */
  function Encoded(line: string): string
    requires Carries(line)
  {
    if StartsWith(line, DIAGNOSTIC_MARKER) then line[|DIAGNOSTIC_MARKER|..] else Encoded(line[1..])
  }

  /** White space and line terminators (sections 12.2 and 12.3 of ECMA-262, 2024 edition). */
  predicate WhiteSpace(c: char) {
    || '\t' <= c <= '\r'
    || c in {' ', '\U{A0}', '\U{1680}', '\U{202F}', '\U{205F}', '\U{3000}', '\U{FEFF}'}
    || '\U{2000}' <= c <= '\U{200A}'
    || '\U{2028}' <= c <= '\U{2029}'
  }

  function TrimStart(s: string): string {
    if s != "" && WhiteSpace(s[0]) then TrimStart(s[1..]) else s
  }

  function TrimEnd(s: string): string {
    if s != "" && WhiteSpace(Last(s)) then TrimEnd(Init(s)) else s
  }

  function Trim(s: string): string {
    TrimEnd(TrimStart(s))
  }

  /** `decode` stands for JSON parsing and the record contract; None when either fails. */
  function ParseLine<R>(line: string, decode: string -> Option<R>): Parsed<R> {
    if !Carries(line) then NoMarker
    else if Trim(Encoded(line)) == "" then Invalid
    else match decode(Trim(Encoded(line)))
      case None => Invalid
      case Some(record) => Valid(record)
  }

  /** The marker begins at this place. */
  predicate MarkerAt(line: string, i: nat) {
    i + |DIAGNOSTIC_MARKER| <= |line| && line[i..i + |DIAGNOSTIC_MARKER|] == DIAGNOSTIC_MARKER
  }

  /** A line carries the marker when it begins anywhere in it; what counts is the text behind the first. */
  lemma {:induction false} EncodedExact(line: string) returns (i: nat)
    ensures Carries(line) <==> exists k: nat :: MarkerAt(line, k)
    ensures Carries(line) ==>
      && MarkerAt(line, i) && (forall k: nat | k < i :: !MarkerAt(line, k))
      && Encoded(line) == line[i + |DIAGNOSTIC_MARKER|..]
  {
    i := 0;
    var n := |DIAGNOSTIC_MARKER|;
    if StartsWith(line, DIAGNOSTIC_MARKER) {
      assert line[0..n] == line[..n] && MarkerAt(line, 0);
    } else if line != "" {
      var k := EncodedExact(line[1..]);
      i := k + 1;
      assert !MarkerAt(line, 0) by {
        assert n <= |line| ==> line[0..n] == line[..n];
      }
      forall m: nat
        ensures MarkerAt(line[1..], m) <==> MarkerAt(line, m + 1)
      {
        LaterMarker(line, m);
      }
      if Carries(line[1..]) {
        assert line[1..][k + n..] == line[i + n..];
      }
      assert forall m: nat | MarkerAt(line, m) :: MarkerAt(line[1..], m - 1);
    } else {
      assert forall m: nat :: !MarkerAt(line, m);
    }
  }

  lemma LaterMarker(line: string, m: nat)
    requires line != ""
    ensures MarkerAt(line[1..], m) <==> MarkerAt(line, m + 1)
  {
    if m + |DIAGNOSTIC_MARKER| <= |line| - 1 {
      assert line[1..][m..m + |DIAGNOSTIC_MARKER|] == line[m + 1..m + 1 + |DIAGNOSTIC_MARKER|];
    }
  }

  /** Trimming takes white space off both ends and nothing else: what is left neither begins nor ends with any. */
  lemma TrimExact(s: string) returns (before: string, after: string)
    ensures s == before + Trim(s) + after
    ensures (forall c | c in before :: WhiteSpace(c)) && (forall c | c in after :: WhiteSpace(c))
    ensures Trim(s) != "" ==> !WhiteSpace(Trim(s)[0]) && !WhiteSpace(Last(Trim(s)))
  {
    hide WhiteSpace;
    before := TrimmedStart(s);
    after := TrimmedEnd(TrimStart(s));
    assert Trim(s) != "" ==> Trim(s)[0] == TrimStart(s)[0];
    assert before + (Trim(s) + after) == before + Trim(s) + after;
  }

  lemma {:induction false} TrimmedStart(s: string) returns (before: string)
    ensures s == before + TrimStart(s) && forall c | c in before :: WhiteSpace(c)
    ensures TrimStart(s) != "" ==> !WhiteSpace(TrimStart(s)[0])
  {
    before := "";
    if s != "" && WhiteSpace(s[0]) {
      var more := TrimmedStart(s[1..]);
      before := [s[0]] + more;
      assert s == [s[0]] + s[1..];
    }
  }

  lemma {:induction false} TrimmedEnd(s: string) returns (after: string)
    ensures s == TrimEnd(s) + after && forall c | c in after :: WhiteSpace(c)
    ensures TrimEnd(s) != "" ==> !WhiteSpace(Last(TrimEnd(s)))
    decreases |s|
  {
    after := "";
    if s != "" && WhiteSpace(Last(s)) {
      var more := TrimmedEnd(Init(s));
      after := more + [Last(s)];
      assert s == Init(s) + [Last(s)];
    }
  }

  /** These and no other characters are white space. */
  lemma WhiteSpaceExact(c: char)
    ensures WhiteSpace(c) <==> (c as int) in {
      0x9, 0xA, 0xB, 0xC, 0xD, 0x20, 0xA0, 0x1680, 0x2000, 0x2001, 0x2002, 0x2003, 0x2004, 0x2005, 0x2006, 0x2007,
      0x2008,
      0x2009, 0x200A, 0x2028, 0x2029, 0x202F, 0x205F, 0x3000, 0xFEFF}
  {
  }

  function ValidRecords<R>(lines: seq<string>, decode: string -> Option<R>): seq<R> {
    if lines == [] then []
    else ValidRecords(Init(lines), decode) + match ParseLine(Last(lines), decode) case Valid(r) => [r] case _ => []
  }

  function InvalidCount<R>(lines: seq<string>, decode: string -> Option<R>): nat {
    if lines == [] then 0
    else InvalidCount(Init(lines), decode) + if ParseLine(Last(lines), decode).Invalid? then 1 else 0
  }

  function CarrierCount(lines: seq<string>): nat {
    if lines == [] then 0 else CarrierCount(Init(lines)) + if Carries(Last(lines)) then 1 else 0
  }

  datatype Report<R> = Report(records: seq<R>, discardedRecordCount: nat, invalidRecordCount: nat)

  /** The first `limit` valid records in order; the valid rest is discarded. */
  function ReportOf<R>(lines: seq<string>, limit: nat, decode: string -> Option<R>): Report<R> {
    var valid := ValidRecords(lines, decode);
    var kept := if |valid| <= limit then valid else valid[..limit];
    Report(kept, |valid| - |kept|, InvalidCount(lines, decode))
  }

  /** Every line that carries the marker is accounted for exactly once. */
  lemma {:induction false} MarkedLinesConserved<R>(lines: seq<string>, limit: nat, decode: string -> Option<R>)
    ensures var report := ReportOf(lines, limit, decode);
      |report.records| + report.discardedRecordCount + report.invalidRecordCount == CarrierCount(lines)
  {
    if lines != [] {
      MarkedLinesConserved(Init(lines), limit, decode);
    }
  }

  // ----- The collector -----

  /** What a stream hands over: nothing, text, or a buffer of its bytes. */
  datatype Chunk = Absent | Text(text: string) | Buffer(bytes: seq<byte>)

  /** `String(chunk ?? '')`. */
  function ChunkText(chunk: Chunk): string {
    match chunk
    case Absent => ""
    case Text(text) => text
    case Buffer(bytes) => Decode(bytes)
  }

  function Flatten(chunks: seq<Chunk>): string {
    if chunks == [] then "" else Flatten(Init(chunks)) + ChunkText(Last(chunks))
  }

  /** The lines of a text: text behind the last terminator is a line unless it is empty. */
  function LinesOf(text: string): seq<string> {
    var lines := SplitLines(text);
    if Last(lines) != "" then lines else Init(lines)
  }

  class RecordCollector<R(!new)> {
    const recordLimit: nat
    const decode: string -> Option<R>
    var records: seq<R>
    var discardedRecordCount: nat
    var invalidRecordCount: nat
    var pendingLine: string
    /** Every line consumed so far. */
    ghost var lines: seq<string>

    ghost predicate Valid()
      reads this
    {
      Report(records, discardedRecordCount, invalidRecordCount) == ReportOf(lines, recordLimit, decode)
    }

    constructor (recordLimit: nat, decode: string -> Option<R>)
      ensures Valid() && lines == [] && pendingLine == ""
      ensures this.recordLimit == recordLimit && this.decode == decode
    {
      this.recordLimit, this.decode := recordLimit, decode;
      records, discardedRecordCount, invalidRecordCount, pendingLine := [], 0, 0, "";
      lines := [];
    }

    method ConsumeLine(line: string)
      requires Valid()
      modifies `records, `discardedRecordCount, `invalidRecordCount, `lines
      ensures Valid() && lines == old(lines) + [line]
    {
      var parsedLine := ParseLine(line, decode);
      lines := lines + [line];
      assert Init(lines) == old(lines);
      match parsedLine {
        case NoMarker =>
        case Invalid =>
          invalidRecordCount := invalidRecordCount + 1;
        case Valid(record) =>
          if |records| >= recordLimit {
            discardedRecordCount := discardedRecordCount + 1;
          } else {
            records := records + [record];
          }
      }
    }

    method AddChunk(chunk: Chunk)
      requires Valid()
      modifies this
      ensures Valid()
      ensures var split := SplitLines(old(pendingLine) + ChunkText(chunk));
        lines == old(lines) + Init(split) && pendingLine == Last(split)
    {
      hide SplitLines, ReportOf;
      pendingLine := pendingLine + ChunkText(chunk);
      var split := SplitLines(pendingLine);
      pendingLine := Last(split);
      for i := 0 to |split| - 1
        invariant Valid() && lines == old(lines) + split[..i] && pendingLine == Last(split)
      {
        ConsumeLine(split[i]);
      }
    }

    method Finish() returns (report: Report<R>)
      requires Valid()
      modifies this
      ensures Valid() && pendingLine == ""
      ensures lines == old(lines) + if old(pendingLine) != "" then [old(pendingLine)] else []
      ensures report == ReportOf(lines, recordLimit, decode)
    {
      if pendingLine != "" {
        ConsumeLine(pendingLine);
        pendingLine := "";
      }
      return Report(records, discardedRecordCount, invalidRecordCount);
    }
  }

  /** The lines consumed and the pending line are the split of all the text received. */
  ghost predicate Split(lines: seq<string>, pending: string, received: string) {
    SplitLines(received) == lines + [pending]
  }

  lemma ChunkContinues(lines: seq<string>, pending: string, received: string, chunk: string)
    requires Split(lines, pending, received)
    ensures Split(lines + Init(SplitLines(pending + chunk)), Last(SplitLines(pending + chunk)), received + chunk)
  {
    SplitLinesContinues(received, chunk);
    hide SplitLines;
    assert Init(lines + [pending]) == lines && Last(lines + [pending]) == pending;
    var more := SplitLines(pending + chunk);
    assert lines + more == lines + Init(more) + [Last(more)];
  }

  lemma LastLine(lines: seq<string>, pending: string, received: string)
    requires Split(lines, pending, received)
    ensures LinesOf(received) == lines + if pending != "" then [pending] else []
  {
  }

  /** However text is cut into chunks, the report is that of all of it, each buffer decoded by itself. */
  method Collect<R(!new)>(chunks: seq<Chunk>, recordLimit: nat, decode: string -> Option<R>)
    returns (report: Report<R>)
    ensures report == ReportOf(LinesOf(Flatten(chunks)), recordLimit, decode)
  {
    var collector := new RecordCollector(recordLimit, decode);
    assert chunks[..0] == [];
    for i := 0 to |chunks|
      invariant fresh(collector) && collector.recordLimit == recordLimit && collector.decode == decode
        && collector.Valid()
      invariant Split(collector.lines, collector.pendingLine, Flatten(chunks[..i]))
    {
      assert Init(chunks[..i + 1]) == chunks[..i];
      ChunkContinues(collector.lines, collector.pendingLine, Flatten(chunks[..i]), ChunkText(chunks[i]));
      collector.AddChunk(chunks[i]);
    }
    assert chunks[..|chunks|] == chunks;
    LastLine(collector.lines, collector.pendingLine, Flatten(chunks));
    report := collector.Finish();
  }

  // ----- Buffers -----

  /** The chunks that a child process delivers. */
  function Buffers(pieces: seq<seq<byte>>): seq<Chunk> {
    seq(|pieces|, i requires 0 <= i < |pieces| => Buffer(pieces[i]))
  }

  lemma {:induction false} BuffersFlatten(pieces: seq<seq<byte>>)
    ensures Flatten(Buffers(pieces)) == DecodeEach(pieces)
  {
    if pieces != [] {
      assert Init(Buffers(pieces)) == Buffers(pieces[..|pieces| - 1]);
      BuffersFlatten(pieces[..|pieces| - 1]);
    }
  }

  /**
   The collector reads the text that the child wrote if and only if no cut between two buffers is followed by a
   continuation byte.
   */
  lemma BuffersReadExact(text: string, pieces: seq<seq<byte>>)
    requires Concat(pieces) == Encode(text)
    ensures Flatten(Buffers(pieces)) == text <==> forall i | 0 <= i <= |pieces| ::
      |Concat(pieces[..i])| == |Encode(text)|
      || (|Concat(pieces[..i])| < |Encode(text)| && !Continuation(Encode(text)[|Concat(pieces[..i])|]))
  {
    hide Encode, Decode, Concat, CleanCut, Continuation, Flatten;
    BuffersFlatten(pieces);
    BuffersExact(pieces);
    DecodeEncode(text);
    forall i | 0 <= i <= |pieces|
      ensures |Concat(pieces[..i])| <= |Encode(text)|
      ensures CleanCut(Encode(text), |Concat(pieces[..i])|) <==>
        |Concat(pieces[..i])| == |Encode(text)| || !Continuation(Encode(text)[|Concat(pieces[..i])|])
    {
      ConcatLength(pieces, i);
      CutsOfText(text, |Concat(pieces[..i])|);
    }
  }

  /**
   What one line comes to: nothing without a marker; otherwise the trimmed text behind the first marker is a record,
   or the line is invalid because there is no text or it is not accepted.
   */
  lemma LineReported<R>(line: string, i: nat, decode: string -> Option<R>)
    ensures (forall k: nat :: !MarkerAt(line, k)) ==> ReportOf([line], 1, decode) == Report([], 0, 0)
    ensures MarkerAt(line, i) && (forall k: nat | k < i :: !MarkerAt(line, k)) ==>
      var text := Trim(line[i + |DIAGNOSTIC_MARKER|..]);
      ReportOf([line], 1, decode) ==
        if text == "" || decode(text).None? then Report([], 0, 1) else Report([decode(text).value], 0, 0)
  {
    hide Trim, Carries, Encoded, MarkerAt;
    var j := EncodedExact(line);
    assert Init([line]) == [] && Last([line]) == line;
    assert ValidRecords([line], decode) == ValidRecords([], decode)
      + match ParseLine(line, decode) case Valid(r) => [r] case _ => [];
    assert InvalidCount([line], decode) == InvalidCount([], decode) + if ParseLine(line, decode).Invalid? then 1 else 0;
    if MarkerAt(line, i) && (forall k: nat | k < i :: !MarkerAt(line, k)) {
      assert i == j;
    }
  }

  lemma {:induction false} OneLine(text: string)
    requires '\n' !in text && text != ""
    ensures LinesOf(text) == [text]
  {
    if |text| > 1 {
      OneLine(text[1..]);
    } else {
      assert SplitLines(text[1..]) == [""];
    }
    assert [text[0]] + text[1..] == text;
  }

  // A lone marked line is reported by what `decode` makes of the trimmed text behind the marker.
  lemma MarkedLine<R>(text: string, decode: string -> Option<R>)
    requires '\n' !in text && Trim(text) != ""
    ensures ReportOf(LinesOf(DIAGNOSTIC_MARKER + text), 1, decode) ==
      match decode(Trim(text)) case None => Report([], 0, 1) case Some(record) => Report([record], 0, 0)
  {
    hide Trim, SplitLines;
    var line := DIAGNOSTIC_MARKER + text;
    OneLine(line);
    assert StartsWith(line, DIAGNOSTIC_MARKER) && Encoded(line) == text;
    assert Init([line]) == [] && Last([line]) == line;
    assert ValidRecords([line], decode) == ValidRecords([], decode)
      + match ParseLine(line, decode) case Valid(r) => [r] case _ => [];
    assert InvalidCount([line], decode) == InvalidCount([], decode) + if ParseLine(line, decode).Invalid? then 1 else 0;
  }

  /** Text of one line with nothing to trim at either end. */
  predicate Trimmed(json: string) {
    json != "" && '\n' !in json && !WhiteSpace(json[0]) && !WhiteSpace(Last(json))
  }

  lemma TrimBehind(json: string)
    requires Trimmed(json)
    ensures Trim(json + "\U{A0}") == json && Trim(json + "\U{FFFD}\U{FFFD}") == json + "\U{FFFD}\U{FFFD}"
  {
    var spaced, broken := json + "\U{A0}", json + "\U{FFFD}\U{FFFD}";
    assert Init(spaced) == json && Last(spaced) == '\U{A0}';
    assert Last(broken) == '\U{FFFD}';
    assert TrimStart(spaced) == spaced && TrimStart(broken) == broken;
    assert TrimEnd(json) == json;
  }

  lemma SpacedBuffers(text: string)
    ensures var line := Encode(text);
      var whole, halves := [line + [0xC2, 0xA0]], [line + [0xC2], [0xA0]];
      && Concat(whole) == Concat(halves) == Encode(text + "\U{A0}")
      && Flatten(Buffers(whole)) == text + "\U{A0}" && Flatten(Buffers(halves)) == text + "\U{FFFD}\U{FFFD}"
  {
    hide Encode, Decode, Flatten;
    var line := Encode(text);
    var whole, halves := [line + [0xC2, 0xA0]], [line + [0xC2], [0xA0]];
    HalvesOfSpace();
    EncodeAppend(text, "\U{A0}");
    BuffersFlatten(whole);
    BuffersFlatten(halves);
    DecodeBehind(text, [0xC2, 0xA0]);
    DecodeBehind(text, [0xC2]);
    assert whole[..0] == [] && halves[..1] == [line + [0xC2]];
    assert [line + [0xC2]][..0] == [];
    assert line + [0xC2, 0xA0] == line + [0xC2] + [0xA0];
    assert text + [REPLACEMENT] + [REPLACEMENT] == text + "\U{FFFD}\U{FFFD}";
  }

  lemma SpacedReports<R>(json: string, decode: string -> Option<R>, record: R)
    requires Trimmed(json) && decode(json) == Some(record) && decode(json + "\U{FFFD}\U{FFFD}") == None
    ensures ReportOf(LinesOf(DIAGNOSTIC_MARKER + (json + "\U{A0}")), 1, decode) == Report([record], 0, 0)
    ensures ReportOf(LinesOf(DIAGNOSTIC_MARKER + (json + "\U{FFFD}\U{FFFD}")), 1, decode) == Report([], 0, 1)
  {
    hide ReportOf, LinesOf, Trim;
    TrimBehind(json);
    MarkedLine(json + "\U{A0}", decode);
    MarkedLine(json + "\U{FFFD}\U{FFFD}", decode);
  }

  lemma Grouped(a: string, b: string, c: string)
    ensures a + b + c == a + (b + c)
  {
  }

  /**
   Any valid record, behind which the child writes a no-break space, is counted as invalid when a buffer ends inside the
   space: two replacement characters behind the JSON text are no JSON.
   */
  lemma CutInSpaceLosesRecord<R>(json: string, decode: string -> Option<R>, record: R)
    requires Trimmed(json) && decode(json) == Some(record) && decode(json + "\U{FFFD}\U{FFFD}") == None
    ensures var line := Encode(DIAGNOSTIC_MARKER + json);
      var whole, halves := [line + [0xC2, 0xA0]], [line + [0xC2], [0xA0]];
      && Concat(whole) == Concat(halves) == Encode(DIAGNOSTIC_MARKER + json + "\U{A0}")
      && ReportOf(LinesOf(Flatten(Buffers(whole))), 1, decode) == Report([record], 0, 0)
      && ReportOf(LinesOf(Flatten(Buffers(halves))), 1, decode) == Report([], 0, 1)
  {
    SpacedBuffers(DIAGNOSTIC_MARKER + json);
    SpacedReports(json, decode, record);
    Grouped(DIAGNOSTIC_MARKER, json, "\U{A0}");
    Grouped(DIAGNOSTIC_MARKER, json, "\U{FFFD}\U{FFFD}");
    hide *;
  }
}
