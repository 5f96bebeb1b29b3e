/**
 `String(buffer)`: UTF-8 decoding in which every malformed stretch becomes a replacement character (the UTF-8
 decoder of the WHATWG Encoding standard, section 8.1.1). A buffer is decoded by itself, so a character that is cut
 between two buffers is lost.
 */
module Utf8 {
  import opened Common

  type byte = b: int | 0 <= b < 0x100

  const REPLACEMENT: char := '\U{FFFD}'

  /** The number of bytes that a first byte asks for behind it; None for a byte that is first of no character. */
  function Announced(lead: byte): Option<nat> {
    if lead < 0x80 then Some(0)
    else if 0xC2 <= lead < 0xE0 then Some(1)
    else if 0xE0 <= lead < 0xF0 then Some(2)
    else if 0xF0 <= lead < 0xF5 then Some(3)
    else None
  }

  predicate Continuation(b: byte) {
    0x80 <= b < 0xC0
  }

  /** Overlong forms, surrogates and numbers past U+10FFFF are excluded at the second byte. */
  predicate Fits(lead: byte, i: nat, b: byte) {
    && Continuation(b)
    && (i == 1 ==>
      && (lead == 0xE0 ==> 0xA0 <= b)
      && (lead == 0xED ==> b < 0xA0)
      && (lead == 0xF0 ==> 0x90 <= b)
      && (lead == 0xF4 ==> b < 0x90))
  }

  /** How many of the n bytes behind the first one are there and fit. */
  function Fitting(s: seq<byte>, n: nat): (k: nat)
    requires s != []
    ensures k <= n && k < |s|
    ensures forall i | 1 <= i <= k :: Fits(s[0], i, s[i])
    ensures k < n && k + 1 < |s| ==> !Fits(s[0], k + 1, s[k + 1])
  {
    if n == 0 then 0
    else
      var k := Fitting(s, n - 1);
      if k == n - 1 && n < |s| && Fits(s[0], n, s[n]) then n else k
  }

  /** The bytes that the first step of the decoder takes. */
  function Taken(s: seq<byte>): (n: nat)
    requires s != []
    ensures 1 <= n <= |s|
  {
    match Announced(s[0])
    case None => 1
    case Some(n) => 1 + Fitting(s, n)
  }

  function Low(b: byte): int {
    b - 0x80
  }

  /** The character that the first step yields. */
  function First(s: seq<byte>): char
    requires s != []
  {
    match Announced(s[0])
    case None => REPLACEMENT
    case Some(n) =>
      if Fitting(s, n) < n then REPLACEMENT
      else if n == 0 then s[0] as char
      else if n == 1 then (0x40 * (s[0] - 0xC0) + Low(s[1])) as char
      else if n == 2 then (0x1000 * (s[0] - 0xE0) + 0x40 * Low(s[1]) + Low(s[2])) as char
      else (0x40000 * (s[0] - 0xF0) + 0x1000 * Low(s[1]) + 0x40 * Low(s[2]) + Low(s[3])) as char
  }

  function Decode(s: seq<byte>): string {
    if s == [] then "" else [First(s)] + Decode(s[Taken(s)..])
  }

  // ----- Encoding -----

  function EncodeChar(c: char): (s: seq<byte>)
    ensures s != []
  {
    var x := c as int;
    if x < 0x80 then [x]
    else if x < 0x800 then [0xC0 + x / 0x40, 0x80 + x % 0x40]
    else if x < 0x10000 then [0xE0 + x / 0x1000, 0x80 + x / 0x40 % 0x40, 0x80 + x % 0x40]
    else [0xF0 + x / 0x40000, 0x80 + x / 0x1000 % 0x40, 0x80 + x / 0x40 % 0x40, 0x80 + x % 0x40]
  }

  function Encode(text: string): seq<byte> {
    if text == "" then [] else EncodeChar(text[0]) + Encode(text[1..])
  }

  lemma AllFit(s: seq<byte>, n: nat)
    requires n < |s| && forall i | 1 <= i <= n :: Fits(s[0], i, s[i])
    ensures Fitting(s, n) == n
  {
  }

  lemma Sextets(x: nat)
    ensures x == 0x40 * (x / 0x40) + x % 0x40
    ensures x == 0x1000 * (x / 0x1000) + 0x40 * (x / 0x40 % 0x40) + x % 0x40
    ensures x == 0x40000 * (x / 0x40000) + 0x1000 * (x / 0x1000 % 0x40) + 0x40 * (x / 0x40 % 0x40) + x % 0x40
  {
    assert x / 0x1000 == x / 0x40 / 0x40;
    assert x / 0x40000 == x / 0x1000 / 0x40;
  }

  lemma EncodedTaken(c: char, rest: seq<byte>)
    ensures var code := EncodeChar(c);
      Announced(code[0]) == Some(|code| - 1) && Fitting(code + rest, |code| - 1) == |code| - 1
  {
    Sextets(c as int);
    AllFit(EncodeChar(c) + rest, |EncodeChar(c)| - 1);
  }

  lemma EncodedFirst(c: char, rest: seq<byte>)
    ensures var s := EncodeChar(c) + rest;
      First(s) == c && Taken(s) == |EncodeChar(c)| && s[Taken(s)..] == rest
  {
    EncodedTaken(c, rest);
    Sextets(c as int);
    hide Fitting;
    var s := EncodeChar(c) + rest;
    assert forall i | 0 <= i < |EncodeChar(c)| :: s[i] == EncodeChar(c)[i];
  }

  // ----- What one step does -----

  predicate WellFormed(w: seq<byte>) {
    w != [] && Announced(w[0]) == Some(|w| - 1) && forall i | 1 <= i < |w| :: Fits(w[0], i, w[i])
  }

  // Every well-formed sequence is the code of the character that it yields.
  lemma WellFormedIsCode(w: seq<byte>)
    requires WellFormed(w)
    ensures EncodeChar(First(w)) == w
  {
    if |w| == 4 {
      FourBytesAreCode(w);
    } else {
      AllFit(w, |w| - 1);
      hide Fitting;
      var c := First(w) as int;
      if |w| == 2 {
        Digits(c, w[0] - 0xC0, Low(w[1]));
      } else if |w| == 3 {
        Digits(c, 0x40 * (w[0] - 0xE0) + Low(w[1]), Low(w[2]));
        Digits(0x40 * (w[0] - 0xE0) + Low(w[1]), w[0] - 0xE0, Low(w[1]));
        assert c / 0x1000 == c / 0x40 / 0x40;
      }
    }
  }

  lemma FourBytesAreCode(w: seq<byte>)
    requires WellFormed(w) && |w| == 4
    ensures EncodeChar(First(w)) == w
  {
    AllFit(w, 3);
    hide Fitting;
    var c := First(w) as int;
    var x := 0x1000 * (w[0] - 0xF0) + 0x40 * Low(w[1]) + Low(w[2]);
    Digits(c, x, Low(w[3]));
    Digits(x, 0x40 * (w[0] - 0xF0) + Low(w[1]), Low(w[2]));
    Digits(0x40 * (w[0] - 0xF0) + Low(w[1]), w[0] - 0xF0, Low(w[1]));
    assert c / 0x1000 == c / 0x40 / 0x40 && c / 0x40000 == c / 0x1000 / 0x40;
  }

  lemma Digits(x: int, high: int, low: int)
    requires x == 0x40 * high + low && 0 <= low < 0x40
    ensures x / 0x40 == high && x % 0x40 == low
  {
  }

  /** The bytes begin the code of some character. */
  ghost predicate Opening(p: seq<byte>) {
    exists c: char :: p <= EncodeChar(c)
  }

  ghost predicate CharacterFirst(s: seq<byte>) {
    exists c: char :: EncodeChar(c) <= s
  }

  function Filler(lead: byte): byte {
    if lead == 0xE0 then 0xA0 else if lead == 0xF0 then 0x90 else 0x80
  }

  // Bytes that fit so far can be completed.
  lemma {:induction false} FittingOpens(p: seq<byte>, n: nat)
    requires p != [] && Announced(p[0]) == Some(n) && |p| <= n + 1
    requires forall i | 1 <= i < |p| :: Fits(p[0], i, p[i])
    ensures Opening(p)
    decreases n + 1 - |p|
  {
    if |p| == n + 1 {
      WellFormedIsCode(p);
      assert p <= EncodeChar(First(p));
    } else {
      var q := p + [if |p| == 1 then Filler(p[0]) else 0x80];
      FittingOpens(q, n);
      var c: char :| q <= EncodeChar(c);
      assert p <= q;
    }
  }

  lemma CodeWellFormed(c: char)
    ensures WellFormed(EncodeChar(c))
  {
    EncodedTaken(c, []);
    assert EncodeChar(c) + [] == EncodeChar(c);
  }

  // Bytes that begin a code announce it and fit.
  lemma OpeningFits(s: seq<byte>, m: nat)
    requires 1 <= m <= |s| && Opening(s[..m])
    ensures Announced(s[0]).Some? && m <= Announced(s[0]).value + 1
    ensures forall i | 1 <= i < m :: Fits(s[0], i, s[i])
  {
    hide EncodeChar, Fits;
    var c: char :| s[..m] <= EncodeChar(c);
    CodeWellFormed(c);
    assert forall i | 0 <= i < m :: EncodeChar(c)[i] == s[..m][i] == s[i];
  }

  /**
   One step, in terms of the codes of characters: a code in front is read as its character; anything else yields one
   replacement for the longest stretch that begins a code, or for a single byte that begins none.
   */
  lemma StepExact(s: seq<byte>)
    requires s != []
    ensures forall c: char | EncodeChar(c) <= s :: First(s) == c && Taken(s) == |EncodeChar(c)|
    ensures !CharacterFirst(s) ==>
      && First(s) == REPLACEMENT && (Taken(s) > 1 ==> Opening(s[..Taken(s)]))
      && forall m | Taken(s) < m <= |s| :: !Opening(s[..m])
  {
    forall c: char | EncodeChar(c) <= s
      ensures First(s) == c && Taken(s) == |EncodeChar(c)|
    {
      EncodedFirst(c, s[|EncodeChar(c)|..]);
      assert s == EncodeChar(c) + s[|EncodeChar(c)|..];
    }
    if !CharacterFirst(s) {
      NoCharacterFirst(s);
    }
  }

  lemma NoCharacterFirst(s: seq<byte>)
    requires s != [] && !CharacterFirst(s)
    ensures First(s) == REPLACEMENT && (Taken(s) > 1 ==> Opening(s[..Taken(s)]))
    ensures forall m | Taken(s) < m <= |s| :: !Opening(s[..m])
  {
    var t := Taken(s);
    forall m | t < m <= |s|
      ensures !Opening(s[..m])
    {
      if Opening(s[..m]) {
        OpeningFits(s, m);
      }
    }
    var n := Announced(s[0]);
    if n.Some? {
      hide Announced, Fits;
      assert forall i | 1 <= i < t :: Fits(s[..t][0], i, s[..t][i]);
      FittingOpens(s[..t], n.value);
      WholeStepIsCode(s);
    }
  }

  lemma WholeStepIsCode(s: seq<byte>)
    requires s != [] && Announced(s[0]).Some?
    ensures Taken(s) == Announced(s[0]).value + 1 ==> CharacterFirst(s)
  {
    hide Announced, Fits;
    var w := s[..Taken(s)];
    assert forall i | 1 <= i < |w| :: Fits(w[0], i, w[i]);
    if Taken(s) == Announced(s[0]).value + 1 {
      WellFormedIsCode(w);
      assert EncodeChar(First(w)) <= s;
    }
  }

  /** Text that was written as UTF-8 is read back unchanged when it arrives in one piece. */
  lemma DecodeEncode(text: string)
    ensures Decode(Encode(text)) == text
  {
    DecodeBehind(text, []);
    assert Encode(text) + [] == Encode(text);
  }

  lemma {:induction false} EncodeAppend(a: string, b: string)
    ensures Encode(a + b) == Encode(a) + Encode(b)
  {
    if a == "" {
      assert a + b == b;
    } else {
      assert (a + b)[1..] == a[1..] + b;
      EncodeAppend(a[1..], b);
    }
  }

  lemma {:induction false} DecodeBehind(text: string, rest: seq<byte>)
    ensures Decode(Encode(text) + rest) == text + Decode(rest)
  {
    if text == "" {
      assert Encode(text) + rest == rest;
    } else {
      assert Encode(text) + rest == EncodeChar(text[0]) + (Encode(text[1..]) + rest);
      EncodedFirst(text[0], Encode(text[1..]) + rest);
      DecodeBehind(text[1..], rest);
    }
  }

  /** A no-break space takes two bytes, neither of which is a character by itself. */
  lemma HalvesOfSpace()
    ensures Encode("\U{A0}") == [0xC2, 0xA0] && Decode([0xC2, 0xA0]) == "\U{A0}"
    ensures Decode([0xC2]) == [REPLACEMENT] && Decode([0xA0]) == [REPLACEMENT]
  {
    assert Encode("\U{A0}") == EncodeChar('\U{A0}') + Encode("");
    DecodeEncode("\U{A0}");
  }

  // ----- Cuts -----

  /** No step of the decoder takes bytes from both sides of the cut in front of byte k. */
  predicate CleanCut(s: seq<byte>, k: nat)
    requires k <= |s|
  {
    k == 0 || (Taken(s) <= k && CleanCut(s[Taken(s)..], k - Taken(s)))
  }

  // A step that ends in the first part is the same without the second.
  lemma StepBefore(a: seq<byte>, b: seq<byte>)
    requires a != [] && Taken(a + b) <= |a|
    ensures Taken(a) == Taken(a + b) && First(a) == First(a + b)
    ensures (a + b)[Taken(a)..] == a[Taken(a)..] + b
  {
    var n := Announced(a[0]);
    if n.Some? {
      var k, m := Fitting(a, n.value), Fitting(a + b, n.value);
      assert forall i | 1 <= i < |a| :: (a + b)[i] == a[i];
    }
  }

  // A step across the cut leaves the first part as one malformed stretch, and single stray bytes behind it.
  lemma StepAcross(a: seq<byte>, b: seq<byte>)
    requires a != [] && Taken(a + b) > |a|
    ensures Taken(a) == |a| && Taken(a + b) - |a| <= |b|
    ensures forall i | 0 <= i < Taken(a + b) - |a| :: Continuation(b[i])
  {
    var n := Announced(a[0]).value;
    var k, m := Fitting(a, n), Fitting(a + b, n);
    assert forall i | 1 <= i < |a| :: (a + b)[i] == a[i];
    forall i | 0 <= i < m + 1 - |a|
      ensures Continuation(b[i])
    {
      assert Fits(a[0], |a| + i, (a + b)[|a| + i]);
    }
  }

  lemma {:induction false} StrayBytes(b: seq<byte>, n: nat)
    requires n <= |b| && forall i | 0 <= i < n :: Continuation(b[i])
    ensures |Decode(b)| == n + |Decode(b[n..])|
  {
    if n > 0 {
      assert Taken(b) == 1;
      StrayBytes(b[1..], n - 1);
      assert b[1..][n - 1..] == b[n..];
    } else {
      assert b[0..] == b;
    }
  }

  lemma DecodeAcross(a: seq<byte>, b: seq<byte>)
    requires a != [] && Taken(a + b) > |a|
    ensures |Decode(a + b)| < |Decode(a)| + |Decode(b)|
  {
    hide First, Taken;
    StepAcross(a, b);
    var n := Taken(a + b) - |a|;
    StrayBytes(b, n);
    assert (a + b)[Taken(a + b)..] == b[n..];
    assert a[|a|..] == [];
  }

  // Characters never get fewer by a cut, and get more by a cut that is not clean.
  lemma {:induction false} CutCounts(a: seq<byte>, b: seq<byte>)
    ensures if CleanCut(a + b, |a|) then Decode(a + b) == Decode(a) + Decode(b)
      else |Decode(a + b)| < |Decode(a)| + |Decode(b)|
    decreases |a|
  {
    hide First, Taken;
    if a == [] {
      assert a + b == b;
    } else if Taken(a + b) <= |a| {
      StepBefore(a, b);
      CutCounts(a[Taken(a)..], b);
      assert CleanCut(a + b, |a|) <==> CleanCut((a + b)[Taken(a)..], |a| - Taken(a));
    } else {
      DecodeAcross(a, b);
    }
  }

  /** Two buffers read one by one give the text of both together if and only if the cut between them is clean. */
  lemma CutExact(a: seq<byte>, b: seq<byte>)
    ensures Decode(a) + Decode(b) == Decode(a + b) <==> CleanCut(a + b, |a|)
  {
    hide Decode;
    CutCounts(a, b);
  }

  /** In text that was written as UTF-8, a cut is clean unless a continuation byte follows it. */
  lemma {:induction false} CutsOfText(text: string, k: nat)
    requires k <= |Encode(text)|
    ensures CleanCut(Encode(text), k) <==> k == |Encode(text)| || !Continuation(Encode(text)[k])
    decreases text
  {
    if text != "" {
      var n := |EncodeChar(text[0])|;
      EncodedFirst(text[0], Encode(text[1..]));
      if k >= n {
        CutsOfText(text[1..], k - n);
      }
    }
  }

  // ----- Many buffers -----

  function Concat(pieces: seq<seq<byte>>): seq<byte> {
    if pieces == [] then [] else Concat(pieces[..|pieces| - 1]) + pieces[|pieces| - 1]
  }

  function DecodeEach(pieces: seq<seq<byte>>): string {
    if pieces == [] then "" else DecodeEach(pieces[..|pieces| - 1]) + Decode(pieces[|pieces| - 1])
  }

  lemma {:induction false} ConcatLength(pieces: seq<seq<byte>>, i: nat)
    requires i <= |pieces|
    ensures |Concat(pieces[..i])| <= |Concat(pieces)| && Concat(pieces)[..|Concat(pieces[..i])|] == Concat(pieces[..i])
  {
    if i < |pieces| {
      ConcatLength(pieces[..|pieces| - 1], i);
      assert pieces[..|pieces| - 1][..i] == pieces[..i];
    } else {
      assert pieces[..i] == pieces;
    }
  }

  /** Every place where one buffer ends and the next begins is a clean cut of all the bytes. */
  ghost predicate CleanlyCut(pieces: seq<seq<byte>>) {
    forall i | 0 <= i <= |pieces| ::
      |Concat(pieces[..i])| <= |Concat(pieces)| && CleanCut(Concat(pieces), |Concat(pieces[..i])|)
  }

  // What lies behind a clean cut says nothing about the cuts in front of it.
  lemma {:induction false} CutInFront(a: seq<byte>, b: seq<byte>, k: nat)
    requires k <= |a| && CleanCut(a + b, |a|)
    ensures CleanCut(a + b, k) <==> CleanCut(a, k)
    decreases k
  {
    hide First, Taken;
    if k > 0 {
      StepBefore(a, b);
      if Taken(a) <= k {
        CutInFront(a[Taken(a)..], b, k - Taken(a));
      }
    }
  }

  // Adding a buffer: its own cut must be clean, and the earlier ones must have been.
  lemma CleanlyCutNext(pieces: seq<seq<byte>>)
    requires pieces != []
    ensures var before := pieces[..|pieces| - 1];
      CleanlyCut(pieces) <==> CleanlyCut(before) && CleanCut(Concat(pieces), |Concat(before)|)
  {
    hide CleanCut, Concat;
    var before, last := pieces[..|pieces| - 1], pieces[|pieces| - 1];
    var a, s := Concat(before), Concat(pieces);
    assert s == a + last by {
      ConcatNext(pieces);
    }
    if CleanCut(s, |a|) {
      forall i | 0 <= i <= |before|
        ensures pieces[..i] == before[..i] && |Concat(before[..i])| <= |a|
        ensures CleanCut(s, |Concat(pieces[..i])|) <==> CleanCut(a, |Concat(before[..i])|)
      {
        assert pieces[..i] == before[..i];
        ConcatLength(before, i);
        CutInFront(a, last, |Concat(before[..i])|);
      }
      assert pieces[..|pieces|] == pieces;
      CutAtEnd(s);
    }
  }

  lemma ConcatNext(pieces: seq<seq<byte>>)
    requires pieces != []
    ensures Concat(pieces) == Concat(pieces[..|pieces| - 1]) + pieces[|pieces| - 1]
  {
  }

  lemma CutAtEnd(s: seq<byte>)
    ensures CleanCut(s, |s|)
  {
  }

  lemma {:induction false} PieceCounts(pieces: seq<seq<byte>>)
    ensures if CleanlyCut(pieces) then DecodeEach(pieces) == Decode(Concat(pieces))
      else |Decode(Concat(pieces))| < |DecodeEach(pieces)|
    ensures |Decode(Concat(pieces))| <= |DecodeEach(pieces)|
  {
    hide Decode, CleanCut, CleanlyCut;
    if pieces == [] {
      NothingCut();
    } else {
      var before := pieces[..|pieces| - 1];
      PieceCounts(before);
      CutCounts(Concat(before), pieces[|pieces| - 1]);
      CleanlyCutNext(pieces);
    }
  }

  lemma NothingCut()
    ensures CleanlyCut([]) && Decode([]) == ""
  {
  }

  /** Buffers read one by one give the text of all the bytes if and only if no buffer ends inside a character. */
  lemma BuffersExact(pieces: seq<seq<byte>>)
    ensures DecodeEach(pieces) == Decode(Concat(pieces)) <==> CleanlyCut(pieces)
  {
    PieceCounts(pieces);
  }
}
