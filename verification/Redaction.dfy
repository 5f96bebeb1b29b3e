/** Longest-first redaction of secrets: scripts/docker-validation-redaction.js. */
module Redaction {
  import opened Common
  import opened StableSort

  const MARKER := "[redacted]"

  /** A configured sensitive value or path; anything but a non-empty string is ignored. */
  datatype Value = Text(text: string) | NotText

  function LongestFirst(s: string): Key {
    NumberKey(-|s|)
  }

  function Texts(values: seq<Value>): (texts: seq<string>)
    ensures forall t :: t in texts <==> t != "" && Text(t) in values
  {
    if values == [] then []
    else
      assert values == [values[0]] + values[1..];
      (if values[0].Text? && values[0].text != "" then [values[0].text] else []) + Texts(values[1..])
  }

  function GetRedactionValues(values: seq<Value>): seq<string> {
    Sort(Dedup(Texts(values)), LongestFirst)
  }

  /**
   `text.replaceAll(secret, marker)`, section 22.1.3.20 of ECMA-262 (2024 edition): leftmost matches, none
   overlapping.
   */
  function ReplaceAll(text: string, secret: string): string
    requires secret != ""
  {
    if |text| < |secret| then text
    else if text[..|secret|] == secret then MARKER + ReplaceAll(text[|secret|..], secret)
    else [text[0]] + ReplaceAll(text[1..], secret)
  }

  function Fold(text: string, secrets: seq<string>): string
    requires "" !in secrets
    decreases secrets
  {
    if secrets == [] then text else Fold(ReplaceAll(text, secrets[0]), secrets[1..])
  }

  function RedactDockerValidationText(text: string, values: seq<Value>): string {
    RedactionValuesWellFormed(values);
    Fold(text, GetRedactionValues(values))
  }

  /** The secrets are the distinct non-empty texts, longest first. */
  lemma RedactionValuesWellFormed(values: seq<Value>)
    ensures forall s :: s in GetRedactionValues(values) <==> s != "" && Text(s) in values
    ensures Distinct(GetRedactionValues(values))
    ensures var secrets := GetRedactionValues(values);
      forall i, j | 0 <= i < j < |secrets| :: |secrets[i]| >= |secrets[j]|
  {
    var unsorted := Dedup(Texts(values));
    SortSorts(unsorted, LongestFirst);
    DistinctPermutes(unsorted, GetRedactionValues(values));
    var secrets := GetRedactionValues(values);
    forall i, j | 0 <= i < j < |secrets|
      ensures |secrets[i]| >= |secrets[j]|
    {
      assert AtMost(LongestFirst(secrets[i]), LongestFirst(secrets[j]));
    }
  }

  // ----- Occurrences -----

  predicate At(w: string, t: string, i: int) {
    0 <= i <= |t| - |w| && t[i..i + |w|] == w
  }

  ghost predicate Occurs(w: string, t: string) {
    exists i :: At(w, t, i)
  }

  lemma AtDropped(w: string, t: string, k: nat, i: nat)
    requires k <= |t|
    ensures At(w, t[k..], i) <==> At(w, t, k + i)
  {
  }

  lemma AtTaken(w: string, t: string, n: nat, i: nat)
    requires n <= |t| && At(w, t[..n], i)
    ensures At(w, t, i)
  {
  }

  /** Laid over the marker at this offset, w agrees with it wherever the two overlap. */
  ghost predicate Aligned(w: string, offset: int) {
    forall i | 0 <= i < |w| && 0 <= offset + i < |MARKER| :: w[i] == MARKER[offset + i]
  }

  /** w cannot share even one character with a marker, whatever text surrounds the marker. */
  ghost predicate Clear(w: string) {
    forall offset | -|w| < offset < |MARKER| :: !Aligned(w, offset)
  }

  predicate BracketFree(w: string) {
    '[' !in w && ']' !in w
  }

  lemma BracketFreeIsClear(w: string)
    requires w != "" && BracketFree(w)
    ensures Clear(w) <==> !Occurs(w, MARKER)
  {
    assert MARKER[0] == '[' && MARKER[9] == ']';
    forall offset | -|w| < offset < 0
      ensures !Aligned(w, offset)
    {
      assert w[-offset] != MARKER[0];
    }
    forall offset | 10 - |w| < offset < 10
      ensures !Aligned(w, offset)
    {
      assert offset < 0 || w[9 - offset] != MARKER[9];
    }
    forall offset | 0 <= offset <= 10 - |w| && Aligned(w, offset)
      ensures At(w, MARKER, offset)
    {
    }
    if i :| At(w, MARKER, i) {
      assert Aligned(w, i);
    }
  }

  // Where a word is found in text around a marker, it agrees with the marker.
  lemma FoundIsAligned(w: string, a: string, b: string, i: int)
    requires At(w, a + MARKER + b, i)
    ensures Aligned(w, i - |a|)
  {
  }

  // Where an occurrence lies in text around a marker: in front of it, across it, or behind it.
  lemma ThreePlaces(w: string, head: string, marker: string, rest: string, i: int)
    requires At(w, head + marker + rest, i)
    ensures i <= |head| - |w| ==> At(w, head, i)
    ensures i >= |head| + |marker| ==> At(w, rest, i - |head| - |marker|)
  {
    var t := head + marker + rest;
    if i <= |head| - |w| {
      assert head[i..i + |w|] == t[i..i + |w|];
    } else if i >= |head| + |marker| {
      var k := i - |head| - |marker|;
      assert rest[k..k + |w|] == t[i..i + |w|];
    }
  }

  // A clear word in text around a marker lies wholly on one side of it.
  lemma ClearLiesOutside(w: string, a: string, b: string, i: int)
    requires w != "" && Clear(w) && At(w, a + MARKER + b, i)
    ensures At(w, a, i) || At(w, b, i - |a| - |MARKER|)
  {
    FoundIsAligned(w, a, b, i);
    ThreePlaces(w, a, MARKER, b, i);
  }

  // ----- Replacing, as splitting and joining -----

  function Split(t: string, s: string): (pieces: seq<string>)
    requires s != ""
    ensures pieces != []
  {
    if |t| < |s| then [t]
    else if t[..|s|] == s then [""] + Split(t[|s|..], s)
    else var pieces := Split(t[1..], s); [[t[0]] + pieces[0]] + pieces[1..]
  }

  function Join(pieces: seq<string>, separator: string): string
    requires pieces != []
  {
    if |pieces| == 1 then pieces[0] else pieces[0] + separator + Join(pieces[1..], separator)
  }

  lemma JoinCons(head: string, pieces: seq<string>, separator: string)
    requires pieces != []
    ensures Join([head] + pieces, separator) == head + separator + Join(pieces, separator)
  {
  }

  lemma JoinHead(head: string, pieces: seq<string>, separator: string)
    requires pieces != []
    ensures Join([head + pieces[0]] + pieces[1..], separator) == head + Join(pieces, separator)
  {
  }

  lemma {:induction false} SplitJoins(t: string, s: string)
    requires s != ""
    ensures Join(Split(t, s), s) == t
  {
    hide Join;
    if |t| < |s| {
      JoinOne(t, s);
    } else if t[..|s|] == s {
      SplitJoins(t[|s|..], s);
      JoinCons("", Split(t[|s|..], s), s);
      assert "" + s + t[|s|..] == t;
    } else {
      SplitJoins(t[1..], s);
      JoinHead([t[0]], Split(t[1..], s), s);
      assert t == [t[0]] + t[1..];
    }
  }

  lemma JoinOne(piece: string, separator: string)
    ensures Join([piece], separator) == piece
  {
  }

  /** The replaced text is the original with the marker wherever the secret separated its pieces. */
  lemma {:induction false} ReplaceAllJoins(t: string, s: string)
    requires s != ""
    ensures Join(Split(t, s), s) == t
    ensures Join(Split(t, s), MARKER) == ReplaceAll(t, s)
  {
    hide Join;
    SplitJoins(t, s);
    if |t| < |s| {
      JoinOne(t, MARKER);
    } else if t[..|s|] == s {
      ReplaceAllJoins(t[|s|..], s);
      JoinCons("", Split(t[|s|..], s), MARKER);
      assert "" + MARKER + ReplaceAll(t[|s|..], s) == MARKER + ReplaceAll(t[|s|..], s);
    } else {
      ReplaceAllJoins(t[1..], s);
      JoinHead([t[0]], Split(t[1..], s), MARKER);
    }
  }

  // The first piece ends in front of the first occurrence.
  lemma {:induction false} HeadPieceEndsBeforeMatch(t: string, s: string, i: nat)
    requires s != "" && i < |Split(t, s)[0]|
    ensures |Split(t, s)[0]| <= |t| && t[..|Split(t, s)[0]|] == Split(t, s)[0]
    ensures !At(s, t, i)
  {
    if |t| >= |s| && t[..|s|] != s {
      var pieces := Split(t[1..], s);
      if pieces[0] != "" {
        HeadPieceEndsBeforeMatch(t[1..], s, if i == 0 then 0 else i - 1);
      }
      assert t[..1 + |pieces[0]|] == [t[0]] + t[1..][..|pieces[0]|];
      if i > 0 {
        AtDropped(s, t, 1, i - 1);
      }
    }
  }

  /** No piece holds the secret, and no piece holds a word the text did not hold. */
  lemma {:induction false} PiecesAreClean(t: string, s: string, w: string, k: nat)
    requires s != "" && w != "" && k < |Split(t, s)|
    ensures !Occurs(s, Split(t, s)[k])
    ensures Occurs(w, Split(t, s)[k]) ==> Occurs(w, t)
  {
    var pieces := Split(t, s);
    if k == 0 {
      var head := pieces[0];
      if head != "" {
        HeadPieceEndsBeforeMatch(t, s, 0);
      }
      forall i: nat | i < |head|
        ensures !At(s, head, i)
      {
        HeadPieceEndsBeforeMatch(t, s, i);
        if At(s, head, i) {
          AtTaken(s, t, |head|, i);
        }
      }
      if i :| At(w, head, i) {
        AtTaken(w, t, |head|, i);
      }
    } else {
      var skip := if t[..|s|] == s then |s| else 1;
      PiecesAreClean(t[skip..], s, w, if skip == |s| && t[..|s|] == s then k - 1 else k);
      if i :| At(w, t[skip..], i) {
        AtDropped(w, t, skip, i);
      }
    }
  }

  lemma {:induction false} JoinAddsNoClearWord(pieces: seq<string>, w: string)
    requires pieces != [] && w != "" && Clear(w)
    requires forall k | 0 <= k < |pieces| :: !Occurs(w, pieces[k])
    ensures !Occurs(w, Join(pieces, MARKER))
  {
    if |pieces| > 1 {
      JoinAddsNoClearWord(pieces[1..], w);
      assert !Occurs(w, pieces[0]);
      forall i | At(w, Join(pieces, MARKER), i)
        ensures At(w, pieces[0], i) || At(w, Join(pieces[1..], MARKER), i - |pieces[0]| - |MARKER|)
      {
        ClearLiesOutside(w, pieces[0], Join(pieces[1..], MARKER), i);
      }
    }
  }

  /** One replacement removes its own secret and brings no clear word back. */
  lemma ReplaceAllCleans(t: string, s: string, w: string)
    requires s != "" && w != "" && Clear(w)
    requires w == s || !Occurs(w, t)
    ensures !Occurs(w, ReplaceAll(t, s))
  {
    forall k | 0 <= k < |Split(t, s)|
      ensures !Occurs(w, Split(t, s)[k])
    {
      PiecesAreClean(t, s, w, k);
    }
    JoinAddsNoClearWord(Split(t, s), w);
    ReplaceAllJoins(t, s);
  }

  lemma {:induction false} AbsentSecretChangesNothing(t: string, s: string)
    requires s != "" && !Occurs(s, t)
    ensures ReplaceAll(t, s) == t
  {
    if |t| >= |s| {
      assert !At(s, t, 0);
      forall i: nat
        ensures At(s, t[1..], i) ==> At(s, t, i + 1)
      {
        AtDropped(s, t, 1, i);
      }
      AbsentSecretChangesNothing(t[1..], s);
    }
  }

  // ----- The fold over all secrets -----

  lemma {:induction false} AbsentStaysAbsent(t: string, secrets: seq<string>, w: string)
    requires "" !in secrets && w != "" && Clear(w) && !Occurs(w, t)
    ensures !Occurs(w, Fold(t, secrets))
    decreases secrets
  {
    if secrets != [] {
      ReplaceAllCleans(t, secrets[0], w);
      AbsentStaysAbsent(ReplaceAll(t, secrets[0]), secrets[1..], w);
    }
  }

  lemma {:induction false} FoldCleans(t: string, secrets: seq<string>, w: string)
    requires "" !in secrets && w in secrets && Clear(w)
    ensures !Occurs(w, Fold(t, secrets))
    decreases secrets
  {
    var t' := ReplaceAll(t, secrets[0]);
    if w == secrets[0] {
      ReplaceAllCleans(t, w, w);
      AbsentStaysAbsent(t', secrets[1..], w);
    } else {
      assert w in secrets[1..];
      FoldCleans(t', secrets[1..], w);
    }
  }

  lemma {:induction false} FoldChangesNothing(t: string, secrets: seq<string>)
    requires "" !in secrets && forall s | s in secrets :: !Occurs(s, t)
    ensures Fold(t, secrets) == t
  {
    if secrets != [] {
      AbsentSecretChangesNothing(t, secrets[0]);
      FoldChangesNothing(t, secrets[1..]);
    }
  }

  lemma {:induction false} FoldAppends(t: string, a: seq<string>, b: seq<string>)
    requires "" !in a && "" !in b
    ensures Fold(t, a + b) == Fold(Fold(t, a), b)
    decreases a
  {
    if a == [] {
      assert a + b == b;
    } else {
      assert (a + b)[1..] == a[1..] + b;
      FoldAppends(ReplaceAll(t, a[0]), a[1..], b);
    }
  }

  ghost predicate AllClear(values: seq<Value>) {
    forall s | s in GetRedactionValues(values) :: Clear(s)
  }

  /** No listed secret occurs in the output, whatever the input text. */
  lemma NoSecretSurvives(text: string, values: seq<Value>, secret: string)
    requires AllClear(values) && secret in GetRedactionValues(values)
    ensures !Occurs(secret, RedactDockerValidationText(text, values))
  {
    RedactionValuesWellFormed(values);
    FoldCleans(text, GetRedactionValues(values), secret);
  }

  /** Redacting twice is redacting once. */
  lemma RedactionIdempotent(text: string, values: seq<Value>)
    requires AllClear(values)
    ensures var once := RedactDockerValidationText(text, values); RedactDockerValidationText(once, values) == once
  {
    RedactionValuesWellFormed(values);
    forall s | s in GetRedactionValues(values) {
      NoSecretSurvives(text, values, s);
    }
    FoldChangesNothing(RedactDockerValidationText(text, values), GetRedactionValues(values));
  }

  /** Text that holds no secret is not touched. */
  lemma CleanTextUntouched(text: string, values: seq<Value>)
    requires forall s | s in GetRedactionValues(values) :: !Occurs(s, text)
    ensures RedactDockerValidationText(text, values) == text
  {
    RedactionValuesWellFormed(values);
    FoldChangesNothing(text, GetRedactionValues(values));
  }

  // Longest first: when its turn comes, a secret standing alone is still whole.
  lemma SecretReachesItsTurn(secrets: seq<string>, k: nat)
    requires "" !in secrets && Distinct(secrets) && k < |secrets|
    requires forall i, j | 0 <= i < j < |secrets| :: |secrets[i]| >= |secrets[j]|
    ensures Fold(secrets[k], secrets) == Fold(MARKER, secrets[k + 1..])
  {
    var s := secrets[k];
    forall longer | longer in secrets[..k]
      ensures !Occurs(longer, s)
    {
      var i :| 0 <= i < k && longer == secrets[i];
      assert longer != s && s[0..|s|] == s;
    }
    FoldChangesNothing(s, secrets[..k]);
    assert secrets == secrets[..k] + secrets[k..];
    FoldAppends(s, secrets[..k], secrets[k..]);
    assert secrets[k..][1..] == secrets[k + 1..];
    assert s[..|s|] == s;
    assert ReplaceAll(s, s) == MARKER + ReplaceAll(s[|s|..], s) == MARKER;
  }

  /** A secret alone becomes exactly the marker, even when shorter secrets are parts of it. */
  lemma SecretAloneBecomesMarker(values: seq<Value>, secret: string)
    requires AllClear(values) && secret in GetRedactionValues(values)
    ensures RedactDockerValidationText(secret, values) == MARKER
  {
    RedactionValuesWellFormed(values);
    var secrets := GetRedactionValues(values);
    var k :| 0 <= k < |secrets| && secrets[k] == secret;
    SecretReachesItsTurn(secrets, k);
    forall s | s in secrets[k + 1..]
      ensures !Occurs(s, MARKER)
    {
      assert Clear(s);
      forall i | At(s, MARKER, i)
        ensures Aligned(s, i)
      {
      }
    }
    FoldChangesNothing(MARKER, secrets[k + 1..]);
  }

  // ----- Exactly when it works -----

  /** For every text, no listed secret occurs in the output. */
  ghost predicate RedactionComplete(values: seq<Value>) {
    forall text, s | s in GetRedactionValues(values) :: !Occurs(s, RedactDockerValidationText(text, values))
  }

  /** Among secrets without brackets, redaction is complete exactly when none of them is part of the marker. */
  lemma RedactionCompleteExact(values: seq<Value>)
    requires forall s | s in GetRedactionValues(values) :: BracketFree(s)
    ensures RedactionComplete(values) <==> forall s | s in GetRedactionValues(values) :: !Occurs(s, MARKER)
  {
    RedactionValuesWellFormed(values);
    var secrets := GetRedactionValues(values);
    forall s | s in secrets
      ensures Clear(s) <==> !Occurs(s, MARKER)
    {
      BracketFreeIsClear(s);
    }
    if forall s | s in secrets :: !Occurs(s, MARKER) {
      forall text, s | s in secrets
        ensures !Occurs(s, RedactDockerValidationText(text, values))
      {
        NoSecretSurvives(text, values, s);
      }
    } else {
      var k := LastInsideMarker(secrets, |secrets|);
      SecretReachesItsTurn(secrets, k);
      FoldChangesNothing(MARKER, secrets[k + 1..]);
      assert Occurs(secrets[k], RedactDockerValidationText(secrets[k], values));
    }
  }

  lemma LastInsideMarker(secrets: seq<string>, n: nat) returns (k: nat)
    requires n <= |secrets| && exists i | 0 <= i < n :: Occurs(secrets[i], MARKER)
    requires forall i | n <= i < |secrets| :: !Occurs(secrets[i], MARKER)
    ensures k < |secrets| && Occurs(secrets[k], MARKER)
    ensures forall s | s in secrets[k + 1..] :: !Occurs(s, MARKER)
  {
    if Occurs(secrets[n - 1], MARKER) {
      k := n - 1;
    } else {
      k := LastInsideMarker(secrets, n - 1);
    }
  }

  lemma BracketSecretOutsideMarker()
    ensures !Occurs("]x", MARKER)
  {
    forall i
      ensures !At("]x", MARKER, i)
    {
      assert 0 <= i <= 8 ==> MARKER[i..i + 2][1] == MARKER[i + 1] != 'x';
    }
  }

  lemma SingleSecret(secret: string)
    requires secret != ""
    ensures GetRedactionValues([Text(secret)]) == [secret]
  {
    assert Texts([Text(secret)]) == [secret] by {
      assert [Text(secret)][1..] == [];
    }
    assert [secret][..0] == [];
    assert Dedup<string>([]) == [];
    assert Dedup([secret]) == [secret];
    assert Sort<string>([], LongestFirst) == [];
    assert [secret][1..] == [];
  }

  // ----- Exactly when one secret can survive -----

  /** In s behind its own first k characters, s is found no earlier than there. */
  ghost predicate FirstAt(s: string, k: nat)
    requires k <= |s|
  {
    forall i | 0 <= i < k :: !At(s, s[..k] + s, i)
  }

  /**
   Laid over the marker at some place, the secret agrees with it; and where it begins in front of the marker, a match
   there does not begin earlier.
   */
  ghost predicate Survivable(s: string) {
    exists offset | -|s| < offset < |MARKER| :: Aligned(s, offset) && (offset < 0 ==> FirstAt(s, -offset))
  }

  /** n is where the first match begins. */
  ghost predicate FirstMatch(s: string, t: string, n: nat) {
    At(s, t, n) && forall i | 0 <= i < n :: !At(s, t, i)
  }

  lemma LeastMatch(s: string, t: string, i: nat) returns (n: nat)
    requires At(s, t, i)
    ensures FirstMatch(s, t, n)
  {
    n := 0;
    while !At(s, t, n)
      invariant n <= i && forall j | 0 <= j < n :: !At(s, t, j)
      decreases i - n
    {
      n := n + 1;
    }
  }

  lemma AtLetters(w: string, t: string, i: int)
    requires 0 <= i <= |t| - |w|
    ensures At(w, t, i) <==> forall j | 0 <= j < |w| :: w[j] == t[i + j]
  {
    if forall j | 0 <= j < |w| :: w[j] == t[i + j] {
      assert t[i..i + |w|] == w;
    }
  }

  lemma MatchHere(t: string, s: string)
    requires s != "" && At(s, t, 0)
    ensures ReplaceAll(t, s) == t[..0] + MARKER + ReplaceAll(t[|s|..], s)
  {
    assert t[..0] + MARKER == MARKER;
  }

  lemma NoMatchHere(t: string, s: string)
    requires s != "" && |t| >= |s| && !At(s, t, 0)
    ensures ReplaceAll(t, s) == [t[0]] + ReplaceAll(t[1..], s)
  {
  }

  lemma Regroup(t: string, n: nat, marker: string, rest: string)
    requires 0 < n <= |t|
    ensures [t[0]] + (t[1..][..n - 1] + marker + rest) == t[..n] + marker + rest
  {
    assert [t[0]] + t[1..][..n - 1] == t[..n];
  }

  lemma {:induction false} FirstReplaced(t: string, s: string, n: nat)
    requires s != "" && FirstMatch(s, t, n)
    ensures ReplaceAll(t, s) == t[..n] + MARKER + ReplaceAll(t[n + |s|..], s)
  {
    hide ReplaceAll;
    if n == 0 {
      MatchHere(t, s);
    } else {
      NoMatchHere(t, s);
      NextMatch(s, t, n);
      FirstReplaced(t[1..], s, n - 1);
      assert t[1..][n - 1 + |s|..] == t[n + |s|..];
      Regroup(t, n, MARKER, ReplaceAll(t[n + |s|..], s));
    }
  }

  lemma NextMatch(s: string, t: string, n: nat)
    requires s != "" && FirstMatch(s, t, n) && n > 0
    ensures FirstMatch(s, t[1..], n - 1)
  {
    AtDropped(s, t, 1, n - 1);
    forall i | 0 <= i < n - 1
      ensures !At(s, t[1..], i)
    {
      AtDropped(s, t, 1, i);
    }
  }

  // Around the first marker: an occurrence that reaches into the marker shows that the secret can survive.
  lemma AroundMarker(s: string, t: string, n: nat, rest: string, i: int)
    requires s != "" && FirstMatch(s, t, n) && At(s, t[..n] + MARKER + rest, i)
    requires n - |s| < i < n + |MARKER|
    ensures Survivable(s)
  {
    FoundIsAligned(s, t[..n], rest, i);
    AtLetters(s, t[..n] + MARKER + rest, i);
    if i < n {
      InFront(s, t, n, i);
    }
  }

  lemma InFront(s: string, t: string, n: nat, i: nat)
    requires FirstMatch(s, t, n) && i < n < i + |s|
    requires forall j | 0 <= j < n - i :: s[j] == t[i + j]
    ensures FirstAt(s, n - i)
  {
    var u := s[..n - i] + s;
    assert t[i..n + |s|] == u by {
      assert t[i..n + |s|] == t[i..n] + t[n..n + |s|];
      assert t[i..n] == s[..n - i];
    }
    forall j | 0 <= j < n - i
      ensures !At(s, u, j)
    {
      assert !At(s, t, i + j);
      AtLetters(s, u, j);
      AtLetters(s, t, i + j);
      assert forall x | 0 <= x < |u| :: u[x] == t[i..n + |s|][x] == t[i + x];
    }
  }

  lemma {:induction false} SurvivorIsSurvivable(s: string, t: string)
    requires s != "" && Occurs(s, ReplaceAll(t, s))
    ensures Survivable(s)
    decreases |t|
  {
    hide ReplaceAll, Survivable;
    if Occurs(s, t) {
      var m: int :| At(s, t, m);
      var n := LeastMatch(s, t, m);
      FirstReplaced(t, s, n);
      var rest := ReplaceAll(t[n + |s|..], s);
      var i :| At(s, t[..n] + MARKER + rest, i);
      ThreePlaces(s, t[..n], MARKER, rest, i);
      if i <= n - |s| {
        AtTaken(s, t, n, i);
      } else if i < n + |MARKER| {
        AroundMarker(s, t, n, rest, i);
      } else {
        SurvivorIsSurvivable(s, t[n + |s|..]);
      }
    } else {
      AbsentSecretChangesNothing(t, s);
    }
  }

  // A text that lets the secret survive: what precedes the marker, the secret, and what follows the marker.
  lemma SurvivableSurvives(s: string) returns (t: string)
    requires s != "" && Survivable(s)
    ensures Occurs(s, ReplaceAll(t, s))
  {
    var offset :| -|s| < offset < |MARKER| && Aligned(s, offset) && (offset < 0 ==> FirstAt(s, -offset));
    var k := if offset < 0 then -offset else 0;
    var rest := if |MARKER| - offset < |s| then s[|MARKER| - offset..] else "";
    t := s[..k] + s + rest;
    Embedded(s, k, rest);
    hide Aligned, FirstAt, ReplaceAll, Occurs;
    assert forall i | 0 <= i < |s| && 0 <= offset + i < |MARKER| :: s[i] == MARKER[offset + i] by {
      AlignedLetters(s, offset);
    }
    Surrounded(s, MARKER, k, rest, offset);
  }

  lemma AlignedLetters(w: string, offset: int)
    requires Aligned(w, offset)
    ensures forall i | 0 <= i < |w| && 0 <= offset + i < |MARKER| :: w[i] == MARKER[offset + i]
  {
  }

  // Behind its own first characters and in front of less than itself, exactly one secret is replaced.
  lemma Embedded(s: string, k: nat, rest: string)
    requires s != "" && k <= |s| && FirstAt(s, k) && |rest| < |s|
    ensures ReplaceAll(s[..k] + s + rest, s) == s[..k] + MARKER + rest
  {
    var t := s[..k] + s + rest;
    MatchBehind(s, k, rest);
    FirstReplaced(t, s, k);
    assert ReplaceAll(rest, s) == rest;
    hide *;
    assert t[k + |s|..] == rest && t[..k] == s[..k];
  }

  lemma MatchBehind(s: string, k: nat, rest: string)
    requires k <= |s| && FirstAt(s, k)
    ensures FirstMatch(s, s[..k] + s + rest, k)
  {
    var u, t := s[..k] + s, s[..k] + s + rest;
    assert t[k..k + |s|] == s;
    forall i | 0 <= i < k
      ensures !At(s, t, i)
    {
      assert t[i..i + |s|] == u[i..i + |s|];
      assert !At(s, u, i);
    }
  }

  lemma Surrounded(s: string, marker: string, k: nat, rest: string, offset: int)
    requires -|s| < offset < |marker| && k == if offset < 0 then -offset else 0
    requires forall i | 0 <= i < |s| && 0 <= offset + i < |marker| :: s[i] == marker[offset + i]
    requires rest == if |marker| - offset < |s| then s[|marker| - offset..] else ""
    ensures Occurs(s, s[..k] + marker + rest)
  {
    var r, i := s[..k] + marker + rest, k + offset;
    forall j | 0 <= j < |s|
      ensures s[j] == r[i + j]
    {
      if offset + j >= 0 {
        assert offset + j < |marker| ==> r[i + j] == marker[offset + j];
        assert offset + j >= |marker| ==> r[i + j] == rest[offset + j - |marker|];
      }
    }
    AtLetters(s, r, i);
    assert At(s, r, i);
  }

  lemma OneReplaced(secret: string)
    requires secret != ""
    ensures GetRedactionValues([Text(secret)]) == [secret]
    ensures forall text :: RedactDockerValidationText(text, [Text(secret)]) == ReplaceAll(text, secret)
  {
    SingleSecret(secret);
    assert [secret][1..] == [];
    forall text
      ensures Fold(text, [secret]) == ReplaceAll(text, secret)
    {
      assert Fold(text, [secret]) == Fold(ReplaceAll(text, secret), []);
    }
  }

  /** For one secret, whatever its characters: no text lets it survive if and only if it is not survivable. */
  lemma SingleSecretExact(secret: string)
    requires secret != ""
    ensures RedactionComplete([Text(secret)]) <==> !Survivable(secret)
  {
    OneReplaced(secret);
    hide RedactDockerValidationText, ReplaceAll, GetRedactionValues;
    var values := [Text(secret)];
    if Survivable(secret) {
      var text := SurvivableSurvives(secret);
      assert Occurs(secret, RedactDockerValidationText(text, values));
    } else {
      forall text, s | s in GetRedactionValues(values)
        ensures !Occurs(s, RedactDockerValidationText(text, values))
      {
        if Occurs(secret, ReplaceAll(text, secret)) {
          SurvivorIsSurvivable(secret, text);
        }
      }
    }
  }

  /** Not every secret with a bracket can survive: this one shares a character with the marker, and never does. */
  lemma TwoBracketsNeverSurvive()
    ensures !Clear("[[") && RedactionComplete([Text("[[")])
  {
    var s := "[[";
    assert MARKER[0] == '[' && forall i | 1 <= i < |MARKER| :: MARKER[i] != '[';
    assert Aligned(s, -1);
    assert s[..1] + s == "[[[" && At(s, "[[[", 0);
    forall offset | -2 < offset < |MARKER| && Aligned(s, offset)
      ensures offset == -1
    {
      assert s[1] == '[' && s[0] == '[';
    }
    SingleSecretExact(s);
  }

  /** The bracket condition is needed: this secret is no part of the marker, yet the output holds it. */
  lemma BracketSecretSurvives()
    ensures var values := [Text("]x")];
      && !Occurs("]x", MARKER)
      && RedactDockerValidationText("]xx", values) == "[redacted]x"
      && Occurs("]x", RedactDockerValidationText("]xx", values))
  {
    var values := [Text("]x")];
    BracketSecretOutsideMarker();
    SingleSecret("]x");
    assert "]xx"[..2] == "]x" && "]xx"[2..] == "x";
    assert ReplaceAll("]xx", "]x") == MARKER + ReplaceAll("x", "]x") == "[redacted]x";
    assert Fold("]xx", ["]x"]) == Fold("[redacted]x", []);
    assert At("]x", "[redacted]x", 9);
  }
}
