/**
 Whether any text lets a secret of a list survive, whatever characters the secrets are made of: if one does, then so
 does one no longer than the product of the lengths of the secrets and of the survivor.

 A replacement reads its text from left to right and needs to remember only how much of its secret it has just seen; the
 replacements of a list, one behind the other, together remember one number each. A text long enough passes through the
 same numbers twice, and what lies between can be left out.
 */
module RedactionBound {
  import opened Common
  import opened Redaction

  // ----- What one replacement remembers -----

  /** t ends with the first q characters of w. */
  predicate EndsWith(t: string, w: string, q: nat) {
    q <= |w| && q <= |t| && t[|t| - q..] == w[..q]
  }

  function LongestUpTo(t: string, w: string, n: nat): (q: nat)
    requires n <= |w|
    ensures q <= n && EndsWith(t, w, q)
    ensures forall k | q < k <= n :: !EndsWith(t, w, k)
  {
    if n == 0 || EndsWith(t, w, n) then n else LongestUpTo(t, w, n - 1)
  }

  /** How much of w, short of all of it, t ends with. */
  function Held(t: string, w: string): (q: nat)
    requires w != ""
    ensures q < |w| && EndsWith(t, w, q)
    ensures forall k | q < k < |w| :: !EndsWith(t, w, k)
  {
    LongestUpTo(t, w, |w| - 1)
  }

  /** A place where w begins in t + x and that is not wholly in t lies in what is held. */
  lemma BeginsInHeld(t: string, w: string, x: string, i: nat)
    requires w != "" && At(w, t + x, i) && i < |t| < i + |w|
    ensures i >= |t| - Held(t, w)
  {
    var k := |t| - i;
    assert (t + x)[i..i + |w|][..k] == t[i..];
    assert EndsWith(t, w, k);
  }

  /** With or without what lies in front of the held characters, the same matches follow. */
  lemma SameBehind(t: string, w: string, x: string, i: nat)
    requires w != "" && |t| - Held(t, w) <= i <= |t + x|
    ensures At(w, t + x, i) <==> At(w, w[..Held(t, w)] + x, i - (|t| - Held(t, w)))
  {
    var q := Held(t, w);
    assert (t + x)[|t| - q..] == w[..q] + x;
    AtDropped(w, t + x, |t| - q, i - (|t| - q));
  }

  /** What a replacement has put out and what it still holds when it has read t. */
  function Emit(t: string, c: string): (r: (string, nat))
    requires c != ""
    ensures r.1 < |c|
    decreases |t|
  {
    if |t| < |c| then (t[..|t| - Held(t, c)], Held(t, c))
    else if t[..|c|] == c then
      var (out, q) := Emit(t[|c|..], c);
      (MARKER + out, q)
    else
      var (out, q) := Emit(t[1..], c);
      ([t[0]] + out, q)
  }

  lemma NotYet(t: string, c: string, x: string)
    requires c != "" && Held(t, c) < |t| < |c| <= |t + x|
    ensures ReplaceAll(t + x, c) == [t[0]] + ReplaceAll(t[1..] + x, c)
  {
    if At(c, t + x, 0) {
      BeginsInHeld(t, c, x, 0);
    }
    assert (t + x)[1..] == t[1..] + x;
  }

  lemma TooShort(t: string, c: string)
    requires c != "" && |t| < |c|
    ensures ReplaceAll(t, c) == t
  {
  }

  lemma {:induction false} ShortEmit(t: string, c: string, x: string)
    requires c != "" && |t| < |c|
    ensures ReplaceAll(t + x, c) == t[..|t| - Held(t, c)] + ReplaceAll(c[..Held(t, c)] + x, c)
    decreases |t|
  {
    hide ReplaceAll, Held;
    var q := Held(t, c);
    if |t| == q {
      assert t + x == c[..q] + x && t[..0] == "";
    } else if |t + x| < |c| {
      TooShort(t + x, c);
      TooShort(c[..q] + x, c);
      assert t + x == t[..|t| - q] + (c[..q] + x);
    } else {
      NotYet(t, c, x);
      HeldBehind(t, c);
      ShortEmit(t[1..], c, x);
      OneInFront(t, |t| - q, ReplaceAll(c[..q] + x, c));
    }
  }

  lemma OneInFront(t: string, n: nat, rest: string)
    requires 0 < n <= |t|
    ensures [t[0]] + (t[1..][..n - 1] + rest) == t[..n] + rest
  {
    assert [t[0]] + t[1..][..n - 1] == t[..n];
  }

  lemma HeldBehind(t: string, c: string)
    requires c != "" && |t| < |c| && Held(t, c) < |t|
    ensures Held(t[1..], c) == Held(t, c)
  {
    forall k: nat | k <= |t[1..]|
      ensures EndsWith(t, c, k) <==> EndsWith(t[1..], c, k)
    {
      assert t[1..][|t[1..]| - k..] == t[|t| - k..];
    }
  }

  /** Reading on behind t is reading on behind the characters that are held. */
  lemma {:induction false} ReplaceOnwards(t: string, c: string, x: string)
    requires c != ""
    ensures ReplaceAll(t + x, c) == Emit(t, c).0 + ReplaceAll(c[..Emit(t, c).1] + x, c)
    decreases |t|
  {
    if |t| < |c| {
      ShortEmit(t, c, x);
    } else if t[..|c|] == c {
      assert (t + x)[..|c|] == c && (t + x)[|c|..] == t[|c|..] + x;
      ReplaceOnwards(t[|c|..], c, x);
    } else {
      assert (t + x)[..|c|] == t[..|c|] && (t + x)[1..] == t[1..] + x;
      ReplaceOnwards(t[1..], c, x);
    }
  }

  // ----- What the replacements of a list remember -----

  function Emitted(t: string, secrets: seq<string>): string
    requires "" !in secrets
    decreases secrets
  {
    if secrets == [] then t else Emitted(Emit(t, secrets[0]).0, secrets[1..])
  }

  function State(t: string, secrets: seq<string>): (state: seq<nat>)
    requires "" !in secrets
    ensures |state| == |secrets| && forall i | 0 <= i < |secrets| :: state[i] < |secrets[i]|
    decreases secrets
  {
    if secrets == [] then [] else [Emit(t, secrets[0]).1] + State(Emit(t, secrets[0]).0, secrets[1..])
  }

  /** What the replacements put out from this state on, when they read x and the text ends. */
  function Onwards(state: seq<nat>, x: string, secrets: seq<string>): string
    requires "" !in secrets && |state| == |secrets| && forall i | 0 <= i < |secrets| :: state[i] < |secrets[i]|
    decreases secrets
  {
    if secrets == [] then x
    else Onwards(state[1..], ReplaceAll(secrets[0][..state[0]] + x, secrets[0]), secrets[1..])
  }

  lemma {:induction false} FoldOnwards(t: string, x: string, secrets: seq<string>)
    requires "" !in secrets
    ensures Fold(t + x, secrets) == Emitted(t, secrets) + Onwards(State(t, secrets), x, secrets)
    decreases secrets
  {
    if secrets != [] {
      var c := secrets[0];
      ReplaceOnwards(t, c, x);
      FoldOnwards(Emit(t, c).0, ReplaceAll(c[..Emit(t, c).1] + x, c), secrets[1..]);
    }
  }

  /** A secret is found across two texts when it is found in the first, or behind what the first holds of it. */
  lemma FoundOnwards(s: string, a: string, b: string)
    requires s != ""
    ensures Occurs(s, a + b) <==> Occurs(s, a) || Occurs(s, s[..Held(a, s)] + b)
  {
    var q := Held(a, s);
    if i :| At(s, a + b, i) {
      if i + |s| <= |a| {
        assert (a + b)[i..i + |s|] == a[i..i + |s|];
        assert At(s, a, i);
      } else {
        if i < |a| {
          BeginsInHeld(a, s, b, i);
        }
        SameBehind(a, s, b, i);
        assert At(s, s[..q] + b, i - (|a| - q));
      }
    }
    if i :| At(s, a, i) {
      assert (a + b)[i..i + |s|] == a[i..i + |s|];
      assert At(s, a + b, i);
    }
    if i :| At(s, s[..q] + b, i) {
      SameBehind(a, s, b, |a| - q + i);
      assert At(s, a + b, |a| - q + i);
    }
  }

  /** All that is remembered: by each replacement, and by whoever looks for the secret s behind them. */
  function Memory(t: string, secrets: seq<string>, s: string): (memory: seq<nat>)
    requires "" !in secrets && s != ""
    ensures |memory| == |secrets| + 1
    ensures forall i | 0 <= i < |memory| :: memory[i] < Bounds(secrets, s)[i]
  {
    State(t, secrets) + [Held(Emitted(t, secrets), s)]
  }

  function Bounds(secrets: seq<string>, s: string): (bounds: seq<nat>)
    ensures |bounds| == |secrets| + 1
    ensures forall i | 0 <= i < |secrets| :: bounds[i] == |secrets[i]|
    ensures bounds[|secrets|] == |s|
  {
    seq(|secrets|, i requires 0 <= i < |secrets| => |secrets[i]|) + [|s|]
  }

  // ----- How many memories there are -----

  function Product(bounds: seq<nat>): nat {
    if bounds == [] then 1 else bounds[0] * Product(bounds[1..])
  }

  predicate Within(memory: seq<nat>, bounds: seq<nat>) {
    |memory| == |bounds| && forall i | 0 <= i < |memory| :: memory[i] < bounds[i]
  }

  /** The memory as one number, in the mixed base of its bounds. */
  function Code(memory: seq<nat>, bounds: seq<nat>): nat
    requires Within(memory, bounds)
  {
    if memory == [] then 0 else memory[0] + bounds[0] * Code(memory[1..], bounds[1..])
  }

  lemma {:induction false} CodeBounded(memory: seq<nat>, bounds: seq<nat>)
    requires Within(memory, bounds)
    ensures Code(memory, bounds) < Product(bounds)
  {
    if memory != [] {
      CodeBounded(memory[1..], bounds[1..]);
      DigitBounded(memory[0], bounds[0], Code(memory[1..], bounds[1..]), Product(bounds[1..]));
    }
  }

  lemma DigitBounded(d: nat, base: nat, rest: nat, limit: nat)
    requires d < base && rest < limit
    ensures d + base * rest < base * limit
  {
    assert base * (rest + 1) <= base * limit;
  }

  lemma OneMore(base: nat, a: nat, b: nat)
    ensures a < b ==> base * a + base <= base * b
  {
    if a < b {
      assert base * (a + 1) <= base * b;
    }
  }

  lemma DigitsUnique(base: nat, d: nat, rest: nat, d': nat, rest': nat)
    requires d < base && d' < base && d + base * rest == d' + base * rest'
    ensures d == d' && rest == rest'
  {
    OneMore(base, rest, rest');
    OneMore(base, rest', rest);
  }

  lemma {:induction false} CodeUnique(a: seq<nat>, b: seq<nat>, bounds: seq<nat>)
    requires Within(a, bounds) && Within(b, bounds) && Code(a, bounds) == Code(b, bounds)
    ensures a == b
  {
    if a != [] {
      DigitsUnique(bounds[0], a[0], Code(a[1..], bounds[1..]), b[0], Code(b[1..], bounds[1..]));
      CodeUnique(a[1..], b[1..], bounds[1..]);
      assert a == [a[0]] + a[1..] && b == [b[0]] + b[1..];
    }
  }

  lemma NumbersBelow(n: nat) returns (below: set<nat>)
    ensures |below| == n && forall k: nat :: k in below <==> k < n
  {
    below := {};
    for i := 0 to n
      invariant |below| == i && forall k: nat :: k in below <==> k < i
    {
      below := below + {i};
    }
  }

  /** More numbers than there are below n: one of them comes twice. */
  lemma Pigeonhole(numbers: seq<nat>, n: nat) returns (i: nat, j: nat)
    requires |numbers| > n && forall k | 0 <= k < |numbers| :: numbers[k] < n
    ensures i < j < |numbers| && numbers[i] == numbers[j]
  {
    DistinctCardinality(numbers);
    var below := NumbersBelow(n);
    assert Elements(numbers) <= below;
    SmallerSet(Elements(numbers), below);
    assert !Distinct(numbers);
    i, j :| 0 <= i < j < |numbers| && numbers[i] == numbers[j];
  }

  lemma SmallerSet(a: set<nat>, b: set<nat>)
    requires a <= b
    ensures |a| <= |b|
  {
    assert b == a + (b - a);
  }

  // ----- Short texts decide -----

  /** No surviving secret in what has been put out when t is read, only perhaps behind it. */
  lemma MemoryDecides(s: string, a: string, b: string, x: string, secrets: seq<string>)
    requires "" !in secrets && s != "" && Memory(a, secrets, s) == Memory(b, secrets, s)
    requires Occurs(s, Fold(b + x, secrets)) && !Occurs(s, Emitted(b, secrets))
    ensures Occurs(s, Fold(a + x, secrets))
  {
    FoldOnwards(a, x, secrets);
    FoldOnwards(b, x, secrets);
    var n := |secrets|;
    assert State(a, secrets) == Memory(a, secrets, s)[..n] == Memory(b, secrets, s)[..n] == State(b, secrets);
    assert Memory(a, secrets, s)[n] == Memory(b, secrets, s)[n];
    var onwards := Onwards(State(a, secrets), x, secrets);
    FoundOnwards(s, Emitted(a, secrets), onwards);
    FoundOnwards(s, Emitted(b, secrets), onwards);
  }

  lemma PutOutSurvives(s: string, a: string, secrets: seq<string>)
    requires "" !in secrets && s != "" && Occurs(s, Emitted(a, secrets))
    ensures Occurs(s, Fold(a, secrets))
  {
    FoldOnwards(a, "", secrets);
    assert a + "" == a;
    FoundOnwards(s, Emitted(a, secrets), Onwards(State(a, secrets), "", secrets));
  }

  function MemoryBefore(t: string, secrets: seq<string>, s: string, k: nat): nat
    requires "" !in secrets && s != "" && k <= |t|
  {
    Code(Memory(t[..k], secrets, s), Bounds(secrets, s))
  }

  // A text that is too long can be made shorter.
  lemma ShorterSurvives(s: string, t: string, secrets: seq<string>) returns (t': string)
    requires "" !in secrets && s != "" && Occurs(s, Fold(t, secrets)) && |t| > Product(Bounds(secrets, s))
    ensures |t'| < |t| && Occurs(s, Fold(t', secrets))
  {
    hide Fold, Emitted, Memory, Bounds, Code, Product, Occurs;
    if k :| 0 <= k < |t| && Occurs(s, Emitted(t[..k], secrets)) {
      PutOutSurvives(s, t[..k], secrets);
      t' := t[..k];
    } else {
      var numbers := seq(|t|, k requires 0 <= k < |t| => MemoryBefore(t, secrets, s, k));
      forall k | 0 <= k < |t|
        ensures numbers[k] < Product(Bounds(secrets, s))
      {
        CodeBounded(Memory(t[..k], secrets, s), Bounds(secrets, s));
      }
      var i, j := Pigeonhole(numbers, Product(Bounds(secrets, s)));
      CodeUnique(Memory(t[..i], secrets, s), Memory(t[..j], secrets, s), Bounds(secrets, s));
      assert t == t[..j] + t[j..];
      MemoryDecides(s, t[..i], t[..j], t[j..], secrets);
      t' := t[..i] + t[j..];
    }
  }

  lemma {:induction false} ShortSurvives(s: string, t: string, secrets: seq<string>) returns (t': string)
    requires "" !in secrets && s != "" && Occurs(s, Fold(t, secrets))
    ensures |t'| <= Product(Bounds(secrets, s)) && Occurs(s, Fold(t', secrets))
    decreases |t|
  {
    t' := t;
    if |t| > Product(Bounds(secrets, s)) {
      t' := ShorterSurvives(s, t, secrets);
      t' := ShortSurvives(s, t', secrets);
    }
  }

  /** Long enough for every way in which the secret s can survive the list. */
  function Enough(values: seq<Value>, s: string): nat {
    Product(Bounds(GetRedactionValues(values), s))
  }

  /**
   For any list of secrets, of any characters: redaction is complete if and only if it is on the finitely many texts
   that are no longer than the product of the lengths of all secrets and of the one looked for.
   */
  lemma ShortTextsDecide(values: seq<Value>)
    ensures RedactionComplete(values) <==>
      forall text, s | s in GetRedactionValues(values) && |text| <= Enough(values, s) ::
      !Occurs(s, RedactDockerValidationText(text, values))
  {
    RedactionValuesWellFormed(values);
    var secrets := GetRedactionValues(values);
    hide GetRedactionValues, Product, Bounds;
    forall text, s | s in secrets && Occurs(s, RedactDockerValidationText(text, values))
      ensures exists text' :: |text'| <= Enough(values, s) && Occurs(s, RedactDockerValidationText(text', values))
    {
      var text' := ShortSurvives(s, text, secrets);
      assert RedactDockerValidationText(text', values) == Fold(text', secrets);
    }
  }
}
