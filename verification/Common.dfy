/** Small datatypes shared by the models. */
module Common {

  datatype Option<+T> = None | Some(value: T)

  /** A call that either yields a value or throws. */
  datatype Result<+T> = Ok(value: T) | Rejected {
    predicate IsFailure() {
      Rejected?
    }

    function PropagateFailure<U>(): Result<U>
      requires Rejected?
    {
      Rejected
    }

    function Extract(): T
      requires Ok?
    {
      value
    }
  }

  /**
   What may happen around one call to a remote service: it goes through undisturbed; it takes effect
   but its response is lost; it never arrives; or somebody else changed the service first.
   */
  datatype Weather<+W> = Steady | Lost | Down | Changed(world: W)

  /** n lower-case hexadecimal digits. */
  predicate Hex(s: string, n: nat) {
    |s| == n && forall c | c in s :: '0' <= c <= '9' || 'a' <= c <= 'f'
  }

  function ToLower(s: string): (r: string)
    ensures |r| == |s|
  {
    seq(|s|, i requires 0 <= i < |s| => if 'A' <= s[i] <= 'Z' then s[i] - 'A' + 'a' else s[i])
  }

  /** The second character is the first in lower case. */
  predicate LowerCase(c: char, l: char) {
    if 'A' <= c <= 'Z' then l as int - c as int == 'a' as int - 'A' as int else l == c
  }

  /** Letter by letter, the second text is the first in lower case. */
  predicate LowerCased(s: string, l: string) {
    |l| == |s| && forall i | 0 <= i < |s| :: LowerCase(s[i], l[i])
  }

  lemma LowerCaseExact(s: string, l: string)
    ensures LowerCased(s, l) <==> l == ToLower(s)
  {
  }

  /** A time as text; `readable` says that `Date.parse` makes sense of it. */
  datatype Stamp = Stamp(text: string, readable: bool)

  /** The text follows the pattern, in which a zero stands for any digit. */
  predicate Shaped(s: string, pattern: string) {
    |s| == |pattern| && forall i | 0 <= i < |s| :: if pattern[i] == '0' then '0' <= s[i] <= '9' else s[i] == pattern[i]
  }

  const ISO_SECONDS := "0000-00-00T00:00:00Z"
  const ISO_MILLISECONDS := "0000-00-00T00:00:00.000Z"

  /** Seconds or milliseconds, in UTC: the form of time that evidence has to have. */
  predicate IsoForm(text: string) {
    Shaped(text, ISO_SECONDS) || Shaped(text, ISO_MILLISECONDS)
  }

  /** No element occurs at two positions. */
  ghost predicate Distinct<T>(s: seq<T>) {
    forall i, j | 0 <= i < j < |s| :: s[i] != s[j]
  }

  /** The elements of a sequence as a set, as `new Set(values)` holds them. */
  function Elements<T>(s: seq<T>): set<T> {
    set x | x in s
  }

  function Filter<T(!new)>(s: seq<T>, keep: T -> bool): (r: seq<T>)
    ensures forall x :: x in r <==> x in s && keep(x)
    ensures |r| <= |s|
  {
    if s == [] then []
    else (if keep(s[0]) then [s[0]] else []) + Filter(s[1..], keep)
  }

  function Map<T, U>(s: seq<T>, f: T -> U): (r: seq<U>)
    ensures |r| == |s|
    ensures forall i | 0 <= i < |s| :: r[i] == f(s[i])
  {
    seq(|s|, i requires 0 <= i < |s| => f(s[i]))
  }

  lemma FilterAppend<T(!new)>(a: seq<T>, b: seq<T>, keep: T -> bool)
    ensures Filter(a + b, keep) == Filter(a, keep) + Filter(b, keep)
  {
    if a == [] {
      assert a + b == b;
    } else {
      assert (a + b)[1..] == a[1..] + b;
      FilterAppend(a[1..], b, keep);
    }
  }

  lemma FilterAgrees<T(!new)>(s: seq<T>, keep: T -> bool, same: T -> bool)
    requires forall x :: keep(x) == same(x)
    ensures Filter(s, keep) == Filter(s, same)
  {
  }

  lemma NothingKept<T(!new)>(s: seq<T>, keep: T -> bool)
    requires forall x | x in s :: !keep(x)
    ensures Filter(s, keep) == []
  {
  }

  lemma {:induction false} OnlyKept<T(!new)>(s: seq<T>, keep: T -> bool, i: nat)
    requires i < |s| && keep(s[i]) && forall j: nat | j < |s| && j != i :: !keep(s[j])
    ensures Filter(s, keep) == [s[i]]
  {
    if i == 0 {
      NothingKept(s[1..], keep);
    } else {
      OnlyKept(s[1..], keep, i - 1);
    }
  }

  lemma {:induction false} TwoKept<T(!new)>(s: seq<T>, keep: T -> bool, i: nat, j: nat)
    requires i < j < |s| && keep(s[i]) && keep(s[j])
    ensures |Filter(s, keep)| >= 2
  {
    if i == 0 {
      assert s[1..][j - 1] in Filter(s[1..], keep);
    } else {
      TwoKept(s[1..], keep, i - 1, j - 1);
    }
  }

  /** An element is the only one kept if and only if it is the only one that the condition holds of. */
  lemma {:induction false} SingleKept<T(!new)>(s: seq<T>, keep: T -> bool, i: nat)
    requires i < |s| && keep(s[i])
    ensures |Filter(s, keep)| == 1 <==> forall j: nat | j < |s| && j != i :: !keep(s[j])
    ensures |Filter(s, keep)| == 1 ==> Filter(s, keep) == [s[i]]
  {
    hide Filter;
    if forall j: nat | j < |s| && j != i :: !keep(s[j]) {
      OnlyKept(s, keep, i);
    } else {
      var j: nat :| j < |s| && j != i && keep(s[j]);
      TwoKept(s, keep, if i < j then i else j, if i < j then j else i);
    }
  }

  /** Filtering a multiset of elements: order plays no part in which elements are kept. */
  lemma FilterCounts<T(!new)>(s: seq<T>, keep: T -> bool)
    ensures forall x :: multiset(Filter(s, keep))[x] == if keep(x) then multiset(s)[x] else 0
  {
    if s != [] {
      FilterCounts(s[1..], keep);
      assert s == [s[0]] + s[1..];
    }
  }

  /** `[...new Set(values)]`: each value once, in the order of first occurrence. */
  function Dedup<T(==,!new)>(s: seq<T>): (r: seq<T>)
    ensures Distinct(r)
    ensures forall x :: x in r <==> x in s
  {
    if s == [] then []
    else
      var init := Dedup(s[..|s| - 1]);
      var last := s[|s| - 1];
      assert s == s[..|s| - 1] + [last];
      if last in init then init else init + [last]
  }

  /** A list has as many entries as it has elements exactly when none repeats. */
  lemma {:induction false} DistinctCardinality<T>(s: seq<T>)
    ensures |Elements(s)| <= |s|
    ensures |Elements(s)| == |s| <==> Distinct(s)
  {
    if s == [] {
      assert Elements(s) == {};
    } else {
      var init, last := s[..|s| - 1], s[|s| - 1];
      DistinctCardinality(init);
      assert s == init + [last];
      assert Elements(s) == Elements(init) + {last};
      if last in init {
        var k :| 0 <= k < |init| && init[k] == last;
        assert s[k] == s[|s| - 1];
        assert Elements(s) == Elements(init);
      }
    }
  }

  lemma DistinctPermutes<T>(a: seq<T>, b: seq<T>)
    requires Distinct(a) && multiset(a) == multiset(b)
    ensures Distinct(b)
  {
    forall i, j | 0 <= i < j < |b|
      ensures b[i] != b[j]
    {
      if b[i] == b[j] {
        assert b == b[..i] + [b[i]] + b[i + 1..j] + [b[j]] + b[j + 1..];
        assert multiset(b)[b[i]] >= 2;
        DistinctCountsOnce(a, b[i]);
        assert false;
      }
    }
  }

  lemma DistinctCountsOnce<T>(a: seq<T>, x: T)
    requires Distinct(a)
    ensures multiset(a)[x] == if x in a then 1 else 0
  {
    if a != [] {
      assert a == a[..|a| - 1] + [a[|a| - 1]];
      DistinctCountsOnce(a[..|a| - 1], x);
    }
  }
}
