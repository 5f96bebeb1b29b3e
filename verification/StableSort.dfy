/**
 `Array.prototype.sort` (section 23.1.3.30 of ECMA-262, 2024 edition) is stable. Every comparator
 in the modelled scripts compares one number, or one number and then a name, so a comparator is
 represented by the key it compares.
 */
module StableSort {
  datatype Key = Key(major: int, minor: int)

  predicate Before(a: Key, b: Key) {
    a.major < b.major || (a.major == b.major && a.minor < b.minor)
  }

  predicate AtMost(a: Key, b: Key) {
    !Before(b, a)
  }

  ghost predicate SortedBy<T>(s: seq<T>, key: T -> Key) {
    forall i, j | 0 <= i < j < |s| :: AtMost(key(s[i]), key(s[j]))
  }

  /** Puts x in front of the first element whose key is not smaller: earlier input stays first among equals. */
  function Insert<T>(x: T, s: seq<T>, key: T -> Key): seq<T> {
    if s == [] then [x]
    else if AtMost(key(x), key(s[0])) then [x] + s
    else [s[0]] + Insert(x, s[1..], key)
  }

  function Sort<T>(s: seq<T>, key: T -> Key): seq<T> {
    if s == [] then [] else Insert(s[0], Sort(s[1..], key), key)
  }

  /** Where an insertion lands: everything in front of it is strictly smaller. */
  lemma {:induction false} InsertSplits<T>(x: T, s: seq<T>, key: T -> Key) returns (k: nat)
    ensures k <= |s|
    ensures Insert(x, s, key) == s[..k] + [x] + s[k..]
    ensures forall i | 0 <= i < k :: Before(key(s[i]), key(x))
    ensures k < |s| ==> AtMost(key(x), key(s[k]))
  {
    if s == [] || AtMost(key(x), key(s[0])) {
      k := 0;
    } else {
      var k' := InsertSplits(x, s[1..], key);
      k := k' + 1;
      assert s[..k] == [s[0]] + s[1..][..k'];
    }
  }

  lemma {:induction false} InsertPermutes<T>(x: T, s: seq<T>, key: T -> Key)
    ensures multiset(Insert(x, s, key)) == multiset(s) + multiset{x}
  {
    if s != [] {
      InsertPermutes(x, s[1..], key);
      assert s == [s[0]] + s[1..];
    }
  }

  lemma InsertSorted<T>(x: T, s: seq<T>, key: T -> Key)
    requires SortedBy(s, key)
    ensures SortedBy(Insert(x, s, key), key)
  {
    var k := InsertSplits(x, s, key);
    var r := Insert(x, s, key);
    forall i, j | 0 <= i < j < |r|
      ensures AtMost(key(r[i]), key(r[j]))
    {
      if i < k {
        assert r[i] == s[i];
        assert j < k ==> r[j] == s[j];
        assert j > k ==> r[j] == s[j - 1];
      } else if i == k {
        assert r[j] == s[j - 1];
        assert AtMost(key(s[k]), key(s[j - 1]));
      } else {
        assert r[i] == s[i - 1] && r[j] == s[j - 1];
      }
    }
  }

  /** Sorting yields the same elements, in key order. */
  lemma {:induction false} SortSorts<T>(s: seq<T>, key: T -> Key)
    ensures multiset(Sort(s, key)) == multiset(s)
    ensures |Sort(s, key)| == |s|
    ensures forall x :: x in Sort(s, key) <==> x in s
    ensures SortedBy(Sort(s, key), key)
  {
    if s != [] {
      SortSorts(s[1..], key);
      InsertPermutes(s[0], Sort(s[1..], key), key);
      InsertSorted(s[0], Sort(s[1..], key), key);
      assert s == [s[0]] + s[1..];
    }
    SameElements(Sort(s, key), s);
  }

  lemma SameElements<T>(a: seq<T>, b: seq<T>)
    requires multiset(a) == multiset(b)
    ensures |a| == |b|
    ensures forall x :: x in a <==> x in b
  {
    assert |multiset(a)| == |multiset(b)|;
    forall x
      ensures x in a <==> x in b
    {
      assert x in a <==> x in multiset(a);
      assert x in b <==> x in multiset(b);
    }
  }

  /** A list that is already in key order is left as it is: stability. */
  lemma {:induction false} SortFixpoint<T>(s: seq<T>, key: T -> Key)
    requires SortedBy(s, key)
    ensures Sort(s, key) == s
  {
    if s != [] {
      SortFixpoint(s[1..], key);
      if |s| > 1 {
        assert AtMost(key(s[0]), key(s[1]));
      }
    }
  }

  /** Two lists in key order with the same elements show the same keys at every position. */
  lemma {:induction false} SortedKeysUnique<T>(a: seq<T>, b: seq<T>, key: T -> Key)
    requires SortedBy(a, key) && SortedBy(b, key)
    requires multiset(a) == multiset(b)
    ensures |a| == |b|
    ensures forall i | 0 <= i < |a| :: key(a[i]) == key(b[i])
  {
    SameElements(a, b);
    if a != [] {
      // Both heads are minimal, so their keys agree; drop one element with that key from each.
      assert a[0] in b;
      var j :| 0 <= j < |b| && b[j] == a[0];
      assert b[0] in a;
      var k :| 0 <= k < |a| && a[k] == b[0];
      assert key(a[0]) == key(b[0]);
      var b' := b[..j] + b[j + 1..];
      RemovalPermutes(a, b, j);
      SortedKeysUnique(a[1..], b', key);
      forall i | 0 <= i < |a|
        ensures key(a[i]) == key(b[i])
      {
        if 0 < i <= j {
          assert key(a[i]) == key(a[1..][i - 1]) == key(b'[i - 1]) == key(b[i - 1]);
          KeysConstant(a, b, key, i, j);
        } else if i > j {
          assert a[i] == a[1..][i - 1];
          assert b'[i - 1] == b[i];
        }
      }
    }
  }

  lemma RemovalPermutes<T>(a: seq<T>, b: seq<T>, j: nat)
    requires a != [] && j < |b| && a[0] == b[j]
    requires multiset(a) == multiset(b)
    ensures multiset(a[1..]) == multiset(b[..j] + b[j + 1..])
  {
    assert a == [a[0]] + a[1..];
    assert b == b[..j] + [b[j]] + b[j + 1..];
    assert multiset(a) == multiset{a[0]} + multiset(a[1..]);
    assert multiset(b) == multiset(b[..j]) + multiset{b[j]} + multiset(b[j + 1..]);
    var rest := multiset(b[..j] + b[j + 1..]);
    assert rest == multiset(b[..j]) + multiset(b[j + 1..]);
    assert multiset(a[1..]) == multiset(a) - multiset{a[0]};
    assert rest == multiset(b) - multiset{b[j]};
  }

  // b[..j+1] starts and ends with the smallest key, so every key in between is that key.
  lemma KeysConstant<T>(a: seq<T>, b: seq<T>, key: T -> Key, i: nat, j: nat)
    requires SortedBy(b, key) && 0 < i <= j < |b| && i < |a|
    requires b[j] == a[0] && key(a[0]) == key(b[0]) && key(a[i]) == key(b[i - 1])
    ensures key(a[i]) == key(b[i])
  {
  }

  // Plain numbers.

  function NumberKey(x: int): Key {
    Key(x, 0)
  }

  function SortNumbers(s: seq<int>): seq<int> {
    Sort(s, NumberKey)
  }

  lemma SortNumbersSorts(s: seq<int>)
    ensures multiset(SortNumbers(s)) == multiset(s)
    ensures |SortNumbers(s)| == |s|
    ensures forall x :: x in SortNumbers(s) <==> x in s
    ensures forall i, j | 0 <= i <= j < |s| :: SortNumbers(s)[i] <= SortNumbers(s)[j]
  {
    SortSorts(s, NumberKey);
    var r := SortNumbers(s);
    forall i, j | 0 <= i <= j < |s|
      ensures r[i] <= r[j]
    {
      if i < j {
        assert AtMost(NumberKey(r[i]), NumberKey(r[j]));
      }
    }
  }

  /** Sorting numbers forgets the order they came in. */
  lemma SortNumbersPermutes(a: seq<int>, b: seq<int>)
    requires multiset(a) == multiset(b)
    ensures SortNumbers(a) == SortNumbers(b)
  {
    SortSorts(a, NumberKey);
    SortSorts(b, NumberKey);
    SortedKeysUnique(SortNumbers(a), SortNumbers(b), NumberKey);
    forall i | 0 <= i < |SortNumbers(a)|
      ensures SortNumbers(a)[i] == SortNumbers(b)[i]
    {
      assert NumberKey(SortNumbers(a)[i]) == NumberKey(SortNumbers(b)[i]);
    }
  }
}
