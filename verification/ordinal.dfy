/**
 Ordering and sorting of rule ids, which may be null (None). Strings are
 compared ordinally, character by character, a proper prefix coming first;
 null comes before every string, as with the default string comparer.
 */
module Ordinal {
  import opened Common

  type Key = Option<string>

  /** Ordinal (character-code) lexicographic order on strings. */
  predicate StringLessEq(a: string, b: string) {
    if |a| == 0 then true
    else if |b| == 0 then false
    else if a[0] != b[0] then a[0] < b[0]
    else StringLessEq(a[1..], b[1..])
  }

  /** Null first, then strings in ordinal order. */
  predicate KeyLessEq(a: Key, b: Key) {
    match (a, b)
    case (None, _) => true
    case (Some(_), None) => false
    case (Some(x), Some(y)) => StringLessEq(x, y)
  }

  lemma {:induction false} StringLessEqReflexive(a: string)
    ensures StringLessEq(a, a)
  {
    if |a| > 0 {
      StringLessEqReflexive(a[1..]);
    }
  }

  lemma {:induction false} StringLessEqTotal(a: string, b: string)
    ensures StringLessEq(a, b) || StringLessEq(b, a)
  {
    if |a| > 0 && |b| > 0 && a[0] == b[0] {
      StringLessEqTotal(a[1..], b[1..]);
    }
  }

  lemma {:induction false} StringLessEqAntisymmetric(a: string, b: string)
    requires StringLessEq(a, b) && StringLessEq(b, a)
    ensures a == b
  {
    if |a| > 0 && |b| > 0 {
      StringLessEqAntisymmetric(a[1..], b[1..]);
      assert a == [a[0]] + a[1..] && b == [b[0]] + b[1..];
    }
  }

  lemma {:induction false} StringLessEqTransitive(a: string, b: string, c: string)
    requires StringLessEq(a, b) && StringLessEq(b, c)
    ensures StringLessEq(a, c)
  {
    if |a| > 0 && |b| > 0 && |c| > 0 && a[0] == b[0] && b[0] == c[0] {
      StringLessEqTransitive(a[1..], b[1..], c[1..]);
    }
  }

  lemma KeyLessEqTotal(a: Key, b: Key)
    ensures KeyLessEq(a, b) || KeyLessEq(b, a)
  {
    if a.Some? && b.Some? {
      StringLessEqTotal(a.value, b.value);
    }
  }

  lemma KeyLessEqAntisymmetric(a: Key, b: Key)
    requires KeyLessEq(a, b) && KeyLessEq(b, a)
    ensures a == b
  {
    if a.Some? && b.Some? {
      StringLessEqAntisymmetric(a.value, b.value);
    }
  }

  lemma KeyLessEqTransitive(a: Key, b: Key, c: Key)
    requires KeyLessEq(a, b) && KeyLessEq(b, c)
    ensures KeyLessEq(a, c)
  {
    if a.Some? && b.Some? && c.Some? {
      StringLessEqTransitive(a.value, b.value, c.value);
    }
  }

  ghost predicate Sorted(s: seq<Key>) {
    forall i, j :: 0 <= i < j < |s| ==> KeyLessEq(s[i], s[j])
  }

  /** Inserts `x` before the first element it precedes. */
  function Insert(x: Key, s: seq<Key>): (r: seq<Key>)
    requires Sorted(s)
    ensures Sorted(r)
    ensures multiset(r) == multiset(s) + multiset{x}
  {
    if |s| == 0 then [x]
    else if KeyLessEq(x, s[0]) then
      assert forall j :: 0 < j < |s| ==> KeyLessEq(x, s[j]) by {
        forall j | 0 < j < |s| ensures KeyLessEq(x, s[j]) {
          KeyLessEqTransitive(x, s[0], s[j]);
        }
      }
      [x] + s
    else
      var rest := Insert(x, s[1..]);
      KeyLessEqTotal(x, s[0]);
      assert forall k :: k in multiset(rest) ==> KeyLessEq(s[0], k) by {
        forall k | k in multiset(rest) ensures KeyLessEq(s[0], k) {
          assert k in multiset(s[1..]) || k == x;
          if k != x {
            var j :| 0 <= j < |s[1..]| && s[1..][j] == k;
            assert s[j + 1] == k;
          }
        }
      }
      assert s == [s[0]] + s[1..];
      SortedCons(s[0], rest);
      [s[0]] + rest
  }

  /** Prepending a lower bound of every element keeps a sequence sorted. */
  lemma SortedCons(x: Key, s: seq<Key>)
    requires Sorted(s)
    requires forall k :: k in multiset(s) ==> KeyLessEq(x, k)
    ensures Sorted([x] + s)
  {
    forall i, j | 0 <= i < j < |[x] + s| ensures KeyLessEq(([x] + s)[i], ([x] + s)[j]) {
      if i == 0 {
        assert s[j - 1] in multiset(s);
      } else {
        assert ([x] + s)[i] == s[i - 1] && ([x] + s)[j] == s[j - 1];
      }
    }
  }

  /** Insertion sort: OrderBy with the key itself as sort key. */
  function Sort(s: seq<Key>): (r: seq<Key>)
    ensures Sorted(r)
    ensures multiset(r) == multiset(s)
  {
    if |s| == 0 then []
    else
      assert s == [s[0]] + s[1..];
      Insert(s[0], Sort(s[1..]))
  }

  /** The head of a non-empty sorted sequence precedes each of its elements. */
  lemma SortedHeadIsLeast(a: seq<Key>, k: Key)
    requires Sorted(a) && k in multiset(a)
    ensures |a| > 0 && KeyLessEq(a[0], k)
  {
    var i :| 0 <= i < |a| && a[i] == k;
    if i == 0 {
      if k.Some? { StringLessEqReflexive(k.value); }
    }
  }

  lemma SortedTail(a: seq<Key>)
    requires Sorted(a) && |a| > 0
    ensures Sorted(a[1..])
  {
    forall i, j | 0 <= i < j < |a[1..]| ensures KeyLessEq(a[1..][i], a[1..][j]) {
      assert a[1..][i] == a[i + 1] && a[1..][j] == a[j + 1];
    }
  }

  lemma MultisetTail(a: seq<Key>)
    requires |a| > 0
    ensures multiset(a[1..]) == multiset(a) - multiset{a[0]}
  {
    assert a == [a[0]] + a[1..];
  }

  /** Two non-empty sorted sequences with the same elements start with the same element. */
  lemma SortedSameHead(a: seq<Key>, b: seq<Key>)
    requires Sorted(a) && Sorted(b)
    requires multiset(a) == multiset(b) && |a| > 0
    ensures |b| > 0 && a[0] == b[0]
  {
    assert a[0] in multiset(a);
    SortedHeadIsLeast(b, a[0]);
    assert b[0] in multiset(b);
    SortedHeadIsLeast(a, b[0]);
    KeyLessEqAntisymmetric(a[0], b[0]);
  }

  /** A sorted sequence is determined by its multiset of elements. */
  lemma {:induction false} SortedUnique(a: seq<Key>, b: seq<Key>)
    requires Sorted(a) && Sorted(b)
    requires multiset(a) == multiset(b)
    ensures a == b
  {
    if |a| == 0 {
      assert |multiset(b)| == 0;
    } else {
      SortedSameHead(a, b);
      MultisetTail(a);
      MultisetTail(b);
      SortedTail(a);
      SortedTail(b);
      SortedUnique(a[1..], b[1..]);
      assert a == [a[0]] + a[1..] && b == [b[0]] + b[1..];
    }
  }

  /** Two sorted sequences are equal exactly when their inputs hold the same elements with the same multiplicities. */
  lemma SortEqualIffSameElements(a: seq<Key>, b: seq<Key>)
    ensures Sort(a) == Sort(b) <==> multiset(a) == multiset(b)
  {
    if multiset(a) == multiset(b) {
      SortedUnique(Sort(a), Sort(b));
    }
  }
}
