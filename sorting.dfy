/**
 * `Array.prototype.filter` and a stable `Array.prototype.sort` driven by the
 * listing's three-way comparator, over sequences.
 */
module Sorting {
  import opened Text

  // ---------------------------------------------------------------------------
  // filter
  // ---------------------------------------------------------------------------

  /** `s.filter(keep)`: the elements satisfying `keep`, in their original order. */
  function Keep<T>(s: seq<T>, keep: T -> bool): (r: seq<T>)
    ensures |r| <= |s|
    ensures forall i :: 0 <= i < |r| ==> keep(r[i])
  {
    if s == [] then [] else (if keep(s[0]) then [s[0]] else []) + Keep(s[1..], keep)
  }

  /** `a` can be obtained from `b` by deleting elements: relative order is kept. */
  ghost predicate IsSubsequence<T>(a: seq<T>, b: seq<T>)
    decreases |b|
  {
    if a == [] then true
    else if b == [] then false
    else if a[0] == b[0] then IsSubsequence(a[1..], b[1..])
    else IsSubsequence(a, b[1..])
  }

  lemma {:induction false} SubsequenceOfSelf<T>(s: seq<T>)
    ensures IsSubsequence(s, s)
  {
    if s != [] {
      SubsequenceOfSelf(s[1..]);
    }
  }

  /** Dropping the first element of a subsequence leaves a subsequence. */
  lemma {:induction false} SubsequenceDropHead<T>(a: seq<T>, b: seq<T>)
    requires a != [] && IsSubsequence(a, b)
    ensures IsSubsequence(a[1..], b)
    decreases |b|, 1
  {
    if a[0] == b[0] {
      if a[1..] != [] {
        SubsequenceDropHead(a[1..], b[1..]);
        SubsequenceSkip(a[1..], b);
      }
    } else {
      SubsequenceDropHead(a, b[1..]);
      if a[1..] != [] {
        SubsequenceSkip(a[1..], b);
      }
    }
  }

  /** A subsequence of the tail of `b` is a subsequence of `b`. */
  lemma {:induction false} SubsequenceSkip<T>(a: seq<T>, b: seq<T>)
    requires b != [] && IsSubsequence(a, b[1..])
    ensures IsSubsequence(a, b)
    decreases |b|, 0
  {
    if a != [] && a[0] == b[0] {
      SubsequenceDropHead(a, b[1..]);
    }
  }

  lemma {:induction false} SubsequenceTransitive<T>(a: seq<T>, b: seq<T>, c: seq<T>)
    requires IsSubsequence(a, b) && IsSubsequence(b, c)
    ensures IsSubsequence(a, c)
    decreases |c|
  {
    if a != [] && c != [] {
      if b[0] == c[0] {
        if a[0] == b[0] {
          SubsequenceTransitive(a[1..], b[1..], c[1..]);
        } else {
          SubsequenceTransitive(a, b[1..], c[1..]);
          SubsequenceSkip(a, c);
        }
      } else {
        SubsequenceTransitive(a, b, c[1..]);
        SubsequenceSkip(a, c);
      }
    }
  }

  /** The filter keeps every occurrence of a kept value and none of the others. */
  lemma {:induction false} KeepCounts<T>(s: seq<T>, keep: T -> bool)
    ensures forall x :: multiset(Keep(s, keep))[x] == if keep(x) then multiset(s)[x] else 0
  {
    if s != [] {
      KeepCounts(s[1..], keep);
      assert s == [s[0]] + s[1..];
      assert multiset(s) == multiset{s[0]} + multiset(s[1..]);
    }
  }

  /** An element is kept exactly when it occurs in the input and passes the test. */
  lemma KeepMembers<T>(s: seq<T>, keep: T -> bool)
    ensures forall x :: x in Keep(s, keep) <==> x in s && keep(x)
  {
    KeepCounts(s, keep);
    forall x ensures x in Keep(s, keep) <==> x in s && keep(x) {
      assert x in multiset(Keep(s, keep)) <==> x in Keep(s, keep);
      assert x in multiset(s) <==> x in s;
    }
  }

  /** The filter keeps the relative order of what it keeps. */
  lemma {:induction false} KeepSubsequence<T>(s: seq<T>, keep: T -> bool)
    ensures IsSubsequence(Keep(s, keep), s)
  {
    if s != [] {
      KeepSubsequence(s[1..], keep);
      var r := Keep(s, keep);
      if keep(s[0]) {
        assert r[0] == s[0] && r[1..] == Keep(s[1..], keep);
      } else {
        assert r == Keep(s[1..], keep);
      }
    }
  }

  /**
   * Together: the filter keeps every occurrence of a kept value, no other
   * value, and keeps them in order; these determine the result exactly.
   */
  lemma KeepExactly<T>(s: seq<T>, keep: T -> bool)
    ensures forall x :: multiset(Keep(s, keep))[x] == if keep(x) then multiset(s)[x] else 0
    ensures forall x :: x in Keep(s, keep) <==> x in s && keep(x)
    ensures IsSubsequence(Keep(s, keep), s)
  {
    KeepCounts(s, keep);
    KeepMembers(s, keep);
    KeepSubsequence(s, keep);
  }

  // ---------------------------------------------------------------------------
  // Sort keys and the three-way comparator
  // ---------------------------------------------------------------------------

  /** A sort key: a number (a price) or a string (a lower-cased title, a category). */
  datatype Key = Num(n: real) | Str(s: string)

  /**
   * The `<` the comparator applies to two keys. Keys drawn from one field
   * always share a constructor; ordering numbers before strings only makes
   * the relation total.
   */
  predicate KeyLess(a: Key, b: Key)
  {
    match (a, b)
    case (Num(x), Num(y)) => x < y
    case (Str(x), Str(y)) => StrLess(x, y)
    case (Num(_), Str(_)) => true
    case (Str(_), Num(_)) => false
  }

  lemma KeyLessIrreflexive(a: Key)
    ensures !KeyLess(a, a)
  {
    if a.Str? {
      StrLessIrreflexive(a.s);
    }
  }

  lemma KeyLessTransitive(a: Key, b: Key, c: Key)
    requires KeyLess(a, b) && KeyLess(b, c)
    ensures KeyLess(a, c)
  {
    if a.Str? && b.Str? && c.Str? {
      StrLessTransitive(a.s, b.s, c.s);
    }
  }

  lemma KeyLessTotal(a: Key, b: Key)
    ensures a == b || KeyLess(a, b) || KeyLess(b, a)
  {
    if a.Str? && b.Str? {
      StrLessTotal(a.s, b.s);
    }
  }

  datatype SortOrder = Asc | Desc

  /**
   * The comparator: −1 when `a` goes first, 1 when `b` goes first, 0 on a tie.
   * For a descending order both non-zero answers are multiplied by −1.
   */
  function Compare(a: Key, b: Key, order: SortOrder): int
  {
    var multiplier := if order == Asc then 1 else -1;
    if KeyLess(a, b) then -1 * multiplier
    else if KeyLess(b, a) then 1 * multiplier
    else 0
  }

  /** The comparator reports a tie exactly on equal keys, in either order. */
  lemma CompareZeroIffEqual(a: Key, b: Key, order: SortOrder)
    ensures Compare(a, b, order) == 0 <==> a == b
  {
    KeyLessTotal(a, b);
    KeyLessIrreflexive(a);
  }

  lemma CompareAntisymmetric(a: Key, b: Key, order: SortOrder)
    ensures Compare(b, a, order) == -Compare(a, b, order)
  {
    if KeyLess(a, b) && KeyLess(b, a) {
      KeyLessTransitive(a, b, a);
      KeyLessIrreflexive(a);
    }
  }

  /** "Not after" is transitive, and stays strict when either step is strict. */
  lemma CompareTransitive(a: Key, b: Key, c: Key, order: SortOrder)
    requires Compare(a, b, order) <= 0 && Compare(b, c, order) <= 0
    ensures Compare(a, c, order) <= 0
    ensures Compare(a, b, order) < 0 || Compare(b, c, order) < 0 ==> Compare(a, c, order) < 0
  {
    KeyLessIrreflexive(a);
    KeyLessIrreflexive(b);
    KeyLessTotal(a, b);
    KeyLessTotal(b, c);
    KeyLessTotal(a, c);
    CompareAntisymmetric(a, b, order);
    CompareAntisymmetric(b, c, order);
    CompareAntisymmetric(a, c, order);
    if KeyLess(a, b) && KeyLess(b, c) { KeyLessTransitive(a, b, c); }
    if KeyLess(b, a) && KeyLess(c, b) { KeyLessTransitive(c, b, a); }
    if KeyLess(a, c) && KeyLess(c, a) { KeyLessTransitive(a, c, a); }
    if KeyLess(a, b) && KeyLess(c, a) { KeyLessTransitive(c, a, b); }
    if KeyLess(c, b) && KeyLess(b, a) { KeyLessTransitive(c, b, a); }
    if KeyLess(b, c) && KeyLess(a, b) { KeyLessTransitive(a, b, c); }
  }

  // ---------------------------------------------------------------------------
  // Stable sort
  // ---------------------------------------------------------------------------

  /** `s` is ordered by the comparator: no element is reported to belong after a later one. */
  ghost predicate SortedBy<T>(s: seq<T>, key: T -> Key, order: SortOrder)
  {
    forall i, j :: 0 <= i < j < |s| ==> Compare(key(s[i]), key(s[j]), order) <= 0
  }

  /** The elements of `s` whose key is `k`, in order: the ties a stable sort must not reorder. */
  function WithKey<T>(s: seq<T>, key: T -> Key, k: Key): seq<T>
  {
    if s == [] then [] else (if key(s[0]) == k then [s[0]] else []) + WithKey(s[1..], key, k)
  }

  lemma WithKeyCons<T>(y: T, s: seq<T>, key: T -> Key, k: Key)
    ensures WithKey([y] + s, key, k) == (if key(y) == k then [y] else []) + WithKey(s, key, k)
  {
    assert ([y] + s)[0] == y && ([y] + s)[1..] == s;
  }

  lemma {:induction false} WithKeyConcat<T>(a: seq<T>, b: seq<T>, key: T -> Key, k: Key)
    ensures WithKey(a + b, key, k) == WithKey(a, key, k) + WithKey(b, key, k)
  {
    if a != [] {
      var head := if key(a[0]) == k then [a[0]] else [];
      assert a + b == [a[0]] + (a[1..] + b);
      WithKeyCons(a[0], a[1..] + b, key, k);
      WithKeyConcat(a[1..], b, key, k);
      assert WithKey(a, key, k) == head + WithKey(a[1..], key, k);
      assert WithKey(a + b, key, k) == head + (WithKey(a[1..], key, k) + WithKey(b, key, k));
    } else {
      assert a + b == b;
    }
  }

  /** Places `x` before the first element of `s` the comparator puts after it. */
  function Insert<T>(x: T, s: seq<T>, key: T -> Key, order: SortOrder): (r: seq<T>)
    ensures |r| == |s| + 1
  {
    if s == [] then [x]
    else if Compare(key(s[0]), key(x), order) > 0 then [x] + s
    else [s[0]] + Insert(x, s[1..], key, order)
  }

  lemma {:induction false} InsertPermutes<T>(x: T, s: seq<T>, key: T -> Key, order: SortOrder)
    ensures multiset(Insert(x, s, key, order)) == multiset(s) + multiset{x}
  {
    if s != [] && Compare(key(s[0]), key(x), order) <= 0 {
      InsertPermutes(x, s[1..], key, order);
      assert s == [s[0]] + s[1..];
    }
  }

  /**
   * `[...s].sort(comparator)` for a comparator built from `key` and `order`:
   * the elements are inserted one at a time, from first to last.
   */
  function SortBy<T>(s: seq<T>, key: T -> Key, order: SortOrder): seq<T>
    decreases |s|
  {
    if s == [] then [] else Insert(s[|s| - 1], SortBy(s[..|s| - 1], key, order), key, order)
  }

  lemma {:induction false} InsertSorted<T>(x: T, s: seq<T>, key: T -> Key, order: SortOrder)
    requires SortedBy(s, key, order)
    ensures SortedBy(Insert(x, s, key, order), key, order)
  {
    var r := Insert(x, s, key, order);
    if s == [] {
    } else if Compare(key(s[0]), key(x), order) > 0 {
      CompareAntisymmetric(key(s[0]), key(x), order);
      forall i, j | 0 <= i < j < |r| ensures Compare(key(r[i]), key(r[j]), order) <= 0 {
        if i == 0 && j > 1 {
          CompareTransitive(key(x), key(s[0]), key(s[j - 1]), order);
        }
      }
    } else {
      InsertSorted(x, s[1..], key, order);
      var tail := Insert(x, s[1..], key, order);
      InsertPermutes(x, s[1..], key, order);
      forall i, j | 0 <= i < j < |r| ensures Compare(key(r[i]), key(r[j]), order) <= 0 {
        if i == 0 {
          var y := r[j];
          assert y in multiset(tail);
          if y != x {
            assert y in multiset(s[1..]);
            var m :| 0 <= m < |s[1..]| && s[1..][m] == y;
            assert s[m + 1] == y;
          }
        }
      }
    }
  }

  /** When every element of `s` comes strictly after `x`, none shares `x`'s key. */
  lemma {:induction false} NoTieAfter<T>(x: T, s: seq<T>, key: T -> Key, order: SortOrder)
    requires forall i :: 0 <= i < |s| ==> Compare(key(x), key(s[i]), order) < 0
    ensures WithKey(s, key, key(x)) == []
  {
    if s != [] {
      CompareZeroIffEqual(key(x), key(s[0]), order);
      NoTieAfter(x, s[1..], key, order);
    }
  }

  lemma HeadTail<T>(s: seq<T>)
    requires s != []
    ensures s == [s[0]] + s[1..]
  {
  }

  lemma SortedTail<T>(s: seq<T>, key: T -> Key, order: SortOrder)
    requires s != [] && SortedBy(s, key, order)
    ensures SortedBy(s[1..], key, order)
  {
    forall i, j | 0 <= i < j < |s| - 1
      ensures Compare(key(s[1..][i]), key(s[1..][j]), order) <= 0
    {
      assert s[1..][i] == s[i + 1] && s[1..][j] == s[j + 1];
    }
  }

  /** An element the comparator puts before the head of a sorted `s` ties with nothing in `s`. */
  lemma NoTieBeforeHead<T>(x: T, s: seq<T>, key: T -> Key, order: SortOrder)
    requires SortedBy(s, key, order)
    requires s != [] && Compare(key(s[0]), key(x), order) > 0
    ensures WithKey(s, key, key(x)) == []
  {
    CompareAntisymmetric(key(s[0]), key(x), order);
    forall i | 0 <= i < |s| ensures Compare(key(x), key(s[i]), order) < 0 {
      if i > 0 {
        CompareTransitive(key(x), key(s[0]), key(s[i]), order);
      }
    }
    NoTieAfter(x, s, key, order);
  }

  /** Inserting `x` puts it after every element of `s` that ties with it. */
  lemma {:induction false} InsertStable<T>(x: T, s: seq<T>, key: T -> Key, order: SortOrder, k: Key)
    requires SortedBy(s, key, order)
    ensures WithKey(Insert(x, s, key, order), key, k)
         == WithKey(s, key, k) + (if key(x) == k then [x] else [])
  {
    if s == [] {
      WithKeyCons(x, s, key, k);
    } else if Compare(key(s[0]), key(x), order) > 0 {
      WithKeyCons(x, s, key, k);
      if key(x) == k {
        NoTieBeforeHead(x, s, key, order);
      }
    } else {
      SortedTail(s, key, order);
      InsertStable(x, s[1..], key, order, k);
      InsertPastHead(x, s, key, order);
      WithKeyConsStep(s[0], Insert(x, s[1..], key, order), s[1..],
        if key(x) == k then [x] else [], key, k);
      HeadTail(s);
    }
  }

  lemma InsertPastHead<T>(x: T, s: seq<T>, key: T -> Key, order: SortOrder)
    requires s != [] && Compare(key(s[0]), key(x), order) <= 0
    ensures Insert(x, s, key, order) == [s[0]] + Insert(x, s[1..], key, order)
  {
  }

  /** Putting the same element in front of two sequences keeps an equation between their ties. */
  lemma WithKeyConsStep<T>(y: T, a: seq<T>, b: seq<T>, extra: seq<T>, key: T -> Key, k: Key)
    requires WithKey(a, key, k) == WithKey(b, key, k) + extra
    ensures WithKey([y] + a, key, k) == WithKey([y] + b, key, k) + extra
  {
    WithKeyCons(y, a, key, k);
    WithKeyCons(y, b, key, k);
    var head := if key(y) == k then [y] else [];
    assert head + (WithKey(b, key, k) + extra) == (head + WithKey(b, key, k)) + extra;
  }

  /** The sort returns a permutation of its input. */
  lemma {:induction false} SortByPermutes<T>(s: seq<T>, key: T -> Key, order: SortOrder)
    ensures multiset(SortBy(s, key, order)) == multiset(s)
    decreases |s|
  {
    if s != [] {
      SortByPermutes(s[..|s| - 1], key, order);
      InsertPermutes(s[|s| - 1], SortBy(s[..|s| - 1], key, order), key, order);
      assert s == s[..|s| - 1] + [s[|s| - 1]];
    }
  }

  /** The sort's output is ordered by the comparator. */
  lemma {:induction false} SortBySorted<T>(s: seq<T>, key: T -> Key, order: SortOrder)
    ensures SortedBy(SortBy(s, key, order), key, order)
    decreases |s|
  {
    if s != [] {
      SortBySorted(s[..|s| - 1], key, order);
      InsertSorted(s[|s| - 1], SortBy(s[..|s| - 1], key, order), key, order);
    }
  }

  /** The sort is stable: for each key, the elements with that key keep their relative order. */
  lemma {:induction false} SortByStable<T>(s: seq<T>, key: T -> Key, order: SortOrder, k: Key)
    ensures WithKey(SortBy(s, key, order), key, k) == WithKey(s, key, k)
    decreases |s|
  {
    if s != [] {
      var init, last := s[..|s| - 1], s[|s| - 1];
      SortBySorted(init, key, order);
      SortByStable(init, key, order, k);
      InsertStable(last, SortBy(init, key, order), key, order, k);
      assert s == init + [last];
      WithKeyConcat(init, [last], key, k);
      WithKeyCons(last, [], key, k);
      assert [last] + [] == [last];
    }
  }

  /** For an ascending sort no key is smaller than an earlier one; for a descending sort none is larger. */
  lemma SortedByMeaning<T>(s: seq<T>, key: T -> Key, order: SortOrder)
    ensures SortedBy(s, key, order) <==>
      forall i, j :: 0 <= i < j < |s| ==>
        if order == Asc then !KeyLess(key(s[j]), key(s[i])) else !KeyLess(key(s[i]), key(s[j]))
  {
    forall i, j | 0 <= i < j < |s|
      ensures Compare(key(s[i]), key(s[j]), order) <= 0 <==>
        if order == Asc then !KeyLess(key(s[j]), key(s[i])) else !KeyLess(key(s[i]), key(s[j]))
    {
      CompareAntisymmetric(key(s[i]), key(s[j]), order);
    }
  }
}
