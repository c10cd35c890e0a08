/** The final ordering of the report list: `sort.Slice` by branch, then `sort.SliceStable`
    by name within equal branches, which together order the reports by (branch, name). */
module Ordering {

  /** Go's `<` on strings: byte-wise on UTF-8, which orders like the code points. */
  predicate StrLess(a: string, b: string) {
    if a == [] then b != []
    else if b == [] then false
    else if a[0] != b[0] then a[0] < b[0]
    else StrLess(a[1..], b[1..])
  }

  lemma {:induction false} StrLessIrreflexive(a: string)
    ensures !StrLess(a, a)
  {
    if a != [] {
      StrLessIrreflexive(a[1..]);
    }
  }

  lemma {:induction false} StrLessTransitive(a: string, b: string, c: string)
    requires StrLess(a, b) && StrLess(b, c)
    ensures StrLess(a, c)
  {
    if a != [] && b != [] && c != [] && a[0] == b[0] && b[0] == c[0] {
      StrLessTransitive(a[1..], b[1..], c[1..]);
    }
  }

  /** Any two different strings are ordered one way or the other, never both. */
  lemma {:induction false} StrLessTotal(a: string, b: string)
    ensures a == b || StrLess(a, b) || StrLess(b, a)
    ensures !(StrLess(a, b) && StrLess(b, a))
  {
    if a != [] && b != [] && a[0] == b[0] {
      StrLessTotal(a[1..], b[1..]);
      if a[1..] == b[1..] {
        assert a == [a[0]] + a[1..] && b == [b[0]] + b[1..];
      }
    }
  }

  /** What the two sorts compare. */
  datatype SortKey = SortKey(branch: string, name: string)

  /** Branch first; the name only between equal branches. */
  predicate KeyLess(x: SortKey, y: SortKey) {
    StrLess(x.branch, y.branch) || (x.branch == y.branch && StrLess(x.name, y.name))
  }

  predicate KeyLessEq(x: SortKey, y: SortKey) {
    !KeyLess(y, x)
  }

  lemma KeyOrder(x: SortKey, y: SortKey, z: SortKey)
    ensures !KeyLess(x, x)
    ensures KeyLess(x, y) && KeyLess(y, z) ==> KeyLess(x, z)
    ensures x == y || KeyLess(x, y) || KeyLess(y, x)
    ensures !(KeyLess(x, y) && KeyLess(y, x))
  {
    StrLessIrreflexive(x.name);
    StrLessIrreflexive(x.branch);
    StrLessTotal(x.branch, y.branch);
    StrLessTotal(x.name, y.name);
    if KeyLess(x, y) && KeyLess(y, z) {
      if StrLess(x.branch, y.branch) && StrLess(y.branch, z.branch) {
        StrLessTransitive(x.branch, y.branch, z.branch);
      } else if x.branch == y.branch && y.branch == z.branch {
        StrLessTransitive(x.name, y.name, z.name);
      }
    }
  }

  lemma KeyLessEqTransitive(x: SortKey, y: SortKey, z: SortKey)
    requires KeyLessEq(x, y) && KeyLessEq(y, z)
    ensures KeyLessEq(x, z)
  {
    KeyOrder(x, y, z);
    KeyOrder(z, x, y);
    KeyOrder(y, z, x);
  }

  function Keys<T>(s: seq<T>, key: T -> SortKey): (ks: seq<SortKey>)
    ensures |ks| == |s| && forall i :: 0 <= i < |s| ==> ks[i] == key(s[i])
  {
    seq(|s|, i requires 0 <= i < |s| => key(s[i]))
  }

  /** No element's key is below an earlier element's key. */
  predicate Sorted<T>(s: seq<T>, key: T -> SortKey) {
    forall i, j :: 0 <= i < j < |s| ==> KeyLessEq(key(s[i]), key(s[j]))
  }

  /** Put `x` in front of the first element whose key is not below `x`'s key. Elements with
      equal keys keep the order in which they are inserted from the back. */
  function Insert<T>(x: T, s: seq<T>, key: T -> SortKey): (r: seq<T>)
    requires Sorted(s, key)
    ensures Sorted(r, key)
    ensures multiset(r) == multiset(s) + multiset{x}
    ensures |r| == |s| + 1
  {
    if s == [] || KeyLessEq(key(x), key(s[0])) then
      forall y | y in multiset(s)
        ensures KeyLessEq(key(x), key(y))
      {
        var j :| 0 <= j < |s| && s[j] == y;
        if j > 0 {
          KeyLessEqTransitive(key(x), key(s[0]), key(s[j]));
        }
      }
      ConsSorted(x, s, key);
      [x] + s
    else
      var t := Insert(x, s[1..], key);
      KeyOrder(key(x), key(s[0]), key(s[0]));
      forall y | y in multiset(t)
        ensures KeyLessEq(key(s[0]), key(y))
      {
        if y != x {
          assert y in multiset(s[1..]);
          var k :| 0 <= k < |s[1..]| && s[1..][k] == y;
          assert s[k + 1] == y;
        }
      }
      ConsSorted(s[0], t, key);
      assert s == [s[0]] + s[1..];
      [s[0]] + t
  }

  /** A head no greater than any element of a sorted tail makes a sorted list. */
  lemma ConsSorted<T>(h: T, t: seq<T>, key: T -> SortKey)
    requires Sorted(t, key)
    requires forall y :: y in multiset(t) ==> KeyLessEq(key(h), key(y))
    ensures Sorted([h] + t, key)
  {
    var r := [h] + t;
    forall i, j | 0 <= i < j < |r|
      ensures KeyLessEq(key(r[i]), key(r[j]))
    {
      assert r[j] == t[j - 1] && r[j] in multiset(t);
      if i > 0 {
        assert r[i] == t[i - 1];
      }
    }
  }

  /** The report list in (branch, name) order; reports with equal keys stay in list order. */
  function SortReports<T>(s: seq<T>, key: T -> SortKey): (r: seq<T>)
    ensures Sorted(r, key)
    ensures multiset(r) == multiset(s)
    ensures |r| == |s|
  {
    if s == [] then []
    else
      assert s == [s[0]] + s[1..];
      Insert(s[0], SortReports(s[1..], key), key)
  }

  /** Removing one element keeps a list sorted. */
  lemma SortedRemove<T>(b: seq<T>, i: int, key: T -> SortKey)
    requires Sorted(b, key) && 0 <= i < |b|
    ensures Sorted(b[..i] + b[i + 1..], key)
  {
    var rest := b[..i] + b[i + 1..];
    forall p, q | 0 <= p < q < |rest|
      ensures KeyLessEq(key(rest[p]), key(rest[q]))
    {
      var p', q' := if p < i then p else p + 1, if q < i then q else q + 1;
      assert rest[p] == b[p'] && rest[q] == b[q'];
    }
  }

  /** Taking out the element at `i` takes it out of the multiset. */
  lemma MultisetRemove<T>(a: seq<T>, b: seq<T>, i: int)
    requires multiset(a) == multiset(b) && |a| > 0 && 0 <= i < |b| && b[i] == a[0]
    ensures multiset(a[1..]) == multiset(b[..i] + b[i + 1..])
  {
    var rest := b[..i] + b[i + 1..];
    assert b == b[..i] + [b[i]] + b[i + 1..];
    assert multiset(b) == multiset(b[..i]) + multiset([b[i]]) + multiset(b[i + 1..]);
    assert a == [a[0]] + a[1..];
    assert multiset(a) == multiset([a[0]]) + multiset(a[1..]);
    assert multiset(rest) == multiset(b[..i]) + multiset(b[i + 1..]);
    forall y
      ensures multiset(a[1..])[y] == multiset(rest)[y]
    {
      assert multiset(a)[y] == multiset(b)[y];
    }
  }

  /** Two sorted arrangements of the same elements start with the same key, and in the
      second every element up to the first one's head shares that key. */
  lemma SameLeadingKeys<T>(a: seq<T>, b: seq<T>, i: int, key: T -> SortKey)
    requires Sorted(a, key) && Sorted(b, key)
    requires multiset(a) == multiset(b) && |a| > 0 && 0 <= i < |b| && b[i] == a[0]
    ensures forall k :: 0 <= k <= i ==> key(b[k]) == key(a[0])
  {
    assert b[0] in multiset(a);
    var h :| 0 <= h < |a| && a[h] == b[0];
    KeyOrder(key(a[0]), key(b[0]), key(b[0]));
    assert KeyLessEq(key(a[0]), key(a[h]));
    assert KeyLessEq(key(b[0]), key(b[i]));
    forall k | 0 <= k <= i
      ensures key(b[k]) == key(a[0])
    {
      KeyOrder(key(b[0]), key(b[k]), key(b[i]));
    }
  }

  /** The sorted order is determined up to reports with equal keys: any two sorted
      arrangements of the same reports list the same keys. Go's unstable first pass may
      order such reports differently, but the key column of the result is fixed. */
  lemma {:induction false} SortedKeysUnique<T>(a: seq<T>, b: seq<T>, key: T -> SortKey)
    requires Sorted(a, key) && Sorted(b, key)
    requires multiset(a) == multiset(b)
    ensures Keys(a, key) == Keys(b, key)
    decreases |a|
  {
    if a == [] {
      assert |b| == |multiset(b)| == 0;
    } else {
      assert a[0] in multiset(b);
      var i :| 0 <= i < |b| && b[i] == a[0];
      var rest := b[..i] + b[i + 1..];
      SameLeadingKeys(a, b, i, key);
      MultisetRemove(a, b, i);
      SortedRemove(b, i, key);
      SortedKeysUnique(a[1..], rest, key);
      assert |a| == |multiset(a)| == |multiset(b)| == |b|;
      KeysAssemble(a, b, i, key);
    }
  }

  lemma KeysAssemble<T>(a: seq<T>, b: seq<T>, i: int, key: T -> SortKey)
    requires |a| == |b| && 0 <= i < |b|
    requires forall k :: 0 <= k <= i ==> key(b[k]) == key(a[0])
    requires Keys(a[1..], key) == Keys(b[..i] + b[i + 1..], key)
    ensures Keys(a, key) == Keys(b, key)
  {
    var rest := b[..i] + b[i + 1..];
    var ka, kb := Keys(a, key), Keys(b, key);
    forall k | 0 <= k < |ka|
      ensures ka[k] == kb[k]
    {
      if k > 0 {
        assert Keys(a[1..], key)[k - 1] == Keys(rest, key)[k - 1];
        if k <= i {
          assert rest[k - 1] == b[k - 1];
        } else {
          assert rest[k - 1] == b[k];
        }
      }
    }
  }
}
