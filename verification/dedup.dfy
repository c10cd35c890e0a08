/** `removeDuplicates` and the number merge built on it: keep the first occurrence of every
    element, in input order. */
module Dedup {

  predicate NoDups(s: seq<string>) {
    forall i, j :: 0 <= i < j < |s| ==> s[i] != s[j]
  }

  /** The position where `x` first occurs in `s`. */
  function FirstIndex(s: seq<string>, x: string): (k: nat)
    requires x in s
    ensures k < |s| && s[k] == x && x !in s[..k]
  {
    var n := |s| - 1;
    if x in s[..n] then
      var k := FirstIndex(s[..n], x);
      assert s[..n][..k] == s[..k];
      k
    else
      assert s[..n] == s[..|s| - 1];
      n
  }

  /** The first occurrence of each element, in order: the loop of `removeDuplicates` read
      one appended element at a time. */
  function RemoveDuplicates(s: seq<string>): (r: seq<string>)
    ensures NoDups(r)
    ensures forall x :: x in r <==> x in s
    ensures |r| <= |s|
  {
    if s == [] then []
    else
      var n := |s| - 1;
      assert s == s[..n] + [s[n]];
      var p := RemoveDuplicates(s[..n]);
      if s[n] in p then p else p + [s[n]]
  }

  /** The loop as `removeDuplicates` writes it: a presence map plus an output list. */
  method RemoveDuplicatesLoop(arr: seq<string>) returns (list: seq<string>)
    ensures NoDups(list) && forall x :: x in list <==> x in arr
    ensures list == RemoveDuplicates(arr)
  {
    var keys: map<string, bool> := map[];
    list := [];
    for i := 0 to |arr|
      invariant list == RemoveDuplicates(arr[..i])
      invariant forall x :: x in keys <==> x in list
    {
      var entry := arr[i];
      assert arr[..i + 1] == arr[..i] + [entry];
      if entry !in keys {
        keys := keys[entry := true];
        list := list + [entry];
      }
    }
    assert arr[..|arr|] == arr;
  }

  /** Every element of `r` occurs in `s`, and `r` lists them by ascending first occurrence. */
  predicate FirstSeenOrdered(s: seq<string>, r: seq<string>) {
    && (forall x :: x in r ==> x in s)
    && forall i, j :: 0 <= i < j < |r| ==> FirstIndex(s, r[i]) < FirstIndex(s, r[j])
  }

  /** Distinct output elements appear in the order of their first occurrence in the input. */
  lemma {:induction false} FirstSeenOrder(s: seq<string>)
    ensures FirstSeenOrdered(s, RemoveDuplicates(s))
  {
    if s != [] {
      var n := |s| - 1;
      var p := RemoveDuplicates(s[..n]);
      var r := RemoveDuplicates(s);
      FirstSeenOrder(s[..n]);
      forall x | x in p
        ensures FirstIndex(s, x) == FirstIndex(s[..n], x) < n
      {
      }
      if s[n] !in p {
        assert FirstIndex(s, s[n]) == n;
      }
      forall i, j | 0 <= i < j < |r|
        ensures FirstIndex(s, r[i]) < FirstIndex(s, r[j])
      {
        assert r[i] == p[i] && r[i] in p;
        if j < |p| {
          assert r[j] == p[j] && r[j] in p;
          assert FirstSeenOrdered(s[..n], p);
        } else {
          assert r == p + [s[n]] && r[j] == s[n];
        }
      }
    }
  }

  /** The output is completely determined by these properties: any duplicate-free sequence
      with the input's elements, in first-occurrence order, IS the output. */
  lemma Characterization(s: seq<string>, r: seq<string>)
    requires NoDups(r)
    requires forall x :: x in r <==> x in s
    requires FirstSeenOrdered(s, r)
    ensures r == RemoveDuplicates(s)
  {
    FirstSeenOrder(s);
    OrderedByKeyUnique(s, r, RemoveDuplicates(s));
  }

  lemma {:induction false} OrderedByKeyUnique(s: seq<string>, a: seq<string>, b: seq<string>)
    requires forall x :: x in a <==> x in b
    requires NoDups(a) && NoDups(b)
    requires FirstSeenOrdered(s, a) && FirstSeenOrdered(s, b)
    ensures a == b
    decreases |a|
  {
    if a == [] {
      HeadIsElement(b);
    } else {
      HeadIsElement(a);
      HeadIsElement(b);
      SameHead(s, a, b);
      SameTailElements(a, b);
      TailOrdered(s, a);
      TailOrdered(s, b);
      OrderedByKeyUnique(s, a[1..], b[1..]);
      assert a == [a[0]] + a[1..] && b == [b[0]] + b[1..];
    }
  }

  /** Two first-seen orderings of the same elements start with the same element. */
  lemma SameHead(s: seq<string>, a: seq<string>, b: seq<string>)
    requires |a| > 0 && |b| > 0
    requires a[0] in b && b[0] in a
    requires FirstSeenOrdered(s, a) && FirstSeenOrdered(s, b)
    ensures a[0] == b[0]
  {
    HeadSeenFirst(s, a, b[0]);
    HeadSeenFirst(s, b, a[0]);
  }

  /** In a first-seen ordering, the head was seen no later than any element. */
  lemma HeadSeenFirst(s: seq<string>, a: seq<string>, x: string)
    requires FirstSeenOrdered(s, a) && x in a
    ensures FirstIndex(s, a[0]) <= FirstIndex(s, x)
  {
    var h :| 0 <= h < |a| && a[h] == x;
    if h > 0 {
      assert FirstIndex(s, a[0]) < FirstIndex(s, a[h]);
    }
  }

  lemma TailOrdered(s: seq<string>, a: seq<string>)
    requires |a| > 0 && NoDups(a) && FirstSeenOrdered(s, a)
    ensures NoDups(a[1..]) && FirstSeenOrdered(s, a[1..])
  {
    forall i, j | 0 <= i < j < |a| - 1
      ensures FirstIndex(s, a[1..][i]) < FirstIndex(s, a[1..][j])
    {
      assert a[1..][i] == a[i + 1] && a[1..][j] == a[j + 1];
    }
  }

  /** Dropping a shared, unrepeated head leaves the same elements. */
  lemma SameTailElements(a: seq<string>, b: seq<string>)
    requires |a| > 0 && |b| > 0 && a[0] == b[0]
    requires forall x :: x in a <==> x in b
    requires NoDups(a) && NoDups(b)
    ensures forall x :: x in a[1..] <==> x in b[1..]
  {
    forall x
      ensures x in a[1..] <==> x in b[1..]
    {
      if x in a[1..] {
        var i :| 1 <= i < |a| && a[i] == x;
        assert x != a[0];
        assert x in b;
      }
      if x in b[1..] {
        var i :| 1 <= i < |b| && b[i] == x;
        assert x != b[0];
        assert x in a;
      }
    }
  }

  lemma HeadIsElement(b: seq<string>)
    ensures |b| > 0 ==> b[0] in b
  {
  }

  /** A duplicate-free input passes through unchanged. */
  lemma {:induction false} NoDupsFixed(s: seq<string>)
    requires NoDups(s)
    ensures RemoveDuplicates(s) == s
  {
    if s != [] {
      var n := |s| - 1;
      NoDupsFixed(s[..n]);
      assert s == s[..n] + [s[n]];
    }
  }

  /** Deduplicating twice is the same as deduplicating once. */
  lemma Idempotent(s: seq<string>)
    ensures RemoveDuplicates(RemoveDuplicates(s)) == RemoveDuplicates(s)
  {
    NoDupsFixed(RemoveDuplicates(s));
  }

  /** Appending input only appends output: the result for `a` is a prefix of the result
      for `a + b`. */
  lemma {:induction false} PrefixStable(a: seq<string>, b: seq<string>)
    ensures var r := RemoveDuplicates(a + b);
      |RemoveDuplicates(a)| <= |r| && r[..|RemoveDuplicates(a)|] == RemoveDuplicates(a)
    decreases |b|
  {
    if b != [] {
      var n := |b| - 1;
      PrefixStable(a, b[..n]);
      assert (a + b)[..|a + b| - 1] == a + b[..n];
    } else {
      assert a + b == a;
    }
  }

  /** `removeDuplicates(append(first, second...))`: the merged identifier list of a report
      category fed by two sources. */
  function MergeNumbers(first: seq<string>, second: seq<string>): (r: seq<string>)
    ensures NoDups(r)
    ensures forall x :: x in r <==> x in first || x in second
    ensures NoDups(first) ==> |first| <= |r| && r[..|first|] == first
  {
    PrefixStable(first, second);
    assert NoDups(first) ==> RemoveDuplicates(first) == first by {
      if NoDups(first) {
        NoDupsFixed(first);
      }
    }
    RemoveDuplicates(first + second)
  }

  /** Appending elements already present changes nothing. */
  lemma {:induction false} AbsorbKnown(s: seq<string>, t: seq<string>)
    requires NoDups(s)
    requires forall x :: x in t ==> x in s
    ensures RemoveDuplicates(s + t) == s
    decreases |t|
  {
    if t == [] {
      assert s + t == s;
      NoDupsFixed(s);
    } else {
      var n := |t| - 1;
      AbsorbKnown(s, t[..n]);
      assert (s + t)[..|s + t| - 1] == s + t[..n];
      assert t[n] in t;
    }
  }

  /** Merging a list with itself adds nothing. */
  lemma MergeSelf(s: seq<string>)
    requires NoDups(s)
    ensures MergeNumbers(s, s) == s
  {
    AbsorbKnown(s, s);
  }
}
