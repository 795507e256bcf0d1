/** Strings in lexicographic order, and sets of strings as strictly sorted lists (std::set, std::sort, std::unique). */
module Strings {
  /** Lexicographic order on character codes; a char stands for one byte. */
  predicate Less(a: string, b: string) {
    b != [] && (a == [] || a[0] < b[0] || (a[0] == b[0] && Less(a[1..], b[1..])))
  }

  lemma {:induction false} LessIrreflexive(a: string)
    ensures !Less(a, a)
  {
    if a != [] {
      LessIrreflexive(a[1..]);
    }
  }

  lemma {:induction false} LessTransitive(a: string, b: string, c: string)
    requires Less(a, b) && Less(b, c)
    ensures Less(a, c)
  {
    if a != [] && a[0] == b[0] && b[0] == c[0] {
      LessTransitive(a[1..], b[1..], c[1..]);
    }
  }

  lemma {:induction false} LessTotal(a: string, b: string)
    ensures a == b || Less(a, b) || Less(b, a)
  {
    if a != [] && b != [] && a[0] == b[0] {
      LessTotal(a[1..], b[1..]);
      assert a == [a[0]] + a[1..] && b == [b[0]] + b[1..];
    }
  }

  /** Up to position k the two agree; there the first ends, or has the smaller byte. */
  predicate FirstDifference(a: string, b: string, k: nat) {
    k <= |a| && k < |b| && a[..k] == b[..k] && (k == |a| || a[k] < b[k])
  }

  /** The order compares byte by byte, a proper prefix first. */
  lemma {:induction false} LessIff(a: string, b: string)
    ensures Less(a, b) <==> exists k: nat :: FirstDifference(a, b, k)
  {
    if a != [] && b != [] {
      LessIff(a[1..], b[1..]);
      if a[0] == b[0] && Less(a[1..], b[1..]) {
        var k: nat :| FirstDifference(a[1..], b[1..], k);
        assert a[..k + 1] == [a[0]] + a[1..][..k] && b[..k + 1] == [b[0]] + b[1..][..k];
        assert FirstDifference(a, b, k + 1);
      } else if a[0] < b[0] {
        assert FirstDifference(a, b, 0);
      }
      if k: nat :| FirstDifference(a, b, k) {
        if k > 0 {
          assert a[0] == a[..k][0] == b[..k][0] == b[0];
          assert a[1..][..k - 1] == a[..k][1..] && b[1..][..k - 1] == b[..k][1..];
          assert FirstDifference(a[1..], b[1..], k - 1);
        }
      }
    } else if a == [] && b != [] {
      assert FirstDifference(a, b, 0);
    }
  }

  ghost predicate StrictlySorted(s: seq<string>) {
    forall i, j :: 0 <= i < j < |s| ==> Less(s[i], s[j])
  }

  /** What std::set keeps: one copy of each, in order. */
  function Insert(s: seq<string>, x: string): (r: seq<string>) {
    if s == [] then [x]
    else if s[0] == x then s
    else if Less(x, s[0]) then [x] + s
    else [s[0]] + Insert(s[1..], x)
  }

  function SortedSet(xs: seq<string>): seq<string> {
    if xs == [] then [] else Insert(SortedSet(xs[..|xs| - 1]), xs[|xs| - 1])
  }

  lemma {:induction false} InsertMembers(s: seq<string>, x: string, y: string)
    ensures y in Insert(s, x) <==> y in s || y == x
  {
    if s != [] && s[0] != x && !Less(x, s[0]) {
      InsertMembers(s[1..], x, y);
      assert s == [s[0]] + s[1..];
    }
  }

  lemma {:induction false} InsertSorted(s: seq<string>, x: string)
    requires StrictlySorted(s)
    ensures StrictlySorted(Insert(s, x))
  {
    if s == [] || s[0] == x {
    } else if Less(x, s[0]) {
      forall j | 0 < j < |s|
        ensures Less(x, s[j])
      {
        LessTransitive(x, s[0], s[j]);
      }
    } else {
      LessTotal(x, s[0]);
      InsertSorted(s[1..], x);
      var r := Insert(s[1..], x);
      forall j | 0 <= j < |r|
        ensures Less(s[0], r[j])
      {
        InsertMembers(s[1..], x, r[j]);
        assert r[j] in r;
      }
    }
  }

  lemma {:induction false} SortedSetIs(xs: seq<string>)
    ensures StrictlySorted(SortedSet(xs))
    ensures forall y :: y in SortedSet(xs) <==> y in xs
  {
    if xs != [] {
      var n := |xs| - 1;
      SortedSetIs(xs[..n]);
      InsertSorted(SortedSet(xs[..n]), xs[n]);
      forall y
        ensures y in SortedSet(xs) <==> y in xs
      {
        InsertMembers(SortedSet(xs[..n]), xs[n], y);
        assert xs == xs[..n] + [xs[n]];
      }
    }
  }

  /** A strictly sorted list is determined by its members. */
  lemma {:induction false} SortedUnique(a: seq<string>, b: seq<string>)
    requires StrictlySorted(a) && StrictlySorted(b)
    requires forall y :: y in a <==> y in b
    ensures a == b
  {
    if a == [] {
      assert forall i :: 0 <= i < |b| ==> b[i] in b;
    } else {
      assert a[0] in a && b != [] by {
        assert a[0] in a;
        assert a[0] in b;
      }
      HeadsAgree(a, b);
      forall y
        ensures y in a[1..] <==> y in b[1..]
      {
        TailMembers(a, y);
        TailMembers(b, y);
      }
      SortedUnique(a[1..], b[1..]);
      assert a == [a[0]] + a[1..] && b == [b[0]] + b[1..];
    }
  }

  lemma HeadsAgree(a: seq<string>, b: seq<string>)
    requires a != [] && b != [] && StrictlySorted(a) && StrictlySorted(b)
    requires a[0] in b && b[0] in a
    ensures a[0] == b[0]
  {
    if a[0] != b[0] {
      assert Less(b[0], a[0]) && Less(a[0], b[0]);
      LessTransitive(a[0], b[0], a[0]);
      LessIrreflexive(a[0]);
    }
  }

  lemma TailMembers(a: seq<string>, y: string)
    requires a != [] && StrictlySorted(a)
    ensures y in a[1..] <==> y in a && y != a[0]
  {
    assert a == [a[0]] + a[1..];
    if a[0] in a[1..] {
      LessIrreflexive(a[0]);
    }
  }

  lemma SortedSetFixed(s: seq<string>)
    requires StrictlySorted(s)
    ensures SortedSet(s) == s
  {
    SortedSetIs(s);
    SortedUnique(SortedSet(s), s);
  }

  // ---------- sort and unique, as run ----------

  ghost predicate Sorted(s: seq<string>) {
    forall i, j :: 0 <= i < j < |s| ==> s[i] == s[j] || Less(s[i], s[j])
  }

  /** std::sort. */
  method Sort(xs: seq<string>) returns (s: seq<string>)
    ensures multiset(s) == multiset(xs) && Sorted(s)
  {
    hide Sorted;
    s := [];
    EmptySorted();
    for i := 0 to |xs|
      invariant multiset(s) == multiset(xs[..i]) && Sorted(s)
    {
      s := Place(s, xs[i]);
      assert xs[..i + 1] == xs[..i] + [xs[i]];
    }
    assert xs[..|xs|] == xs;
  }

  lemma EmptySorted()
    ensures Sorted([])
  {
  }

  method Place(s: seq<string>, x: string) returns (r: seq<string>)
    requires Sorted(s)
    ensures multiset(r) == multiset(s) + multiset{x} && Sorted(r)
  {
    hide Less, Sorted;
    var k := |s|;
    while k > 0 && Less(x, s[k - 1])
      invariant 0 <= k <= |s|
      invariant forall j :: k <= j < |s| ==> Less(x, s[j])
    {
      k := k - 1;
    }
    PlaceSorted(s, k, x);
    assert s == s[..k] + s[k..];
    r := s[..k] + [x] + s[k..];
  }

  lemma PlaceSorted(s: seq<string>, k: nat, x: string)
    requires Sorted(s) && k <= |s|
    requires forall j :: k <= j < |s| ==> Less(x, s[j])
    requires k > 0 ==> !Less(x, s[k - 1])
    ensures Sorted(s[..k] + [x] + s[k..])
  {
    forall j | 0 <= j < k
      ensures s[j] == x || Less(s[j], x)
    {
      LessTotal(s[k - 1], x);
      if j < k - 1 && s[j] != s[k - 1] && s[k - 1] != x {
        LessTransitive(s[j], s[k - 1], x);
      }
    }
  }

  /** std::unique on a sorted list. */
  method Unique(s: seq<string>) returns (r: seq<string>)
    requires Sorted(s)
    ensures StrictlySorted(r) && forall y :: y in r <==> y in s
  {
    r := [];
    for i := 0 to |s|
      invariant StrictlySorted(r) && forall y :: y in r <==> y in s[..i]
      invariant r == [] <==> i == 0
      invariant i > 0 ==> r[|r| - 1] == s[i - 1]
    {
      if r == [] || r[|r| - 1] != s[i] {
        ghost var last := r;
        forall j | 0 <= j < |r|
          ensures Less(r[j], s[i])
        {
          if j < |r| - 1 {
            LessTransitive(r[j], r[|r| - 1], s[i]);
          }
        }
        r := r + [s[i]];
      }
    }
  }
}
