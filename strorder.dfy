/**
  The byte-wise string order the directory scanner sorts with (q_cmp, which
  is strcmp), and the sort it hands the collected names to.

  Names are C strings: the comparison stops at the end of either string or at
  a NUL character, exactly as strcmp does, and compares characters as
  unsigned codes.
 */
module StrOrder {

  /** Code of the first character, 0 for the terminating NUL of an exhausted string. */
  function Head(s: string): (c: int)
    ensures c >= 0
    ensures c == 0 <==> s == [] || s[0] == '\0'
  {
    if s == [] then 0 else s[0] as int
  }

  /** strcmp: the difference of the first differing characters, 0 if equal up to the terminator. */
  function StrCmp(s1: string, s2: string): (r: int)
    ensures Head(s1) < Head(s2) ==> r < 0
    ensures Head(s1) > Head(s2) ==> r > 0
    ensures s1 == s2 ==> r == 0
    decreases |s1|
  {
    if Head(s1) != Head(s2) || Head(s1) == 0 then Head(s1) - Head(s2)
    else StrCmp(s1[1..], s2[1..])
  }

  /** A common NUL-free prefix is skipped: the comparison is decided by what follows it. */
  lemma {:induction false} StrCmpCommonPrefix(p: string, s1: string, s2: string)
    requires NoNul(p)
    ensures StrCmp(p + s1, p + s2) == StrCmp(s1, s2)
    decreases |p|
  {
    if p != [] {
      assert (p + s1)[1..] == p[1..] + s1;
      assert (p + s2)[1..] == p[1..] + s2;
      assert Head(p + s1) == Head(p + s2) == p[0] as int != 0;
      StrCmpCommonPrefix(p[1..], s1, s2);
    } else {
      assert p + s1 == s1 && p + s2 == s2;
    }
  }

  /** The order q_cmp induces: s1 sorts no later than s2. */
  predicate Le(s1: string, s2: string) {
    StrCmp(s1, s2) <= 0
  }

  /** A string with no embedded NUL, i.e. one C sees in full. */
  predicate NoNul(s: string) {
    forall i :: 0 <= i < |s| ==> s[i] != '\0'
  }

  lemma {:induction false} StrCmpAntisymmetric(s1: string, s2: string)
    ensures StrCmp(s1, s2) == -StrCmp(s2, s1)
    decreases |s1|
  {
    if Head(s1) != Head(s2) || Head(s1) == 0 {
    } else {
      StrCmpAntisymmetric(s1[1..], s2[1..]);
    }
  }

  /** Any two names are comparable. */
  lemma LeTotal(s1: string, s2: string)
    ensures Le(s1, s2) || Le(s2, s1)
  {
    StrCmpAntisymmetric(s1, s2);
  }

  lemma LeReflexive(s: string)
    ensures Le(s, s)
  {
    StrCmpAntisymmetric(s, s);
  }

  lemma {:induction false} LeTransitive(a: string, b: string, c: string)
    requires Le(a, b) && Le(b, c)
    ensures Le(a, c)
    decreases |a|
  {
    if Head(a) != Head(b) || Head(a) == 0 {
      if Head(b) != Head(c) || Head(b) == 0 {
      } else {
      }
    } else if Head(b) != Head(c) || Head(b) == 0 {
    } else {
      LeTransitive(a[1..], b[1..], c[1..]);
    }
  }

  /** On C strings strcmp reports 0 only for identical strings. */
  lemma {:induction false} StrCmpZeroIsEqual(s1: string, s2: string)
    requires NoNul(s1) && NoNul(s2)
    requires StrCmp(s1, s2) == 0
    ensures s1 == s2
    decreases |s1|
  {
    if Head(s1) != Head(s2) || Head(s1) == 0 {
      assert s1 == [] && s2 == [];
    } else {
      assert NoNul(s1[1..]) && NoNul(s2[1..]);
      StrCmpZeroIsEqual(s1[1..], s2[1..]);
    }
  }

  /** Ascending order under q_cmp. */
  predicate Sorted(s: seq<string>) {
    forall i, j :: 0 <= i < j < |s| ==> Le(s[i], s[j])
  }

  /** Inserts x before the first element it sorts no later than. */
  function Insert(x: string, s: seq<string>): (r: seq<string>)
    requires Sorted(s)
    ensures multiset(r) == multiset(s) + multiset{x}
    ensures Sorted(r)
  {
    if s == [] then [x]
    else if Le(x, s[0]) then
      assert forall j :: 0 < j < |s| ==> Le(x, s[j]) by {
        forall j | 0 < j < |s| ensures Le(x, s[j]) { LeTransitive(x, s[0], s[j]); }
      }
      [x] + s
    else
      var t := Insert(x, s[1..]);
      assert s == [s[0]] + s[1..];
      LeTotal(x, s[0]);
      assert forall y :: y in multiset(t) ==> Le(s[0], y) by {
        forall y | y in multiset(t) ensures Le(s[0], y) {
          assert y in multiset(s[1..]) || y == x;
          if y != x {
            var j :| 0 <= j < |s[1..]| && s[1..][j] == y;
            assert s[j + 1] == y;
          }
        }
      }
      assert forall j :: 0 <= j < |t| ==> Le(s[0], t[j]) by {
        forall j | 0 <= j < |t| ensures Le(s[0], t[j]) { assert t[j] in multiset(t); }
      }
      [s[0]] + t
  }

  /**
    The sort applied to the collected names (qsort with q_cmp): the result is
    ascending and a permutation of the input.
   */
  function SortNames(s: seq<string>): (r: seq<string>)
    ensures Sorted(r)
    ensures multiset(r) == multiset(s)
    ensures |r| == |s|
  {
    if s == [] then []
    else
      assert s == [s[0]] + s[1..];
      Insert(s[0], SortNames(s[1..]))
  }

  /** A sorted C string sequence has its minimum at the front. */
  lemma SortedHeadIsMinimum(a: seq<string>, y: string)
    requires Sorted(a) && a != []
    requires y in multiset(a)
    ensures Le(a[0], y)
  {
    var j :| 0 <= j < |a| && a[j] == y;
    if j == 0 { LeReflexive(y); }
  }

  /** Removing equal heads from two permutations of each other leaves permutations. */
  lemma SameHeadSameTail(a: seq<string>, b: seq<string>)
    requires a != [] && b != [] && a[0] == b[0]
    requires multiset(a) == multiset(b)
    ensures multiset(a[1..]) == multiset(b[1..])
  {
    assert a == [a[0]] + a[1..] && b == [b[0]] + b[1..];
    assert multiset(a[1..]) == multiset(a) - multiset{a[0]};
    assert multiset(b[1..]) == multiset(b) - multiset{a[0]};
  }

  /**
    The ascending order of a collection of C strings is unique, so any
    correct sort (qsort is not stable) yields the same sequence.
   */
  lemma {:induction false} SortedPermutationUnique(a: seq<string>, b: seq<string>)
    requires Sorted(a) && Sorted(b)
    requires multiset(a) == multiset(b)
    requires forall i :: 0 <= i < |a| ==> NoNul(a[i])
    ensures a == b
    decreases |a|
  {
    if a == [] {
      assert |b| == |multiset(b)| == 0;
    } else {
      assert |b| == |multiset(b)| == |multiset(a)| == |a|;
      assert a[0] in multiset(b) && b[0] in multiset(a);
      SortedHeadIsMinimum(a, b[0]);
      SortedHeadIsMinimum(b, a[0]);
      assert NoNul(b[0]) by {
        var j :| 0 <= j < |a| && a[j] == b[0];
      }
      StrCmpAntisymmetric(a[0], b[0]);
      StrCmpZeroIsEqual(a[0], b[0]);
      SameHeadSameTail(a, b);
      assert forall i :: 0 <= i < |a[1..]| ==> NoNul(a[1..][i]) by {
        forall i | 0 <= i < |a[1..]| ensures NoNul(a[1..][i]) { assert a[1..][i] == a[i + 1]; }
      }
      SortedPermutationUnique(a[1..], b[1..]);
    }
  }
}
