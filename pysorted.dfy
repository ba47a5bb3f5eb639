/**
 * Python's ordering on `str` (lexicographic by code point, a proper prefix
 * first) and `sorted()` on a list of strings.
 */
module PySorted {

  /** Python's `a <= b` on strings. */
  predicate StrLe(a: string, b: string)
    decreases |a|
  {
    |a| == 0 || (|b| > 0 && (a[0] < b[0] || (a[0] == b[0] && StrLe(a[1..], b[1..]))))
  }

  lemma {:induction false} StrLeTotal(a: string, b: string)
    ensures StrLe(a, b) || StrLe(b, a)
    decreases |a|
  {
    if |a| > 0 && |b| > 0 && a[0] == b[0] {
      StrLeTotal(a[1..], b[1..]);
    }
  }

  lemma {:induction false} StrLeTransitive(a: string, b: string, c: string)
    requires StrLe(a, b) && StrLe(b, c)
    ensures StrLe(a, c)
    decreases |a|
  {
    if |a| > 0 && a[0] == b[0] && b[0] == c[0] {
      StrLeTransitive(a[1..], b[1..], c[1..]);
    }
  }

  lemma {:induction false} StrLeAntisymmetric(a: string, b: string)
    requires StrLe(a, b) && StrLe(b, a)
    ensures a == b
    decreases |a|
  {
    if |a| > 0 {
      StrLeAntisymmetric(a[1..], b[1..]);
      assert a == [a[0]] + a[1..] && b == [b[0]] + b[1..];
    }
  }

  predicate Sorted(s: seq<string>) {
    forall i, j :: 0 <= i < j < |s| ==> StrLe(s[i], s[j])
  }

  lemma SortedTail(s: seq<string>)
    requires Sorted(s) && |s| > 0
    ensures Sorted(s[1..])
  {
    forall i, j | 0 <= i < j < |s| - 1 ensures StrLe(s[1..][i], s[1..][j]) {
      assert s[1..][i] == s[i + 1] && s[1..][j] == s[j + 1];
    }
  }

  /** Insertion of one string into a sorted list, before the first element not below it. */
  function Insert(x: string, s: seq<string>): (r: seq<string>)
    ensures |r| == |s| + 1
    ensures multiset(r) == multiset(s) + multiset{x}
    ensures Sorted(s) ==> Sorted(r)
    decreases |s|
  {
    if |s| == 0 || StrLe(x, s[0]) then
      var r := [x] + s;
      assert Sorted(s) ==> Sorted(r) by {
        if Sorted(s) && |s| > 0 {
          forall j | 0 < j < |r| ensures StrLe(x, r[j]) {
            if j > 1 {
              StrLeTransitive(x, s[0], s[j - 1]);
            }
          }
        }
      }
      r
    else
      var tail := Insert(x, s[1..]);
      var r := [s[0]] + tail;
      assert s == [s[0]] + s[1..];
      assert Sorted(s) ==> Sorted(r) by {
        if Sorted(s) {
          StrLeTotal(x, s[0]);
          forall j | 0 <= j < |tail| ensures StrLe(s[0], tail[j]) {
            assert tail[j] in multiset(tail);
            if tail[j] != x {
              var k :| 0 <= k < |s[1..]| && s[1..][k] == tail[j];
              assert s[k + 1] == tail[j];
            }
          }
        }
      }
      r
  }

  /** Python's `sorted(names)`, as an insertion sort. */
  function SortStrings(s: seq<string>): seq<string>
    decreases |s|
  {
    if |s| == 0 then [] else Insert(s[0], SortStrings(s[1..]))
  }

  /** `sorted()` returns an ordered permutation of its input. */
  lemma {:induction false} SortStringsCorrect(s: seq<string>)
    ensures Sorted(SortStrings(s))
    ensures multiset(SortStrings(s)) == multiset(s)
    decreases |s|
  {
    if |s| > 0 {
      SortStringsCorrect(s[1..]);
      assert s == [s[0]] + s[1..];
    }
  }

  /** There is only one ordered arrangement of a multiset of strings, so `sorted()` has no ties to break. */
  lemma {:induction false} SortedUnique(a: seq<string>, b: seq<string>)
    requires Sorted(a) && Sorted(b) && multiset(a) == multiset(b)
    ensures a == b
    decreases |a|
  {
    if |a| > 0 {
      assert |b| == |multiset(b)| == |multiset(a)| == |a|;
      assert a[0] in multiset(b) && b[0] in multiset(a);
      var i :| 0 <= i < |b| && b[i] == a[0];
      var j :| 0 <= j < |a| && a[j] == b[0];
      if a[0] != b[0] {
        assert StrLe(b[0], b[i]) && StrLe(a[0], a[j]);
        StrLeAntisymmetric(a[0], b[0]);
      }
      assert a == [a[0]] + a[1..] && b == [b[0]] + b[1..];
      assert multiset(a) == multiset{a[0]} + multiset(a[1..]);
      assert multiset(b) == multiset{b[0]} + multiset(b[1..]);
      assert a[0] == b[0];
      assert multiset(a[1..]) == multiset(a) - multiset{a[0]};
      assert multiset(b[1..]) == multiset(b) - multiset{b[0]};
      SortedTail(a);
      SortedTail(b);
      SortedUnique(a[1..], b[1..]);
    }
  }
}
