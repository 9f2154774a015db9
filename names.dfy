/**
 * Names and paths as bview handles them: Python's ordering of `str` values
 * (used by `sorted(...)`), a functional model of `sorted` on lists of names,
 * and the path strings the walker builds by joining a directory and a name with `/`.
 */
module Names {

  /** `a <= b` under Python's string ordering: code point by code point, a proper prefix first. */
  predicate Below(a: string, b: string)
    decreases |a|
  {
    |a| == 0 || (|b| > 0 && (a[0] < b[0] || (a[0] == b[0] && Below(a[1..], b[1..]))))
  }

  lemma {:induction false} BelowTotal(a: string, b: string)
    ensures Below(a, b) || Below(b, a)
    decreases |a|
  {
    if |a| > 0 && |b| > 0 && a[0] == b[0] {
      BelowTotal(a[1..], b[1..]);
    }
  }

  lemma {:induction false} BelowAntisymmetric(a: string, b: string)
    requires Below(a, b) && Below(b, a)
    ensures a == b
    decreases |a|
  {
    if |a| > 0 {
      BelowAntisymmetric(a[1..], b[1..]);
      assert a == [a[0]] + a[1..] && b == [b[0]] + b[1..];
    }
  }

  lemma {:induction false} BelowTransitive(a: string, b: string, c: string)
    requires Below(a, b) && Below(b, c)
    ensures Below(a, c)
    decreases |a|
  {
    if |a| > 0 && a[0] == b[0] && b[0] == c[0] {
      BelowTransitive(a[1..], b[1..], c[1..]);
    }
  }

  /** A common prefix does not change how two names compare. */
  lemma {:induction false} BelowUnderPrefix(p: string, a: string, b: string)
    ensures Below(p + a, p + b) == Below(a, b)
    decreases |p|
  {
    if |p| > 0 {
      assert (p + a)[0] == p[0] == (p + b)[0];
      assert (p + a)[1..] == p[1..] + a;
      assert (p + b)[1..] == p[1..] + b;
      BelowUnderPrefix(p[1..], a, b);
    } else {
      assert p + a == a && p + b == b;
    }
  }

  ghost predicate Sorted(s: seq<string>)
  {
    forall i, j :: 0 <= i < j < |s| ==> Below(s[i], s[j])
  }

  ghost predicate Distinct<T>(s: seq<T>)
  {
    forall i, j :: 0 <= i < j < |s| ==> s[i] != s[j]
  }

  function ToSet<T>(s: seq<T>): set<T>
  {
    set x | x in s
  }

  lemma PrefixInSet<T>(s: seq<T>, j: int)
    requires 0 <= j <= |s|
    ensures ToSet(s[..j]) <= ToSet(s)
  {
    forall x | x in s[..j] ensures x in s {
      var i :| 0 <= i < j && s[..j][i] == x;
      assert s[i] == x;
    }
  }

  /** A non-empty list holds its front part and its last element. */
  lemma InitLast<T>(s: seq<T>)
    requires s != []
    ensures forall x :: x in s <==> x in s[..|s| - 1] || x == s[|s| - 1]
  {
    assert s == s[..|s| - 1] + [s[|s| - 1]];
  }

  /** Inserts `x` in front of the first element it is Below. */
  function Insert(x: string, s: seq<string>): seq<string>
  {
    if s == [] then [x]
    else if Below(x, s[0]) then [x] + s
    else [s[0]] + Insert(x, s[1..])
  }

  /** Python's `sorted` on a list of names (insertion sort). */
  function Sort(s: seq<string>): seq<string>
  {
    if s == [] then [] else Insert(s[0], Sort(s[1..]))
  }

  lemma {:induction false} InsertPermutes(x: string, s: seq<string>)
    ensures multiset(Insert(x, s)) == multiset(s) + multiset{x}
  {
    if s != [] && !Below(x, s[0]) {
      InsertPermutes(x, s[1..]);
      assert s == [s[0]] + s[1..];
    }
  }

  lemma {:induction false} InsertKeepsSorted(x: string, s: seq<string>)
    requires Sorted(s)
    ensures Sorted(Insert(x, s))
  {
    if s == [] {
    } else if Below(x, s[0]) {
      forall j | 0 < j < |s| ensures Below(x, s[j]) {
        BelowTransitive(x, s[0], s[j]);
      }
    } else {
      BelowTotal(x, s[0]);
      var t := Insert(x, s[1..]);
      InsertKeepsSorted(x, s[1..]);
      InsertPermutes(x, s[1..]);
      forall k | 0 <= k < |t| ensures Below(s[0], t[k]) {
        assert t[k] in multiset(t);
        if t[k] != x {
          assert t[k] in multiset(s[1..]);
          var m :| 0 <= m < |s[1..]| && s[1..][m] == t[k];
          assert s[m + 1] == t[k];
        }
      }
      var r := [s[0]] + t;
      forall i, j | 0 <= i < j < |r| ensures Below(r[i], r[j]) {
        if i > 0 {
          assert r[i] == t[i - 1] && r[j] == t[j - 1];
        } else {
          assert r[j] == t[j - 1];
        }
      }
    }
  }

  lemma {:induction false} SortPermutes(s: seq<string>)
    ensures multiset(Sort(s)) == multiset(s)
  {
    if s != [] {
      SortPermutes(s[1..]);
      InsertPermutes(s[0], Sort(s[1..]));
      assert s == [s[0]] + s[1..];
    }
  }

  lemma {:induction false} SortSorts(s: seq<string>)
    ensures Sorted(Sort(s))
  {
    if s != [] {
      SortSorts(s[1..]);
      InsertKeepsSorted(s[0], Sort(s[1..]));
    }
  }

  /** Sorting a list that is already sorted gives it back unchanged. */
  lemma {:induction false} SortOfSorted(s: seq<string>)
    requires Sorted(s)
    ensures Sort(s) == s
  {
    if s != [] {
      assert Sorted(s[1..]) by {
        forall i, j | 0 <= i < j < |s[1..]| ensures Below(s[1..][i], s[1..][j]) {
          assert s[1..][i] == s[i + 1] && s[1..][j] == s[j + 1];
        }
      }
      SortOfSorted(s[1..]);
      assert s == [s[0]] + s[1..];
    }
  }

  lemma {:induction false} InsertKeepsDistinct(x: string, s: seq<string>)
    requires Distinct(s) && x !in s
    ensures Distinct(Insert(x, s))
  {
    if s != [] && !Below(x, s[0]) {
      var t := s[1..];
      assert Distinct(t) by {
        forall i, j | 0 <= i < j < |t| ensures t[i] != t[j] {
          assert t[i] == s[i + 1] && t[j] == s[j + 1];
        }
      }
      assert x !in t;
      InsertKeepsDistinct(x, t);
      InsertPermutes(x, t);
      var u := Insert(x, t);
      assert s[0] !in u by {
        forall k | 0 <= k < |t| ensures t[k] != s[0] {
          assert t[k] == s[k + 1];
        }
        assert s[0] !in multiset(t) + multiset{x};
      }
      var r := [s[0]] + u;
      forall i, j | 0 <= i < j < |r| ensures r[i] != r[j] {
        assert r[j] == u[j - 1];
        if i > 0 { assert r[i] == u[i - 1]; }
      }
    }
  }

  lemma {:induction false} SortKeepsDistinct(s: seq<string>)
    requires Distinct(s)
    ensures Distinct(Sort(s))
  {
    if s != [] {
      var t := s[1..];
      assert Distinct(t) by {
        forall i, j | 0 <= i < j < |t| ensures t[i] != t[j] {
          assert t[i] == s[i + 1] && t[j] == s[j + 1];
        }
      }
      SortKeepsDistinct(t);
      SortPermutes(t);
      assert s[0] !in Sort(t) by {
        forall k | 0 <= k < |t| ensures t[k] != s[0] {
          assert t[k] == s[k + 1];
        }
        assert s[0] !in multiset(t);
      }
      InsertKeepsDistinct(s[0], Sort(t));
    }
  }

  /** The path of entry `f` of directory `d`: the two joined by a `/`. */
  function Join(d: string, f: string): string
  {
    d + "/" + f
  }

  /** `p` names something strictly inside directory `d`. */
  ghost predicate StrictlyWithin(p: string, d: string)
  {
    |d| < |p| && p[..|d|] == d && p[|d|] == '/'
  }

  ghost predicate Within(p: string, d: string)
  {
    p == d || StrictlyWithin(p, d)
  }

  lemma JoinIsWithin(d: string, f: string)
    ensures StrictlyWithin(Join(d, f), d)
    ensures !StrictlyWithin(d, Join(d, f))
  {
    assert Join(d, f)[..|d|] == d;
  }

  lemma JoinInjective(d: string, a: string, b: string)
    requires Join(d, a) == Join(d, b)
    ensures a == b
  {
    assert a == Join(d, a)[|d| + 1..];
    assert b == Join(d, b)[|d| + 1..];
  }

  lemma WithinChild(p: string, c: string, d: string)
    requires Within(p, c) && StrictlyWithin(c, d)
    ensures StrictlyWithin(p, d)
  {
    if p != c {
      assert p[..|c|][..|d|] == p[..|d|];
      assert p[..|c|][|d|] == p[|d|];
    }
  }

  /** `c` is an entry of directory `d`: strictly inside it, with no further `/`. */
  ghost predicate ChildOf(c: string, d: string)
  {
    StrictlyWithin(c, d) && '/' !in c[|d| + 1..]
  }

  lemma JoinIsChild(d: string, n: string)
    requires '/' !in n
    ensures ChildOf(Join(d, n), d)
  {
    JoinIsWithin(d, n);
    assert Join(d, n)[|d| + 1..] == n;
  }

  /** A path two levels below `d` has a `/` after `d`'s own. */
  lemma SlashBelow(a: string, b: string, d: string)
    requires StrictlyWithin(b, d) && |d| < |a|
    ensures StrictlyWithin(a, b) ==> '/' in a[|d| + 1..]
  {
    if |b| < |a| && a[|b|] == '/' {
      assert a[|d| + 1..][|b| - |d| - 1] == a[|b|];
    }
  }

  /** An entry of `d` never lies strictly inside another path strictly inside `d`. */
  lemma ChildNotBelowSibling(a: string, b: string, d: string)
    requires ChildOf(a, d) && StrictlyWithin(b, d)
    ensures !StrictlyWithin(a, b)
  {
    SlashBelow(a, b, d);
  }

  /** Two different entries of one directory are apart: neither lies within the other. */
  lemma SiblingsApart(a: string, b: string, d: string)
    requires ChildOf(a, d) && ChildOf(b, d) && a != b
    ensures !Within(a, b) && !Within(b, a)
  {
    ChildNotBelowSibling(a, b, d);
    ChildNotBelowSibling(b, a, d);
  }

  lemma PngSuffixInjective(a: string, b: string)
    requires a + ".png" == b + ".png"
    ensures a == b
  {
    assert a == (a + ".png")[..|a|];
    assert b == (b + ".png")[..|b|];
  }

  /** Paths of one directory compare as the entry names do. */
  lemma JoinKeepsOrder(d: string, a: string, b: string)
    ensures Below(Join(d, a), Join(d, b)) == Below(a, b)
  {
    assert Join(d, a) == (d + "/") + a;
    assert Join(d, b) == (d + "/") + b;
    BelowUnderPrefix(d + "/", a, b);
  }
}
