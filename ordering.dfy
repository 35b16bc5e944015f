/** The ordering of the post-write sort: LINQ OrderBy / ThenBy over string
    keys. .NET compares the keys by the current culture; this model compares
    them lexicographically, character by character, by Unicode scalar value. */
module Ordering {
  import opened Paths

  /** Lexicographic order on strings by scalar value: a proper prefix comes first. */
  predicate StrLe(a: string, b: string)
    decreases |a|
  {
    a == [] || (b != [] && (a[0] < b[0] || (a[0] == b[0] && StrLe(a[1..], b[1..]))))
  }

  lemma {:induction false} StrLeReflexive(a: string)
    ensures StrLe(a, a)
    decreases |a|
  {
    if a != [] {
      StrLeReflexive(a[1..]);
    }
  }

  lemma {:induction false} StrLeTotal(a: string, b: string)
    ensures StrLe(a, b) || StrLe(b, a)
    decreases |a|
  {
    if a != [] && b != [] && a[0] == b[0] {
      StrLeTotal(a[1..], b[1..]);
    }
  }

  lemma {:induction false} StrLeAntisymmetric(a: string, b: string)
    requires StrLe(a, b) && StrLe(b, a)
    ensures a == b
    decreases |a|
  {
    if a != [] {
      StrLeAntisymmetric(a[1..], b[1..]);
      assert a == [a[0]] + a[1..] && b == [b[0]] + b[1..];
    }
  }

  lemma {:induction false} StrLeTransitive(a: string, b: string, c: string)
    requires StrLe(a, b) && StrLe(b, c)
    ensures StrLe(a, c)
    decreases |a|
  {
    if a != [] && a[0] == b[0] && b[0] == c[0] {
      StrLeTransitive(a[1..], b[1..], c[1..]);
    }
  }

  /** The sort key order. With `byType` (the `alphabetical` option): by
      extension, then, between equal extensions, by file name. Otherwise by
      file name alone. */
  predicate PathLe(p: string, q: string, byType: bool) {
    if byType && Extension(p) != Extension(q) then StrLe(Extension(p), Extension(q))
    else StrLe(FileName(p), FileName(q))
  }

  lemma PathLeTotal(p: string, q: string, byType: bool)
    ensures PathLe(p, q, byType) || PathLe(q, p, byType)
  {
    StrLeTotal(Extension(p), Extension(q));
    StrLeTotal(FileName(p), FileName(q));
  }

  lemma PathLeTransitive(p: string, q: string, r: string, byType: bool)
    requires PathLe(p, q, byType) && PathLe(q, r, byType)
    ensures PathLe(p, r, byType)
  {
    var ep, eq, er := Extension(p), Extension(q), Extension(r);
    if byType && !(ep == eq == er) {
      if ep == eq {
        assert StrLe(eq, er);
      } else if eq == er {
        assert StrLe(ep, eq);
      } else {
        StrLeTransitive(ep, eq, er);
        if ep == er {
          StrLeAntisymmetric(ep, eq);
        }
      }
    } else {
      StrLeTransitive(FileName(p), FileName(q), FileName(r));
    }
  }

  ghost predicate Sorted(s: seq<string>, byType: bool) {
    forall i, j :: 0 <= i < j < |s| ==> PathLe(s[i], s[j], byType)
  }

  /** Inserts `x` after every element whose key is not greater than its own,
      which keeps equal keys in arrival order. */
  function Insert(x: string, s: seq<string>, byType: bool): (r: seq<string>)
    ensures multiset(r) == multiset(s) + multiset{x}
    decreases |s|
  {
    if s == [] then [x]
    else if !PathLe(s[0], x, byType) then [x] + s
    else
      assert s == [s[0]] + s[1..];
      [s[0]] + Insert(x, s[1..], byType)
  }

  /** An element that goes before the head of a sorted sequence goes before all of it. */
  lemma InsertAtFront(x: string, s: seq<string>, byType: bool)
    requires Sorted(s, byType) && s != [] && !PathLe(s[0], x, byType)
    ensures Sorted([x] + s, byType)
  {
    PathLeTotal(s[0], x, byType);
    var r := [x] + s;
    forall i, j | 0 <= i < j < |r|
      ensures PathLe(r[i], r[j], byType)
    {
      if i == 0 && j > 1 {
        PathLeTransitive(x, s[0], s[j - 1], byType);
      }
    }
  }

  /** A sorted sequence stays sorted under a new head that is not after any element. */
  lemma ConsSorted(y: string, t: seq<string>, byType: bool)
    requires Sorted(t, byType)
    requires forall k :: 0 <= k < |t| ==> PathLe(y, t[k], byType)
    ensures Sorted([y] + t, byType)
  {
    var r := [y] + t;
    forall i, j | 0 <= i < j < |r|
      ensures PathLe(r[i], r[j], byType)
    {
      if i == 0 {
        assert r[j] == t[j - 1];
      } else {
        assert r[i] == t[i - 1] && r[j] == t[j - 1];
      }
    }
  }

  lemma {:induction false} InsertSorted(x: string, s: seq<string>, byType: bool)
    requires Sorted(s, byType)
    ensures Sorted(Insert(x, s, byType), byType)
    decreases |s|
  {
    if s == [] {
    } else if !PathLe(s[0], x, byType) {
      InsertAtFront(x, s, byType);
    } else {
      var rest := s[1..];
      assert Sorted(rest, byType) by {
        forall i, j | 0 <= i < j < |rest|
          ensures PathLe(rest[i], rest[j], byType)
        {
          assert rest[i] == s[i + 1] && rest[j] == s[j + 1];
        }
      }
      InsertSorted(x, rest, byType);
      var tail := Insert(x, rest, byType);
      forall k | 0 <= k < |tail|
        ensures PathLe(s[0], tail[k], byType)
      {
        assert tail[k] in multiset(tail);
        if tail[k] != x {
          assert tail[k] in multiset(rest);
          var m :| 0 <= m < |rest| && rest[m] == tail[k];
          assert s[m + 1] == tail[k];
        }
      }
      ConsSorted(s[0], tail, byType);
    }
  }

  /** LINQ OrderBy (with ThenBy when `byType`): a stable insertion sort. */
  function OrderBy(s: seq<string>, byType: bool): (r: seq<string>)
    ensures multiset(r) == multiset(s)
    ensures Sorted(r, byType)
    decreases |s|
  {
    if s == [] then []
    else
      var front := s[..|s| - 1];
      assert s == front + [s[|s| - 1]];
      InsertSorted(s[|s| - 1], OrderBy(front, byType), byType);
      Insert(s[|s| - 1], OrderBy(front, byType), byType)
  }

  /** Equal keys keep their arrival order: two files with the same name stay as they came. */
  lemma OrderByKeepsTies()
    ensures OrderBy(["b/x", "a/x"], false) == ["b/x", "a/x"]
  {
    assert FileName("b/x") == "x" && FileName("a/x") == "x";
    StrLeReflexive("x");
    assert ["b/x", "a/x"][..1] == ["b/x"];
    assert OrderBy(["b/x"], false) == ["b/x"];
  }
}
