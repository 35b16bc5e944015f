/** The string operations of the .NET base library that the bundler relies on:
    Char.IsWhiteSpace, string.IsNullOrWhiteSpace, string.Contains,
    string.ToLower (for ASCII letters), string.Split, string.Join and the
    LINQ filter `Where`. */
module Strings {
  import opened Optional

  /** Char.IsWhiteSpace: U+0009..U+000D, U+0085 and the Unicode space, line
      and paragraph separators. */
  predicate IsWhiteSpace(c: char) {
    var n := c as int;
    (0x09 <= n <= 0x0D) || n == 0x20 || n == 0x85 || n == 0xA0 || n == 0x1680
    || (0x2000 <= n <= 0x200A) || n == 0x2028 || n == 0x2029 || n == 0x202F
    || n == 0x205F || n == 0x3000
  }

  /** Every character is white space (the empty string included). */
  predicate IsBlank(s: string) {
    forall i :: 0 <= i < |s| ==> IsWhiteSpace(s[i])
  }

  /** string.IsNullOrWhiteSpace */
  predicate IsNullOrWhiteSpace(s: Option<string>) {
    s.None? || IsBlank(s.value)
  }

  predicate StartsWith(s: string, prefix: string) {
    |prefix| <= |s| && s[..|prefix|] == prefix
  }

  /** string.Contains(t): an ordinal, case-sensitive substring test. */
  function Contains(s: string, t: string): bool
    decreases |s|
  {
    StartsWith(s, t) || (|s| > 0 && Contains(s[1..], t))
  }

  /** Contains agrees with the direct definition: `t` occurs at some position of `s`. */
  lemma {:induction false} ContainsIffOccurs(s: string, t: string)
    ensures Contains(s, t) <==> exists i :: 0 <= i <= |s| && StartsWith(s[i..], t)
    decreases |s|
  {
    assert s[0..] == s;
    if |s| > 0 {
      ContainsIffOccurs(s[1..], t);
      if Contains(s[1..], t) {
        var i :| 0 <= i <= |s[1..]| && StartsWith(s[1..][i..], t);
        assert s[1..][i..] == s[i + 1..];
      }
      if i :| 0 <= i <= |s| && StartsWith(s[i..], t) {
        if i > 0 {
          assert s[1..][i - 1..] == s[i..];
        }
      }
    } else {
      if i :| 0 <= i <= |s| && StartsWith(s[i..], t) {
        assert i == 0;
      }
    }
  }

  /** `t` occurs in every string that starts with a string it occurs in. */
  lemma ContainsInPrefix(s: string, prefix: string, t: string)
    requires StartsWith(s, prefix) && Contains(prefix, t)
    ensures Contains(s, t)
  {
    ContainsIffOccurs(prefix, t);
    var i :| 0 <= i <= |prefix| && StartsWith(prefix[i..], t);
    assert i + |t| <= |prefix| <= |s|;
    assert prefix == s[..|prefix|];
    forall k | 0 <= k < |t| ensures s[i..][k] == t[k] {
      assert s[i..][k] == s[i + k] == prefix[i + k] == prefix[i..][k] == prefix[i..][..|t|][k];
    }
    assert s[i..][..|t|] == t;
    assert StartsWith(s[i..], t);
    ContainsIffOccurs(s, t);
  }

  /** ASCII case mapping of Char.ToLower; every other character is kept. */
  function LowerChar(c: char): char {
    if 'A' <= c <= 'Z' then (c as int + 32) as char else c
  }

  /** string.ToLower, restricted to the ASCII letters. */
  function ToLower(s: string): string {
    seq(|s|, i requires 0 <= i < |s| => LowerChar(s[i]))
  }

  /** string.Join(separator, pieces). */
  function Join(pieces: seq<string>, separator: string): string
    decreases |pieces|
  {
    if |pieces| == 0 then ""
    else if |pieces| == 1 then pieces[0]
    else pieces[0] + separator + Join(pieces[1..], separator)
  }

  /** string.Split(separator): the pieces between consecutive separators; it
      always yields at least one piece, and none holds the separator. */
  function Split(s: string, separator: char): (pieces: seq<string>)
    ensures |pieces| >= 1
    ensures forall i :: 0 <= i < |pieces| ==> separator !in pieces[i]
    decreases |s|
  {
    if s == [] then [[]]
    else
      var rest := Split(s[1..], separator);
      if s[0] == separator then [[]] + rest
      else [[s[0]] + rest[0]] + rest[1..]
  }

  /** Rejoining the pieces of a split with the separator gives back the input. */
  lemma {:induction false} JoinSplit(s: string, separator: char)
    ensures Join(Split(s, separator), [separator]) == s
    decreases |s|
  {
    if s != [] {
      JoinSplit(s[1..], separator);
      var rest := Split(s[1..], separator);
      if s[0] == separator {
        assert ([[]] + rest)[1..] == rest;
      } else {
        var pieces := [[s[0]] + rest[0]] + rest[1..];
        assert pieces[1..] == rest[1..];
        if |rest| > 1 {
          assert Join(rest, [separator]) == rest[0] + [separator] + Join(rest[1..], [separator]);
        }
      }
    }
  }

  lemma {:induction false} SplitWithoutSeparator(s: string, separator: char)
    requires separator !in s
    ensures Split(s, separator) == [s]
    decreases |s|
  {
    if s != [] {
      assert separator !in s[1..];
      SplitWithoutSeparator(s[1..], separator);
      assert [s[0]] + s[1..] == s;
    }
  }

  lemma {:induction false} SplitAfterPiece(piece: string, separator: char, rest: string)
    requires separator !in piece
    ensures Split(piece + [separator] + rest, separator) == [piece] + Split(rest, separator)
    decreases |piece|
  {
    var s := piece + [separator] + rest;
    if piece == [] {
      assert s[0] == separator && s[1..] == rest;
    } else {
      assert s[0] == piece[0] && s[1..] == piece[1..] + [separator] + rest;
      assert separator !in piece[1..];
      SplitAfterPiece(piece[1..], separator, rest);
      assert [piece[0]] + piece[1..] == piece;
    }
  }

  /** Splitting undoes joining, when no piece holds the separator. */
  lemma {:induction false} SplitJoin(pieces: seq<string>, separator: char)
    requires |pieces| >= 1
    requires forall i :: 0 <= i < |pieces| ==> separator !in pieces[i]
    ensures Split(Join(pieces, [separator]), separator) == pieces
    decreases |pieces|
  {
    if |pieces| == 1 {
      SplitWithoutSeparator(pieces[0], separator);
    } else {
      SplitJoin(pieces[1..], separator);
      SplitAfterPiece(pieces[0], separator, Join(pieces[1..], [separator]));
      assert [pieces[0]] + pieces[1..] == pieces;
    }
  }

  /** LINQ `Where(keep)`: the elements that satisfy `keep`, in their order. */
  function FilterBy<T>(s: seq<T>, keep: T -> bool): (r: seq<T>)
    ensures |r| <= |s|
    ensures forall x :: x in r ==> x in s && keep(x)
    ensures forall i :: 0 <= i < |s| && keep(s[i]) ==> s[i] in r
    decreases |s|
  {
    if s == [] then []
    else
      var rest := FilterBy(s[1..], keep);
      assert forall i :: 1 <= i < |s| ==> s[i] == s[1..][i - 1];
      if keep(s[0]) then [s[0]] + rest else rest
  }

  /** Filtering distributes over concatenation, so the relative order of the
      kept elements is the order they had in the input. */
  lemma {:induction false} FilterByAppend<T>(a: seq<T>, b: seq<T>, keep: T -> bool)
    ensures FilterBy(a + b, keep) == FilterBy(a, keep) + FilterBy(b, keep)
    decreases |a|
  {
    if a != [] {
      assert (a + b)[0] == a[0] && (a + b)[1..] == a[1..] + b;
      FilterByAppend(a[1..], b, keep);
    } else {
      assert a + b == b;
    }
  }

  lemma FilterBySingleton<T>(x: T, keep: T -> bool)
    ensures FilterBy([x], keep) == if keep(x) then [x] else []
  {
    assert [x][1..] == [];
  }

  /** A filter that rejects everything returns nothing. */
  lemma {:induction false} FilterByRejectsAll<T>(s: seq<T>, keep: T -> bool)
    requires forall i :: 0 <= i < |s| ==> !keep(s[i])
    ensures FilterBy(s, keep) == []
    decreases |s|
  {
    if s != [] {
      FilterByRejectsAll(s[1..], keep);
    }
  }

  /** A filter that rejects nothing returns its input. */
  lemma {:induction false} FilterByKeepsAll<T>(s: seq<T>, keep: T -> bool)
    requires forall i :: 0 <= i < |s| ==> keep(s[i])
    ensures FilterBy(s, keep) == s
    decreases |s|
  {
    if s != [] {
      FilterByKeepsAll(s[1..], keep);
      assert [s[0]] + s[1..] == s;
    }
  }
}
