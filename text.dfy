/**
 * The Python string operations that api/create_vector_store.py and
 * api/main.py use: `str.isspace`, `str.strip`, the `in` test on strings,
 * `str.join` and the prefix slice `s[:n]`. Strings are sequences of Unicode
 * scalar values; Python's lone surrogates have no counterpart here.
 */
module Text {

  /** Python's `str.isspace()` on one code point: the characters whose
      bidirectional class is WS, B or S, or whose category is Zs. */
  predicate IsSpace(c: char) {
    || ('\t' <= c <= '\r')
    || ('\U{1C}' <= c <= ' ')
    || c == '\U{85}' || c == '\U{A0}' || c == '\U{1680}'
    || ('\U{2000}' <= c <= '\U{200A}')
    || c == '\U{2028}' || c == '\U{2029}' || c == '\U{202F}' || c == '\U{205F}' || c == '\U{3000}'
  }

  /** Every character of `s` is white space (vacuously true of ""). */
  predicate AllSpace(s: string) {
    forall i :: 0 <= i < |s| ==> IsSpace(s[i])
  }

  /** Drops leading white space. */
  function TrimStart(s: string): string {
    if |s| > 0 && IsSpace(s[0]) then TrimStart(s[1..]) else s
  }

  /** Drops trailing white space. */
  function TrimEnd(s: string): string {
    if |s| > 0 && IsSpace(s[|s| - 1]) then TrimEnd(s[..|s| - 1]) else s
  }

  /** What `TrimStart` leaves is a suffix of `s` that does not start with a
      space, and what it cuts off is white space. */
  lemma {:induction false} TrimStartSpec(s: string)
    ensures var r := TrimStart(s);
      && |r| <= |s| && r == s[|s| - |r|..]
      && AllSpace(s[..|s| - |r|])
      && (r != [] ==> !IsSpace(r[0]))
    decreases |s|
  {
    if |s| > 0 && IsSpace(s[0]) {
      TrimStartSpec(s[1..]);
      var r := TrimStart(s);
      assert s[..|s| - |r|] == [s[0]] + s[1..][..|s| - 1 - |r|];
    }
  }

  /** What `TrimEnd` leaves is a prefix of `s` that does not end with a
      space, and what it cuts off is white space. */
  lemma {:induction false} TrimEndSpec(s: string)
    ensures var r := TrimEnd(s);
      && |r| <= |s| && r == s[..|r|]
      && AllSpace(s[|r|..])
      && (r != [] ==> !IsSpace(r[|r| - 1]))
    decreases |s|
  {
    if |s| > 0 && IsSpace(s[|s| - 1]) {
      TrimEndSpec(s[..|s| - 1]);
      var r := TrimEnd(s);
      assert s[|r|..] == s[..|s| - 1][|r|..] + [s[|s| - 1]];
    }
  }

  /** Python's `s.strip()` with no argument. */
  function Strip(s: string): (r: string)
    ensures r == [] <==> AllSpace(s)
    ensures r != [] ==> !IsSpace(r[0]) && !IsSpace(r[|r| - 1])
  {
    var t := TrimStart(s);
    TrimStartSpec(s);
    TrimEndSpec(t);
    var r := TrimEnd(t);
    var i := |s| - |t|;
    assert r == s[i..i + |r|];
    assert s[i + |r|..] == t[|r|..];
    SpaceAround(s, i, i + |r|);
    r
  }

  /** A string whose part outside `s[i..j]` is white space is all white space exactly when that part is. */
  lemma SpaceAround(s: string, i: nat, j: nat)
    requires i <= j <= |s| && AllSpace(s[..i]) && AllSpace(s[j..])
    ensures AllSpace(s) <==> AllSpace(s[i..j])
  {
    if !AllSpace(s) {
      var k :| 0 <= k < |s| && !IsSpace(s[k]);
      if i <= k < j {
        assert s[i..j][k - i] == s[k];
      }
    }
  }

  /** `Strip(s)` is the slice of `s` left once the white space at both ends is cut off. */
  lemma StripIsSlice(s: string)
    ensures exists i, j :: 0 <= i <= j <= |s| && Strip(s) == s[i..j] && AllSpace(s[..i]) && AllSpace(s[j..])
  {
    var t := TrimStart(s);
    TrimStartSpec(s);
    TrimEndSpec(t);
    var i := |s| - |t|;
    var j := i + |TrimEnd(t)|;
    assert s[j..] == t[|TrimEnd(t)|..];
    assert Strip(s) == s[i..j] && AllSpace(s[..i]) && AllSpace(s[j..]);
  }

  /** Python's truth test `not s.strip()`: nothing is left once white space is stripped. */
  predicate Blank(s: string)
    ensures Blank(s) <==> AllSpace(s)
  {
    Strip(s) == []
  }

  /** Stripping is idempotent: an already stripped string is left alone. */
  lemma StripIdempotent(s: string)
    ensures Strip(Strip(s)) == Strip(s)
  {
    var r := Strip(s);
    if r != [] {
      assert TrimStart(r) == r;
      assert TrimEnd(r) == r;
    } else {
      assert TrimStart(r) == r;
    }
  }

  /** Python's `needle in hay` for two strings: `needle` occurs somewhere in `hay`. */
  predicate Contains(hay: string, needle: string)
    decreases |hay|
  {
    needle <= hay || (hay != [] && Contains(hay[1..], needle))
  }

  /** `needle` occurs in `hay` starting at position `at`. */
  predicate OccursAt(hay: string, needle: string, at: nat) {
    at + |needle| <= |hay| && hay[at..at + |needle|] == needle
  }

  /** An occurrence at any position is found by `Contains`. */
  lemma {:induction false} ContainsAt(hay: string, needle: string, at: nat)
    requires OccursAt(hay, needle, at)
    ensures Contains(hay, needle)
    decreases at
  {
    if at > 0 {
      assert hay[1..][at - 1..at - 1 + |needle|] == needle;
      ContainsAt(hay[1..], needle, at - 1);
    } else {
      assert needle <= hay;
    }
  }

  /** Conversely, whatever `Contains` finds occurs at some position. */
  lemma {:induction false} ContainsOccurs(hay: string, needle: string)
    requires Contains(hay, needle)
    ensures exists at: nat :: OccursAt(hay, needle, at)
    decreases |hay|
  {
    if needle <= hay {
      assert OccursAt(hay, needle, 0);
    } else {
      ContainsOccurs(hay[1..], needle);
      var at: nat :| OccursAt(hay[1..], needle, at);
      assert hay[at + 1..at + 1 + |needle|] == hay[1..][at..at + |needle|];
      assert OccursAt(hay, needle, at + 1);
    }
  }

  /** A slice inside the left operand of a concatenation. */
  lemma SliceLeft(a: string, b: string, i: nat, j: nat)
    requires i <= j <= |a|
    ensures (a + b)[i..j] == a[i..j]
  {
  }

  /** A slice inside the right operand of a concatenation. */
  lemma SliceRight(a: string, b: string, i: nat, j: nat)
    requires i <= j <= |b|
    ensures (a + b)[|a| + i..|a| + j] == b[i..j]
  {
  }

  /** Python's `s[:n]` for n >= 0. */
  function Prefix(s: string, n: nat): (r: string)
    ensures |r| <= n && r <= s
    ensures |r| == n || r == s
  {
    if |s| <= n then s else s[..n]
  }

  /** Python's `sep.join(xs)`. */
  function Join(sep: string, xs: seq<string>): (r: string)
    decreases |xs|
  {
    if |xs| == 0 then ""
    else if |xs| == 1 then xs[0]
    else xs[0] + sep + Join(sep, xs[1..])
  }

  /** Where the i-th piece starts in `Join(sep, xs)`: the lengths of the pieces
      before it, each followed by one separator. */
  function Offset(sepLength: nat, xs: seq<string>, i: nat): nat
    requires i <= |xs|
    decreases i
  {
    if i == 0 then 0 else |xs[0]| + sepLength + Offset(sepLength, xs[1..], i - 1)
  }

  /** The joined string holds the i-th piece at its offset. */
  lemma {:induction false} JoinPiece(sep: string, xs: seq<string>, i: nat)
    requires i < |xs|
    ensures var o := Offset(|sep|, xs, i);
      o + |xs[i]| <= |Join(sep, xs)| && Join(sep, xs)[o..o + |xs[i]|] == xs[i]
    decreases i
  {
    var piece := xs[i];
    if |xs| == 1 {
      assert piece[0..|piece|] == piece;
    } else {
      var head := xs[0] + sep;
      var rest := Join(sep, xs[1..]);
      assert Join(sep, xs) == head + rest;
      if i == 0 {
        SliceLeft(head, rest, 0, |piece|);
        SliceLeft(xs[0], sep, 0, |piece|);
        assert piece[0..|piece|] == piece;
      } else {
        assert xs[1..][i - 1] == piece;
        JoinPiece(sep, xs[1..], i - 1);
        var o := Offset(|sep|, xs[1..], i - 1);
        assert Offset(|sep|, xs, i) == |head| + o;
        SliceRight(head, rest, o, o + |piece|);
      }
    }
  }

  /** Every piece but the last is followed by the separator, and the last
      piece ends the joined string. */
  lemma JoinSeparators(sep: string, xs: seq<string>, i: nat)
    requires i < |xs|
    ensures var e := Offset(|sep|, xs, i) + |xs[i]|;
      && (i + 1 < |xs| ==> e + |sep| <= |Join(sep, xs)| && Join(sep, xs)[e..e + |sep|] == sep)
      && (i + 1 == |xs| ==> e == |Join(sep, xs)|)
  {
    if i + 1 < |xs| {
      SeparatorAfter(sep, xs, i);
    } else {
      LastPieceEnds(sep, xs);
    }
  }

  /** The separator follows piece i when another piece comes after it. */
  lemma {:induction false} SeparatorAfter(sep: string, xs: seq<string>, i: nat)
    requires i + 1 < |xs|
    ensures var e := Offset(|sep|, xs, i) + |xs[i]|;
      e + |sep| <= |Join(sep, xs)| && Join(sep, xs)[e..e + |sep|] == sep
    decreases i
  {
    var head := xs[0] + sep;
    var rest := Join(sep, xs[1..]);
    assert Join(sep, xs) == head + rest;
    if i == 0 {
      SliceLeft(head, rest, |xs[0]|, |xs[0]| + |sep|);
      SliceRight(xs[0], sep, 0, |sep|);
      assert sep[0..|sep|] == sep;
    } else {
      assert xs[1..][i - 1] == xs[i];
      SeparatorAfter(sep, xs[1..], i - 1);
      var e := Offset(|sep|, xs[1..], i - 1) + |xs[i]|;
      SliceRight(head, rest, e, e + |sep|);
    }
  }

  /** The last piece ends the joined string. */
  lemma {:induction false} LastPieceEnds(sep: string, xs: seq<string>)
    requires |xs| > 0
    ensures Offset(|sep|, xs, |xs| - 1) + |xs[|xs| - 1]| == |Join(sep, xs)|
    decreases |xs|
  {
    if |xs| > 1 {
      assert xs[1..][|xs[1..]| - 1] == xs[|xs| - 1];
      LastPieceEnds(sep, xs[1..]);
    }
  }

  /** Offsets grow with the index: pieces appear in the joined string in list order. */
  lemma {:induction false} OffsetIncreasing(sepLength: nat, xs: seq<string>, i: nat, j: nat)
    requires i < j <= |xs|
    ensures Offset(sepLength, xs, i) + |xs[i]| + sepLength <= Offset(sepLength, xs, j)
    decreases j
  {
    if i > 0 {
      OffsetIncreasing(sepLength, xs[1..], i - 1, j - 1);
    } else if j > 1 {
      OffsetIncreasing(sepLength, xs[1..], 0, j - 1);
    }
  }
}
