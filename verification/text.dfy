/**
 * The two Python `str` methods the audience parsing relies on:
 * `str.strip()` with no argument and `str.split(sep)` with a one-character
 * separator.
 */
module Text {

  /** The characters for which Python's `str.isspace()` holds; these are what
      `str.strip()` with no argument removes from both ends. */
  predicate IsSpace(c: char) {
    || ('\t' <= c <= '\r')
    || ('\U{1C}' <= c <= '\U{1F}')
    || c == ' '
    || c == '\U{85}'
    || c == '\U{A0}'
    || c == '\U{1680}'
    || ('\U{2000}' <= c <= '\U{200A}')
    || c == '\U{2028}'
    || c == '\U{2029}'
    || c == '\U{202F}'
    || c == '\U{205F}'
    || c == '\U{3000}'
  }

  ghost predicate AllSpace(s: string) {
    forall k :: 0 <= k < |s| ==> IsSpace(s[k])
  }

  ghost predicate NoSpace(s: string) {
    forall k :: 0 <= k < |s| ==> !IsSpace(s[k])
  }

  /** `t` is what is left of `s` once the whitespace run at either end is
      cut away, `t` starting at index `i` of `s`. */
  ghost predicate IsStripAt(s: string, t: string, i: int) {
    && 0 <= i <= i + |t| <= |s|
    && t == s[i..i + |t|]
    && AllSpace(s[..i])
    && AllSpace(s[i + |t|..])
    && (|t| > 0 ==> !IsSpace(t[0]) && !IsSpace(t[|t| - 1]))
  }

  /** `t` is `s` with both whitespace runs cut away. */
  ghost predicate IsStripOf(s: string, t: string) {
    exists i :: IsStripAt(s, t, i)
  }

  /** Drops the leading whitespace run (`str.lstrip()`). */
  function TrimStart(s: string): (r: string)
    ensures |r| <= |s| && r == s[|s| - |r|..]
    ensures AllSpace(s[..|s| - |r|])
    ensures |r| > 0 ==> !IsSpace(r[0])
  {
    if |s| > 0 && IsSpace(s[0]) then TrimStart(s[1..]) else s
  }

  /** Drops the trailing whitespace run (`str.rstrip()`). */
  function TrimEnd(s: string): (r: string)
    ensures |r| <= |s| && r == s[..|r|]
    ensures AllSpace(s[|r|..])
    ensures |r| > 0 ==> !IsSpace(r[|r| - 1])
  {
    if |s| > 0 && IsSpace(s[|s| - 1]) then TrimEnd(s[..|s| - 1]) else s
  }

  /** Python's `s.strip()`. */
  function Strip(s: string): (r: string)
    ensures IsStripOf(s, r)
  {
    var l := TrimStart(s);
    var r := TrimEnd(l);
    var i := |s| - |l|;
    assert s[i..i + |r|] == l[..|r|];
    assert s[i + |r|..] == l[|r|..];
    assert |r| > 0 ==> r[0] == l[0];
    assert IsStripAt(s, r, i);
    r
  }

  /** The strip of a string is determined by the characterisation alone:
      any `t` that is `s` with both whitespace runs removed is `Strip(s)`. */
  lemma StripUnique(s: string, t: string, i: int)
    requires IsStripAt(s, t, i)
    ensures t == Strip(s)
  {
    var r := Strip(s);
    var j :| IsStripAt(s, r, j);
    forall k | 0 <= k < i ensures IsSpace(s[k]) { assert s[k] == s[..i][k]; }
    forall k | i + |t| <= k < |s| ensures IsSpace(s[k]) { assert s[k] == s[i + |t|..][k - i - |t|]; }
    forall k | 0 <= k < j ensures IsSpace(s[k]) { assert s[k] == s[..j][k]; }
    forall k | j + |r| <= k < |s| ensures IsSpace(s[k]) { assert s[k] == s[j + |r|..][k - j - |r|]; }
    assert |t| == |r|;
    assert |t| > 0 ==> i == j;
  }

  /** Stripping twice is stripping once. */
  lemma StripIdempotent(s: string)
    ensures Strip(Strip(s)) == Strip(s)
  {
    var r := Strip(s);
    assert IsStripAt(r, r, 0) by {
      assert r[..0] == [] && r[|r|..] == [];
      assert r[0..|r|] == r;
    }
    StripUnique(r, r, 0);
  }

  /** A string without whitespace is its own strip. */
  lemma StripNoSpace(s: string)
    requires NoSpace(s)
    ensures Strip(s) == s
  {
    assert IsStripAt(s, s, 0) by {
      assert s[..0] == [] && s[|s|..] == [];
      assert s[0..|s|] == s;
    }
    StripUnique(s, s, 0);
  }

  /** Whitespace around a whitespace-free string is exactly what strip
      removes. */
  lemma StripPadded(pad: string, s: string, pad': string)
    requires AllSpace(pad) && AllSpace(pad') && NoSpace(s)
    ensures Strip(pad + s + pad') == s
  {
    var padded := pad + s + pad';
    assert padded[..|pad|] == pad;
    assert padded[|pad|..|pad| + |s|] == s;
    assert padded[|pad| + |s|..] == pad';
    assert IsStripAt(padded, s, |pad|);
    StripUnique(padded, s, |pad|);
  }

  /** Each string stripped, in order. */
  function StripEach(ss: seq<string>): (r: seq<string>)
    ensures |r| == |ss|
    ensures forall k :: 0 <= k < |r| ==> IsStripOf(ss[k], r[k])
  {
    seq(|ss|, k requires 0 <= k < |ss| => Strip(ss[k]))
  }

  /** A list of strings without whitespace is left alone. */
  lemma StripEachNoSpace(ss: seq<string>)
    requires forall k :: 0 <= k < |ss| ==> NoSpace(ss[k])
    ensures StripEach(ss) == ss
  {
    var r := StripEach(ss);
    forall k | 0 <= k < |ss| ensures r[k] == ss[k] {
      StripNoSpace(ss[k]);
    }
  }

  /** Python's `s.split(sep)` for a one-character separator: the pieces
      between consecutive separators, in order; empty pieces are kept, and
      the empty string splits into one empty piece. */
  function Split(s: string, sep: char): (r: seq<string>)
    ensures |r| == multiset(s)[sep] + 1
    ensures forall k :: 0 <= k < |r| ==> sep !in r[k]
    decreases |s|
  {
    if |s| == 0 then [""]
    else
      assert s == [s[0]] + s[1..];
      var rest := Split(s[1..], sep);
      if s[0] == sep then [""] + rest
      else [[s[0]] + rest[0]] + rest[1..]
  }

  /** Python's `sep.join(pieces)` for a non-empty list of pieces. */
  function Join(pieces: seq<string>, sep: char): string
    requires |pieces| > 0
  {
    if |pieces| == 1 then pieces[0] else pieces[0] + [sep] + Join(pieces[1..], sep)
  }

  /** Prepending a non-separator character to the first piece prepends it
      to the joined string. */
  lemma JoinExtendFirst(c: char, pieces: seq<string>, sep: char)
    requires |pieces| > 0
    ensures Join([[c] + pieces[0]] + pieces[1..], sep) == [c] + Join(pieces, sep)
  {
    var q := [[c] + pieces[0]] + pieces[1..];
    if |pieces| > 1 {
      assert q[1..] == pieces[1..];
    }
  }

  /** One step of splitting and rejoining: the first character comes back
      in front, whether it is the separator or not. */
  lemma JoinSplitStep(s: string, sep: char)
    requires |s| > 0
    ensures Join(Split(s, sep), sep) == [s[0]] + Join(Split(s[1..], sep), sep)
  {
    var rest := Split(s[1..], sep);
    if s[0] == sep {
      assert Split(s, sep) == [""] + rest;
      assert ([""] + rest)[1..] == rest;
    } else {
      assert Split(s, sep) == [[s[0]] + rest[0]] + rest[1..];
      JoinExtendFirst(s[0], rest, sep);
    }
  }

  /** Joining the pieces back with the separator gives the original string. */
  lemma {:induction false} JoinSplit(s: string, sep: char)
    ensures Join(Split(s, sep), sep) == s
    decreases |s|
  {
    if |s| > 0 {
      JoinSplit(s[1..], sep);
      JoinSplitStep(s, sep);
      assert [s[0]] + s[1..] == s;
    }
  }

  /** A string without the separator is a single piece. */
  lemma {:induction false} SplitSinglePiece(a: string, sep: char)
    requires sep !in a
    ensures Split(a, sep) == [a]
    decreases |a|
  {
    if |a| > 0 {
      assert sep !in a[1..];
      SplitSinglePiece(a[1..], sep);
      assert [a[0]] + a[1..] == a;
    }
  }

  /** A separator-free prefix followed by the separator splits off as the
      first piece. */
  lemma {:induction false} SplitFirstPiece(a: string, b: string, sep: char)
    requires sep !in a
    ensures Split(a + [sep] + b, sep) == [a] + Split(b, sep)
    decreases |a|
  {
    var s := a + [sep] + b;
    if |a| == 0 {
      assert s[1..] == b;
    } else {
      assert s[1..] == a[1..] + [sep] + b;
      assert sep !in a[1..];
      SplitFirstPiece(a[1..], b, sep);
      assert [a[0]] + a[1..] == a;
    }
  }

  /** Splitting separator-free pieces joined with the separator gives the
      pieces back: together with `JoinSplit`, `Split` is the inverse of
      `Join`. */
  lemma {:induction false} SplitJoin(pieces: seq<string>, sep: char)
    requires |pieces| > 0
    requires forall k :: 0 <= k < |pieces| ==> sep !in pieces[k]
    ensures Split(Join(pieces, sep), sep) == pieces
    decreases |pieces|
  {
    if |pieces| == 1 {
      SplitSinglePiece(pieces[0], sep);
    } else {
      SplitJoin(pieces[1..], sep);
      SplitFirstPiece(pieces[0], Join(pieces[1..], sep), sep);
      assert [pieces[0]] + pieces[1..] == pieces;
    }
  }
}
