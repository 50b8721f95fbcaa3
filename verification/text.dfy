/** The JavaScript string operations the renderers and forms rely on:
    `trim`, `startsWith`, `includes`, `substring` and `split` on one
    character. Strings are sequences of Unicode scalar values. */
module Text {
  import opened Seqs

  /** The ECMAScript LineTerminator characters: LF, CR, LS and PS */
  predicate IsLineTerminator(c: char) {
    c == '\n' || c == '\r' || c == '\U{2028}' || c == '\U{2029}'
  }

  /** The characters `String.prototype.trim` removes: ECMAScript WhiteSpace
      (tab, vertical tab, form feed, space, no-break space, byte-order mark and
      every space separator) and the line terminators. */
  predicate IsWhite(c: char) {
    || c == '\t' || c == '\U{000B}' || c == '\U{000C}' || c == ' '
    || c == '\U{00A0}' || c == '\U{FEFF}' || c == '\U{1680}'
    || ('\U{2000}' <= c <= '\U{200A}')
    || c == '\U{202F}' || c == '\U{205F}' || c == '\U{3000}'
    || IsLineTerminator(c)
  }

  /** Neither end of `s` is white space */
  predicate IsTrimmed(s: string) {
    s == [] || (!IsWhite(s[0]) && !IsWhite(s[|s| - 1]))
  }

  function TrimStart(s: string): (r: string)
    ensures |r| <= |s| && r == s[|s| - |r|..]
    ensures r == [] || !IsWhite(r[0])
    ensures forall i :: 0 <= i < |s| - |r| ==> IsWhite(s[i])
  {
    if s != [] && IsWhite(s[0]) then
      var tail := s[1..];
      var r := TrimStart(tail);
      assert r == s[|s| - |r|..] by {
        assert tail[|tail| - |r|..] == s[|s| - |r|..];
      }
      assert forall i :: 1 <= i < |s| ==> s[i] == tail[i - 1];
      r
    else s
  }

  function TrimEnd(s: string): (r: string)
    ensures |r| <= |s| && r == s[..|r|]
    ensures r == [] || !IsWhite(r[|r| - 1])
    ensures forall i :: |r| <= i < |s| ==> IsWhite(s[i])
  {
    if s != [] && IsWhite(s[|s| - 1]) then
      var init := s[..|s| - 1];
      var r := TrimEnd(init);
      assert r == s[..|r|] by {
        assert init[..|r|] == s[..|r|];
      }
      assert forall i :: 0 <= i < |init| ==> s[i] == init[i];
      r
    else s
  }

  /** `String.prototype.trim`: drops the white space at both ends and nothing
      else */
  function Trim(s: string): (r: string)
    ensures IsTrimmed(r)
    ensures |r| <= |s|
    ensures r == [] <==> forall i :: 0 <= i < |s| ==> IsWhite(s[i])
    ensures IsTrimmed(s) ==> r == s
    ensures forall c :: c in r ==> c in s
  {
    var a := TrimStart(s);
    var r := TrimEnd(a);
    assert r != [] ==> !IsWhite(r[0]) by {
      if r != [] {
        assert r[0] == a[0];
      }
    }
    r
  }

  /** The trimmed text is a stretch of `s` with only white space before and
      after it */
  lemma TrimCutsEnds(s: string)
    ensures var r := Trim(s);
            exists i :: 0 <= i <= |s| && StartsWith(s[i..], r)
                        && (forall k :: 0 <= k < i ==> IsWhite(s[k]))
                        && (forall k :: i + |r| <= k < |s| ==> IsWhite(s[k]))
  {
    var a := TrimStart(s);
    var r := TrimEnd(a);
    var i := |s| - |a|;
    assert a == s[i..];
    assert StartsWith(s[i..], r);
    forall k | i + |r| <= k < |s|
      ensures IsWhite(s[k])
    {
      assert s[k] == a[k - i];
    }
  }

  lemma TrimIdempotent(s: string)
    ensures Trim(Trim(s)) == Trim(s)
  {
  }

  /** `s.startsWith(p)` */
  predicate StartsWith(s: string, p: string) {
    |p| <= |s| && s[..|p|] == p
  }

  /** A text starting with `p` starts with every prefix of `p` */
  lemma StartsWithPrefix(s: string, p: string, n: nat)
    requires n <= |p|
    ensures StartsWith(s, p) ==> StartsWith(s, p[..n])
  {
    if StartsWith(s, p) {
      assert s[..n] == s[..|p|][..n];
    }
  }

  /** `s.includes(p)` */
  predicate Contains(s: string, p: string)
    decreases |s|
  {
    StartsWith(s, p) || (s != [] && Contains(s[1..], p))
  }

  /** Looking for a one-character string is looking for the character */
  lemma {:induction false} ContainsChar(s: string, c: char)
    ensures Contains(s, [c]) <==> c in s
  {
    if s != [] {
      ContainsChar(s[1..], c);
      assert c in s <==> s[0] == c || c in s[1..];
    }
  }

  /** `s.substring(n)`: everything after the first `n` characters (a
      negative start counts as 0) */
  function Drop(s: string, n: int): (r: string)
    ensures 0 <= n <= |s| ==> r == s[n..]
    ensures n <= 0 ==> r == s
    ensures n > |s| ==> r == []
  {
    if n <= 0 then s else if n <= |s| then s[n..] else []
  }

  /** The inverse of `SplitOn`: the pieces glued back with the separator */
  function Join(pieces: seq<string>, sep: char): string
  {
    if pieces == [] then []
    else if |pieces| == 1 then pieces[0]
    else pieces[0] + [sep] + Join(pieces[1..], sep)
  }

  /** Prepending a character to the first piece prepends it to the join */
  lemma JoinConsFirst(c: char, pieces: seq<string>, sep: char)
    requires pieces != []
    ensures Join([[c] + pieces[0]] + pieces[1..], sep) == [c] + Join(pieces, sep)
  {
    var q := [[c] + pieces[0]] + pieces[1..];
    if |pieces| > 1 {
      assert q[1..] == pieces[1..];
    }
  }

  /** `r` is what splitting `s` at `sep` gives: one more piece than there are
      separators, no piece holding the separator, no character that is not
      in `s`, and the pieces glued back with the separator give `s` */
  predicate IsSplit(s: string, sep: char, r: seq<string>) {
    && |r| == Count(s, sep) + 1
    && (forall k :: 0 <= k < |r| ==> sep !in r[k])
    && (forall k, c :: 0 <= k < |r| && c in r[k] ==> c in s)
    && Join(r, sep) == s
  }

  /** `s.split(sep)` for a one-character separator: the maximal runs of
      characters between separators, including empty ones at either end */
  function SplitOn(s: string, sep: char): (r: seq<string>)
    ensures IsSplit(s, sep, r)
  {
    if s == [] then [[]]
    else
      var rest := SplitOn(s[1..], sep);
      if s[0] == sep then
        SplitAtSeparator(s, sep, rest);
        [[]] + rest
      else
        SplitInsidePiece(s, sep, rest);
        [[s[0]] + rest[0]] + rest[1..]
  }

  /** A leading separator ends an empty first piece */
  lemma SplitAtSeparator(s: string, sep: char, rest: seq<string>)
    requires s != [] && s[0] == sep && IsSplit(s[1..], sep, rest)
    ensures IsSplit(s, sep, [[]] + rest)
  {
    var r := [[]] + rest;
    assert s == [s[0]] + s[1..];
    assert forall c :: c in s[1..] ==> c in s;
    assert forall k :: 1 <= k < |r| ==> r[k] == rest[k - 1];
    assert r[1..] == rest;
  }

  /** A leading character that is not the separator joins the first piece */
  lemma SplitInsidePiece(s: string, sep: char, rest: seq<string>)
    requires s != [] && s[0] != sep && IsSplit(s[1..], sep, rest)
    ensures IsSplit(s, sep, [[s[0]] + rest[0]] + rest[1..])
  {
    var r := [[s[0]] + rest[0]] + rest[1..];
    assert s == [s[0]] + s[1..];
    assert forall c :: c in s[1..] ==> c in s;
    assert forall k :: 1 <= k < |r| ==> r[k] == rest[k];
    assert forall c :: c in r[0] ==> c == s[0] || c in rest[0];
    JoinConsFirst(s[0], rest, sep);
  }
}
