/** The string operations the engine borrows from Go's `strings` package:
    trimming a set of characters from both ends (`strings.Trim`,
    `strings.TrimSpace`) and replacing one character everywhere
    (`strings.ReplaceAll` with one-character arguments). */
module Text {

  /** `r` is `s` with some leading and some trailing characters removed,
      every one of which satisfies `cut`. */
  ghost predicate StripsTo(s: string, cut: char -> bool, r: string)
  {
    exists i, j :: 0 <= i <= j <= |s| && r == s[i..j]
      && (forall k :: 0 <= k < i ==> cut(s[k]))
      && (forall k :: j <= k < |s| ==> cut(s[k]))
  }

  /** Dropping one more leading `cut` character keeps a strip a strip. */
  lemma StripsToFirst(s: string, cut: char -> bool, r: string)
    requires s != [] && cut(s[0]) && StripsTo(s[1..], cut, r)
    ensures StripsTo(s, cut, r)
  {
    var i, j :| 0 <= i <= j <= |s[1..]| && r == s[1..][i..j]
      && (forall k :: 0 <= k < i ==> cut(s[1..][k]))
      && (forall k :: j <= k < |s[1..]| ==> cut(s[1..][k]));
    assert r == s[i + 1..j + 1];
    forall k | 0 <= k < i + 1
      ensures cut(s[k])
    {
      if k > 0 {
        assert s[k] == s[1..][k - 1];
      }
    }
    forall k | j + 1 <= k < |s|
      ensures cut(s[k])
    {
      assert s[k] == s[1..][k - 1];
    }
  }

  /** Dropping one more trailing `cut` character keeps a strip a strip. */
  lemma StripsToLast(s: string, cut: char -> bool, r: string)
    requires s != [] && cut(s[|s| - 1]) && StripsTo(s[..|s| - 1], cut, r)
    ensures StripsTo(s, cut, r)
  {
    var init := s[..|s| - 1];
    var i, j :| 0 <= i <= j <= |init| && r == init[i..j]
      && (forall k :: 0 <= k < i ==> cut(init[k]))
      && (forall k :: j <= k < |init| ==> cut(init[k]));
    assert init[i..j] == s[i..j] by {
      assert forall k :: i <= k < j ==> init[k] == s[k];
    }
    forall k | 0 <= k < i
      ensures cut(s[k])
    {
      assert s[k] == init[k];
    }
    forall k | j <= k < |s|
      ensures cut(s[k])
    {
      if k < |init| {
        assert s[k] == init[k];
      }
    }
  }

  /** `strings.Trim` / `strings.TrimFunc`: drops every leading and every
      trailing character of `s` that satisfies `cut`, leaving the longest
      middle part that neither starts nor ends with such a character. */
  function Trim(s: string, cut: char -> bool): (r: string)
    ensures |r| <= |s|
    ensures r != [] ==> !cut(r[0]) && !cut(r[|r| - 1])
  {
    if s != [] && cut(s[0]) then Trim(s[1..], cut)
    else if s != [] && cut(s[|s| - 1]) then Trim(s[..|s| - 1], cut)
    else s
  }

  /** What `Trim` keeps is `s` minus a prefix and a suffix of `cut`
      characters; with `Trim`'s ends not being `cut`, this fixes the result. */
  lemma {:induction false} TrimStrips(s: string, cut: char -> bool)
    ensures StripsTo(s, cut, Trim(s, cut))
  {
    if s != [] && cut(s[0]) {
      TrimStrips(s[1..], cut);
      StripsToFirst(s, cut, Trim(s, cut));
    } else if s != [] && cut(s[|s| - 1]) {
      TrimStrips(s[..|s| - 1], cut);
      StripsToLast(s, cut, Trim(s, cut));
    } else {
      assert s == s[0..|s|];
    }
  }

  /** Trimming removes only `cut` characters: every other character of `s`
      survives, and nothing new appears. */
  lemma {:induction false} TrimKeeps(s: string, cut: char -> bool, c: char)
    requires !cut(c)
    ensures c in Trim(s, cut) <==> c in s
  {
    if s != [] && cut(s[0]) {
      TrimKeeps(s[1..], cut, c);
      assert s == [s[0]] + s[1..];
    } else if s != [] && cut(s[|s| - 1]) {
      TrimKeeps(s[..|s| - 1], cut, c);
      assert s == s[..|s| - 1] + [s[|s| - 1]];
    }
  }

  /** Trimming an already trimmed string changes nothing. */
  lemma TrimIdempotent(s: string, cut: char -> bool)
    ensures Trim(Trim(s, cut), cut) == Trim(s, cut)
  {
  }

  /** `strings.ReplaceAll(s, string(from), string(to))` for single characters. */
  function ReplaceChar(s: string, from: char, to: char): (r: string)
    ensures |r| == |s|
    ensures forall k :: 0 <= k < |s| ==> r[k] == (if s[k] == from then to else s[k])
    ensures from != to ==> from !in r
  {
    if s == [] then []
    else [if s[0] == from then to else s[0]] + ReplaceChar(s[1..], from, to)
  }

  /** Go's `unicode.IsSpace`, the predicate `strings.TrimSpace` trims by:
      tab, line feed, vertical tab, form feed, carriage return, space, U+0085,
      U+00A0 and the Unicode space separators. */
  predicate IsSpace(c: char)
  {
    var n := c as int;
    (9 <= n <= 13) || n == 0x20 || n == 0x85 || n == 0xA0 || n == 0x1680
    || (0x2000 <= n <= 0x200A) || n == 0x2028 || n == 0x2029 || n == 0x202F
    || n == 0x205F || n == 0x3000
  }

  /** `strings.TrimSpace`: the line without its leading and trailing white
      space. */
  function TrimSpace(s: string): (r: string)
    ensures r != [] ==> !IsSpace(r[0]) && !IsSpace(r[|r| - 1])
  {
    Trim(s, IsSpace)
  }

  /** A trimmed line is the line minus its leading and trailing white space,
      and no more. */
  lemma TrimSpaceStrips(s: string)
    ensures StripsTo(s, IsSpace, TrimSpace(s))
    ensures TrimSpace(s) != [] ==> !IsSpace(TrimSpace(s)[0]) && !IsSpace(TrimSpace(s)[|TrimSpace(s)| - 1])
  {
    TrimStrips(s, IsSpace);
  }

  /** A trimmed line trims to itself. */
  lemma TrimSpaceIdempotent(s: string)
    ensures TrimSpace(TrimSpace(s)) == TrimSpace(s)
  {
    TrimIdempotent(s, IsSpace);
  }
}
