/** String helpers with the JavaScript meanings the chat code relies on:
    the whitespace class of `\s` and `trim`, `includes`, and `toLowerCase`
    restricted to ASCII letters; `StartsWith` and `OccursAt` anchor a regular
    expression match at a position. */
module Text {

  /** The characters JavaScript counts as whitespace in `\s` and `trim`:
      WhiteSpace (TAB, VT, FF, ZWNBSP and the Unicode Zs category) and
      LineTerminator (LF, CR, LS, PS). */
  predicate IsSpace(c: char)
  {
    || c == '\t' || c == '\n' || c == '\U{000B}' || c == '\U{000C}' || c == '\r'
    || c == ' ' || c == '\U{00A0}' || c == '\U{1680}'
    || ('\U{2000}' <= c <= '\U{200A}')
    || c == '\U{2028}' || c == '\U{2029}' || c == '\U{202F}' || c == '\U{205F}'
    || c == '\U{3000}' || c == '\U{FEFF}'
  }

  predicate IsBlank(s: string)
  {
    forall i :: 0 <= i < |s| ==> IsSpace(s[i])
  }

  /** Length of the longest whitespace prefix of `s`: what a greedy `\s*` consumes. */
  function SpaceRun(s: string): (n: nat)
    ensures n <= |s|
    ensures forall j :: 0 <= j < n ==> IsSpace(s[j])
    ensures n < |s| ==> !IsSpace(s[n])
  {
    if |s| > 0 && IsSpace(s[0]) then 1 + SpaceRun(s[1..]) else 0
  }

  /** Length of the longest whitespace suffix of `s`. */
  function TrailingSpaceRun(s: string): (n: nat)
    ensures n <= |s|
    ensures forall j :: |s| - n <= j < |s| ==> IsSpace(s[j])
    ensures n < |s| ==> !IsSpace(s[|s| - n - 1])
  {
    if |s| > 0 && IsSpace(s[|s| - 1]) then 1 + TrailingSpaceRun(s[..|s| - 1]) else 0
  }

  /** `r` is the part of `s` starting at `a` with nothing but whitespace
      before and after it. */
  predicate Padded(s: string, r: string, a: int)
  {
    0 <= a && a + |r| <= |s| && r == s[a..a + |r|] && IsBlank(s[..a]) && IsBlank(s[a + |r|..])
  }

  /** `String.prototype.trim`: the input with its leading and trailing whitespace removed. */
  function Trim(s: string): (r: string)
    ensures |r| <= |s|
    ensures r == [] <==> IsBlank(s)
    ensures r != [] ==> !IsSpace(r[0]) && !IsSpace(r[|r| - 1])
    ensures exists a :: Padded(s, r, a)
  {
    var lead := SpaceRun(s);
    if lead == |s| then
      assert Padded(s, [], lead) by {
        assert s[..lead] == s && s[lead..] == [];
      }
      []
    else
      var rest := s[lead..];
      var r := rest[..|rest| - TrailingSpaceRun(rest)];
      assert Padded(s, r, lead) by {
        assert r == s[lead..lead + |r|];
        assert s[lead + |r|..] == rest[|r|..];
      }
      r
  }

  predicate StartsWith(s: string, prefix: string)
  {
    |prefix| <= |s| && s[..|prefix|] == prefix
  }

  /** `w` occurs in `s` starting at index `i`. */
  predicate OccursAt(s: string, w: string, i: int)
  {
    0 <= i && i + |w| <= |s| && s[i..i + |w|] == w
  }

  /** `String.prototype.includes`. */
  predicate Contains(s: string, w: string)
  {
    exists i :: 0 <= i <= |s| - |w| && OccursAt(s, w, i)
  }

  /** One mismatching character rules out an occurrence. */
  lemma CharMismatch(s: string, w: string, i: nat, k: nat)
    requires k < |w| && i + k < |s| && s[i + k] != w[k]
    ensures !OccursAt(s, w, i)
  {
    if i + |w| <= |s| {
      assert s[i..i + |w|][k] == s[i + k];
    }
  }

  /** A string with a character that appears nowhere in `s` does not occur in `s`. */
  lemma AbsentChar(s: string, w: string, k: nat)
    requires k < |w| && w[k] !in s
    ensures !Contains(s, w)
  {
    forall i | 0 <= i <= |s| - |w|
      ensures !OccursAt(s, w, i)
    {
      CharMismatch(s, w, i, k);
    }
  }

  /** When no occurrence of `w` in `p + s` starts inside `p`, the prefix
      `p` neither creates nor hides an occurrence. */
  lemma PrefixShift(p: string, s: string, w: string)
    requires forall i :: 0 <= i < |p| ==> !OccursAt(p + s, w, i)
    ensures Contains(p + s, w) <==> Contains(s, w)
  {
    if Contains(p + s, w) {
      var i :| 0 <= i <= |p + s| - |w| && OccursAt(p + s, w, i);
      assert (p + s)[i..i + |w|] == s[i - |p|..i - |p| + |w|];
      assert OccursAt(s, w, i - |p|);
    }
    if Contains(s, w) {
      var j :| 0 <= j <= |s| - |w| && OccursAt(s, w, j);
      assert (p + s)[j + |p|..j + |p| + |w|] == s[j..j + |w|];
      assert OccursAt(p + s, w, j + |p|);
    }
  }

  function LowerChar(c: char): char
  {
    if 'A' <= c <= 'Z' then (c as int + 32) as char else c
  }

  /** `String.prototype.toLowerCase`, on ASCII letters only. */
  function Lower(s: string): (r: string)
    ensures |r| == |s|
    ensures forall i :: 0 <= i < |s| ==> r[i] == LowerChar(s[i])
  {
    if s == [] then [] else [LowerChar(s[0])] + Lower(s[1..])
  }

  /** Lowercasing twice is lowercasing once. */
  lemma LowerIdempotent(s: string)
    ensures Lower(Lower(s)) == Lower(s)
  {
    forall i | 0 <= i < |s|
      ensures Lower(Lower(s))[i] == Lower(s)[i]
    {
    }
  }
}
