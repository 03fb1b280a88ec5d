/** The string operations the back end relies on: `String.prototype.trim`,
    `toLowerCase`, `startsWith`, `split` on a one-character separator, and the
    case-insensitive containment a `$regex` filter with option `i` performs. */
module Text {

  /** The characters `String.prototype.trim` removes: ECMAScript WhiteSpace and LineTerminator. */
  predicate IsSpace(c: char)
  {
    c in Whitespace
  }

  const Whitespace: set<char> := {
    '\t', '\n', '\U{000B}', '\U{000C}', '\r', ' ', '\U{00A0}', '\U{1680}',
    '\U{2000}', '\U{2001}', '\U{2002}', '\U{2003}', '\U{2004}', '\U{2005}', '\U{2006}', '\U{2007}',
    '\U{2008}', '\U{2009}', '\U{200A}', '\U{2028}', '\U{2029}', '\U{202F}', '\U{205F}', '\U{3000}', '\U{FEFF}'}

  predicate AllSpace(s: string)
  {
    forall i :: 0 <= i < |s| ==> IsSpace(s[i])
  }

  /** Neither end of `s` is whitespace. */
  predicate IsTrimmed(s: string)
  {
    s == [] || (!IsSpace(s[0]) && !IsSpace(s[|s| - 1]))
  }

  /** Length of the whitespace run at the start of `s`. */
  function LeadingSpaces(s: string): (k: nat)
    ensures k <= |s| && AllSpace(s[..k])
    ensures k < |s| ==> !IsSpace(s[k])
  {
    if s == [] || !IsSpace(s[0]) then 0
    else
      var k' := LeadingSpaces(s[1..]);
      assert s[..k' + 1] == [s[0]] + s[1..][..k'];
      k' + 1
  }

  /** Length of the whitespace run at the end of `s`. */
  function TrailingSpaces(s: string): (k: nat)
    ensures k <= |s| && AllSpace(s[|s| - k..])
    ensures k < |s| ==> !IsSpace(s[|s| - k - 1])
  {
    if s == [] || !IsSpace(s[|s| - 1]) then 0
    else
      var init := s[..|s| - 1];
      var k' := TrailingSpaces(init);
      assert s[|s| - (k' + 1)..] == init[|init| - k'..] + [s[|s| - 1]];
      k' + 1
  }

  /** `s.trim()`: `s` without its leading and trailing whitespace. */
  function Trim(s: string): (r: string)
    ensures IsTrimmed(r) && |r| <= |s|
  {
    var a := LeadingSpaces(s);
    var t := s[a..];
    var n := TrailingSpaces(t);
    t[..|t| - n]
  }

  /** The trim of `s` is an infix of `s` with only whitespace around it; with
      `TrimOfInfix`, it is the only trimmed such infix. */
  lemma {:induction false} TrimIsInfix(s: string)
    ensures exists a, b :: 0 <= a <= b <= |s| && Trim(s) == s[a..b] && AllSpace(s[..a]) && AllSpace(s[b..])
  {
    var a := LeadingSpaces(s);
    var t := s[a..];
    var n := TrailingSpaces(t);
    var b := a + |t| - n;
    assert Trim(s) == s[a..b] && s[b..] == t[|t| - n..];
  }

  lemma {:induction false} TrimOfTrimmed(s: string)
    requires IsTrimmed(s)
    ensures Trim(s) == s
  {
    assert LeadingSpaces(s) == 0;
    assert TrailingSpaces(s) == 0;
  }

  /** Trimming twice is trimming once. */
  lemma TrimIdempotent(s: string)
    ensures Trim(Trim(s)) == Trim(s)
  {
    TrimOfTrimmed(Trim(s));
  }

  /** `toLowerCase` on one character, for the Basic Latin and Latin-1 letters. */
  function LowerChar(c: char): char
  {
    var n := c as int;
    if 0x41 <= n <= 0x5A || (0xC0 <= n <= 0xDE && n != 0xD7) then (n + 32) as char else c
  }

  predicate IsUpperChar(c: char)
  {
    LowerChar(c) != c
  }

  predicate IsLower(s: string)
  {
    forall i :: 0 <= i < |s| ==> !IsUpperChar(s[i])
  }

  /** `s.toLowerCase()`: same length, no upper-case letter left, and each character
      is the lower-case form of the one it replaces. */
  function Lower(s: string): (r: string)
    ensures |r| == |s| && IsLower(r)
    ensures forall i :: 0 <= i < |s| ==> r[i] == LowerChar(s[i])
  {
    seq(|s|, i requires 0 <= i < |s| => LowerChar(s[i]))
  }

  /** Lower-casing maps whitespace to itself and everything else to non-whitespace. */
  lemma LowerKeepsSpace(c: char)
    ensures IsSpace(LowerChar(c)) == IsSpace(c)
    ensures IsSpace(c) ==> LowerChar(c) == c
  {
  }

  lemma LowerOfSpaces(s: string)
    requires AllSpace(s)
    ensures Lower(s) == s
  {
    forall i | 0 <= i < |s| ensures Lower(s)[i] == s[i] { LowerKeepsSpace(s[i]); }
  }

  /** Lower-casing a slice is slicing the lower-cased string. */
  lemma LowerSlice(s: string, a: nat, b: nat)
    requires a <= b <= |s|
    ensures Lower(s)[a..b] == Lower(s[a..b])
  {
  }

  /** Lower-casing keeps a trimmed string trimmed. */
  lemma LowerKeepsTrimmed(s: string)
    requires IsTrimmed(s)
    ensures IsTrimmed(Lower(s))
  {
    if s != [] {
      LowerKeepsSpace(s[0]);
      LowerKeepsSpace(s[|s| - 1]);
    }
  }

  /** Lower-casing `s` keeps an infix with only whitespace around it trimmed and keeps the
      whitespace around it. */
  lemma {:induction false} LowerAroundInfix(s: string, a: nat, b: nat)
    requires a <= b <= |s| && IsTrimmed(s[a..b]) && AllSpace(s[..a]) && AllSpace(s[b..])
    ensures IsTrimmed(Lower(s)[a..b]) && AllSpace(Lower(s)[..a]) && AllSpace(Lower(s)[b..])
    ensures Lower(s)[a..b] == Lower(s[a..b])
  {
    var l := Lower(s);
    LowerSlice(s, 0, a);
    LowerSlice(s, a, b);
    LowerSlice(s, b, |s|);
    assert s[0..a] == s[..a] && l[0..a] == l[..a] && s[b..|s|] == s[b..] && l[b..|s|] == l[b..];
    LowerOfSpaces(s[..a]);
    LowerOfSpaces(s[b..]);
    LowerKeepsTrimmed(s[a..b]);
  }

  /** Lower-casing neither creates nor removes whitespace, so it commutes with trimming:
      the order in which a schema applies `lowercase` and `trim` does not matter. */
  lemma {:induction false} LowerTrimCommute(s: string)
    ensures Lower(Trim(s)) == Trim(Lower(s))
  {
    TrimIsInfix(s);
    var a, b :| 0 <= a <= b <= |s| && Trim(s) == s[a..b] && AllSpace(s[..a]) && AllSpace(s[b..]);
    LowerAroundInfix(s, a, b);
    TrimOfInfix(Lower(s), a, b);
  }

  /** A string of whitespace trims to the empty string. */
  lemma {:induction false} TrimOfAllSpace(s: string)
    requires AllSpace(s)
    ensures Trim(s) == []
  {
    assert s[..|s|] == s;
    assert LeadingSpaces(s) == |s|;
  }

  /** The leading whitespace run ends at the first character that is not whitespace. */
  lemma {:induction false} LeadingSpacesAt(s: string, a: nat)
    requires a < |s| && AllSpace(s[..a]) && !IsSpace(s[a])
    ensures LeadingSpaces(s) == a
  {
    var k := LeadingSpaces(s);
    assert AllSpace(s[..k]) && (k < |s| ==> !IsSpace(s[k]));
  }

  /** The trailing whitespace run starts after the last character that is not whitespace. */
  lemma {:induction false} TrailingSpacesAt(s: string, b: nat)
    requires 0 < b <= |s| && AllSpace(s[b..]) && !IsSpace(s[b - 1])
    ensures TrailingSpaces(s) == |s| - b
  {
    var n := TrailingSpaces(s);
    assert AllSpace(s[|s| - n..]) && (n < |s| ==> !IsSpace(s[|s| - n - 1]));
  }

  /** A trimmed infix with only whitespace around it is the trim of the whole string. */
  lemma {:induction false} TrimOfInfix(s: string, a: nat, b: nat)
    requires a <= b <= |s| && IsTrimmed(s[a..b]) && AllSpace(s[..a]) && AllSpace(s[b..])
    ensures Trim(s) == s[a..b]
  {
    if a == b {
      assert AllSpace(s) by {
        forall i | 0 <= i < |s| ensures IsSpace(s[i]) {
          if i < a { assert s[..a][i] == s[i]; } else { assert s[b..][i - b] == s[i]; }
        }
      }
      TrimOfAllSpace(s);
    } else {
      assert s[a..b][0] == s[a] && s[a..b][b - a - 1] == s[b - 1];
      LeadingSpacesAt(s, a);
      var t := s[a..];
      assert t[|t| - (|s| - b)..] == s[b..] && t[|t| - (|s| - b) - 1] == s[b - 1];
      TrailingSpacesAt(t, |t| - (|s| - b));
      assert t[..|t| - (|s| - b)] == s[a..b];
    }
  }

  /** `s.startsWith(prefix)`. */
  predicate StartsWith(s: string, prefix: string)
  {
    |prefix| <= |s| && s[..|prefix|] == prefix
  }

  /** Position of the first `sep` in `s`, or `|s|` when there is none. */
  function IndexOf(s: string, sep: char): (k: nat)
    ensures k <= |s| && sep !in s[..k]
    ensures k < |s| ==> s[k] == sep
  {
    if s == [] then 0
    else if s[0] == sep then 0
    else
      var k' := IndexOf(s[1..], sep);
      assert s[..k' + 1] == [s[0]] + s[1..][..k'];
      k' + 1
  }

  /** `s.split(sep)` for a one-character separator: the pieces between consecutive
      separators, one more piece than there are separators, none containing `sep`. */
  function Split(s: string, sep: char): (parts: seq<string>)
    ensures |parts| >= 1
    ensures forall i :: 0 <= i < |parts| ==> sep !in parts[i]
    decreases |s|
  {
    var k := IndexOf(s, sep);
    if k == |s| then [s] else [s[..k]] + Split(s[k + 1..], sep)
  }

  /** `parts.join(sep)`. */
  function Join(parts: seq<string>, sep: char): string
    requires |parts| >= 1
  {
    if |parts| == 1 then parts[0] else parts[0] + [sep] + Join(parts[1..], sep)
  }

  /** Splitting loses nothing: joining the pieces back gives the original string. */
  lemma {:induction false} JoinSplit(s: string, sep: char)
    ensures Join(Split(s, sep), sep) == s
    decreases |s|
  {
    var k := IndexOf(s, sep);
    if k < |s| {
      var rest := s[k + 1..];
      JoinSplit(rest, sep);
      var parts := Split(s, sep);
      assert parts[0] == s[..k] && parts[1..] == Split(rest, sep);
      assert Join(parts, sep) == s[..k] + [sep] + Join(Split(rest, sep), sep);
      assert s == s[..k] + [sep] + rest;
    }
  }

  /** The second piece of `s.split(sep)` when `s` has a separator at `k` and none before:
      the text after that separator up to the next one. */
  lemma {:induction false} SecondPiece(s: string, sep: char, k: nat)
    requires k < |s| && s[k] == sep && sep !in s[..k]
    ensures |Split(s, sep)| >= 2
    ensures Split(s, sep)[1] == s[k + 1..][..IndexOf(s[k + 1..], sep)]
  {
    var k' := IndexOf(s, sep);
    assert k' == k;
    var rest := s[k + 1..];
    var j := IndexOf(rest, sep);
    if j == |rest| {
      assert rest[..j] == rest;
    }
  }

  /** `needle` occurs in `hay` as a contiguous piece. */
  predicate IsInfix(needle: string, hay: string)
  {
    exists i :: 0 <= i <= |hay| - |needle| && OccursAt(needle, hay, i)
  }

  predicate OccursAt(needle: string, hay: string, i: int)
  {
    0 <= i <= |hay| - |needle| && hay[i..i + |needle|] == needle
  }

  /** Case-insensitive containment, what `{ $regex: needle, $options: 'i' }` tests
      for a needle without regular-expression metacharacters. */
  predicate ContainsIgnoringCase(hay: string, needle: string)
  {
    IsInfix(Lower(needle), Lower(hay))
  }
}
