/**
  String primitives the two scripts take from Python: the `\w` and `\s`
  character classes, `str.strip`, `str.split`, `str.join`, `str.replace`,
  whitespace splitting and `str(int)`.
*/
module Text {

  /** The regex class `\w`, restricted to ASCII. */
  predicate IsWordChar(c: char)
  {
    ('a' <= c <= 'z') || ('A' <= c <= 'Z') || ('0' <= c <= '9') || c == '_'
  }

  /** Python's whitespace: the characters for which `str.isspace()` holds, also matched by `\s`. */
  predicate IsSpace(c: char)
  {
    c == ' ' || ('\t' <= c <= '\r') || ('\U{1C}' <= c <= '\U{1F}')
    || c == '\U{85}' || c == '\U{A0}' || c == '\U{1680}'
    || ('\U{2000}' <= c <= '\U{200A}') || c == '\U{2028}' || c == '\U{2029}'
    || c == '\U{202F}' || c == '\U{205F}' || c == '\U{3000}'
  }

  predicate IsBracket(c: char)
  {
    c == '[' || c == ']'
  }

  predicate AllWord(s: string)
  {
    forall k :: 0 <= k < |s| ==> IsWordChar(s[k])
  }

  /** A non-empty run of `\w` characters, as every `(\w+)` group captures. */
  predicate IsWord(s: string)
  {
    |s| > 0 && AllWord(s)
  }

  lemma WordHasNoBracket(s: string)
    requires AllWord(s)
    ensures forall k :: 0 <= k < |s| ==> !IsBracket(s[k]) && !IsSpace(s[k]) && s[k] != '.'
  {
  }

  /** ASCII upper-casing, the case folding `re.IGNORECASE` applies to the keywords. */
  function Upper(c: char): (u: char)
    ensures 'a' <= c <= 'z' ==> 'A' <= u <= 'Z' && u as int == c as int - 32
    ensures !('a' <= c <= 'z') ==> u == c
  {
    if 'a' <= c <= 'z' then (c as int - 32) as char else c
  }

  /** `kw` (written in upper case) occurs at position `i` of `s`, ignoring case. */
  predicate KeywordAt(s: string, i: nat, kw: string)
  {
    i + |kw| <= |s| && forall k :: 0 <= k < |kw| ==> Upper(s[i + k]) == kw[k]
  }

  /** End of the longest run of characters satisfying `p` that starts at `i`. */
  function Span(s: string, i: nat, p: char -> bool): (j: nat)
    requires i <= |s|
    ensures i <= j <= |s|
    ensures forall k :: i <= k < j ==> p(s[k])
    ensures j == |s| || !p(s[j])
    decreases |s| - i
  {
    if i == |s| || !p(s[i]) then i else Span(s, i + 1, p)
  }

  /** Start of the longest run of characters satisfying `p` that ends at `j`. */
  function SpanBack(s: string, j: nat, p: char -> bool): (i: nat)
    requires j <= |s|
    ensures i <= j
    ensures forall k :: i <= k < j ==> p(s[k])
    ensures i == 0 || !p(s[i - 1])
  {
    if j == 0 || !p(s[j - 1]) then j else SpanBack(s, j - 1, p)
  }

  /** `r` is `s[a..]` cut to length `|r|`, with only `p` characters before and after it. */
  ghost predicate StrippedAt(r: string, s: string, a: nat, p: char -> bool)
  {
    a + |r| <= |s| && s[a..][..|r|] == r
    && (forall k :: 0 <= k < a ==> p(s[k]))
    && (forall k :: a + |r| <= k < |s| ==> p(s[k]))
  }

  /** `r` is what is left of `s` once the `p` characters at both ends are removed. */
  ghost predicate IsStripOf(r: string, s: string, p: char -> bool)
  {
    (r != [] ==> !p(r[0]) && !p(r[|r| - 1]))
    && exists a: nat :: StrippedAt(r, s, a, p)
  }

  /**
    Python's `s.strip(chars)`: drop the leading and trailing characters that
    satisfy `p`; whatever lies between is kept, inner occurrences included.
  */
  function Strip(s: string, p: char -> bool): (r: string)
    ensures IsStripOf(r, s, p)
    ensures forall k :: 0 <= k < |r| ==> r[k] in s
  {
    var i := Span(s, 0, p);
    if i == |s| then
      assert StrippedAt([], s, 0, p);
      []
    else
      var j := SpanBack(s, |s|, p);
      var r := s[i..j];
      assert StrippedAt(r, s, i, p);
      r
  }

  /** `s.strip('[]')`. */
  function StripBrackets(s: string): (r: string)
  {
    Strip(s, IsBracket)
  }

  /** `s.strip()`. */
  function Trim(s: string): (r: string)
  {
    Strip(s, IsSpace)
  }

  /** Stripping brackets from a `\w+` capture changes nothing. */
  lemma StripBracketsOfWord(s: string)
    requires AllWord(s)
    ensures StripBrackets(s) == s
  {
  }

  /** Python's `sep.join(parts)`. */
  function Join(sep: string, parts: seq<string>): (r: string)
    ensures parts == [] ==> r == []
    ensures |parts| == 1 ==> r == parts[0]
  {
    if |parts| == 0 then []
    else if |parts| == 1 then parts[0]
    else parts[0] + sep + Join(sep, parts[1..])
  }

  /** Appending one more part adds the separator and that part. */
  lemma {:induction false} JoinSnoc(sep: string, parts: seq<string>, last: string)
    requires parts != []
    ensures Join(sep, parts + [last]) == Join(sep, parts) + sep + last
  {
    if |parts| > 1 {
      JoinSnoc(sep, parts[1..], last);
      assert (parts + [last])[1..] == parts[1..] + [last];
    }
  }

  /** Python's `s.split(d)` for a one-character separator `d`. */
  function Split(s: string, d: char): (parts: seq<string>)
    ensures |parts| >= 1
    ensures forall k :: 0 <= k < |parts| ==> d !in parts[k]
  {
    if s == [] then [[]]
    else
      var rest := Split(s[1..], d);
      if s[0] == d then [[]] + rest
      else [[s[0]] + rest[0]] + rest[1..]
  }

  /** Joining the pieces of a split with the separator gives back the string. */
  lemma {:induction false} JoinSplit(s: string, d: char)
    ensures Join([d], Split(s, d)) == s
  {
    if s != [] {
      var rest := Split(s[1..], d);
      JoinSplit(s[1..], d);
      if s[0] == d {
        assert Split(s, d) == [[]] + rest;
        assert Join([d], Split(s, d)) == [] + [d] + Join([d], rest);
      } else {
        var parts := Split(s, d);
        assert parts == [[s[0]] + rest[0]] + rest[1..];
        if |rest| == 1 {
          assert parts == [[s[0]] + rest[0]];
        } else {
          assert parts[1..] == rest[1..];
          assert Join([d], rest) == rest[0] + [d] + Join([d], rest[1..]);
        }
      }
    }
  }

  /** Splitting a join of separator-free pieces gives back the pieces. */
  lemma {:induction false} SplitJoin(parts: seq<string>, d: char)
    requires |parts| >= 1
    requires forall k :: 0 <= k < |parts| ==> d !in parts[k]
    ensures Split(Join([d], parts), d) == parts
  {
    if |parts| == 1 {
      SplitNoSeparator(parts[0], d);
    } else {
      SplitJoin(parts[1..], d);
      SplitAfterPiece(parts[0], Join([d], parts[1..]), d);
      assert [parts[0]] + parts[1..] == parts;
    }
  }

  lemma {:induction false} SplitNoSeparator(s: string, d: char)
    requires d !in s
    ensures Split(s, d) == [s]
  {
    if s != [] {
      SplitNoSeparator(s[1..], d);
      assert [s[0]] + s[1..] == s;
    }
  }

  lemma {:induction false} SplitAfterPiece(piece: string, rest: string, d: char)
    requires d !in piece
    ensures Split(piece + [d] + rest, d) == [piece] + Split(rest, d)
  {
    if piece == [] {
      assert piece + [d] + rest == [d] + rest;
      assert ([d] + rest)[1..] == rest;
    } else {
      var s := piece + [d] + rest;
      assert s[1..] == piece[1..] + [d] + rest;
      SplitAfterPiece(piece[1..], rest, d);
      assert [piece[0]] + piece[1..] == piece;
    }
  }

  /** Python's `s.split()`: the maximal runs of non-whitespace characters. */
  function SplitWhitespace(s: string): (words: seq<string>)
    ensures forall k :: 0 <= k < |words| ==> |words[k]| > 0
    ensures forall k, m :: 0 <= k < |words| && 0 <= m < |words[k]| ==> !IsSpace(words[k][m])
    decreases |s|
  {
    var i := Span(s, 0, IsSpace);
    if i == |s| then []
    else
      var j := Span(s, i, c => !IsSpace(c));
      [s[i..j]] + SplitWhitespace(s[j..])
  }

  /** Joining whitespace-free pieces with single spaces leaves no whitespace but `' '`. */
  lemma {:induction false} JoinSpacesOnlySpace(words: seq<string>)
    requires forall k, m :: 0 <= k < |words| && 0 <= m < |words[k]| ==> !IsSpace(words[k][m])
    ensures forall k :: 0 <= k < |Join(" ", words)| ==> Join(" ", words)[k] == ' ' || !IsSpace(Join(" ", words)[k])
  {
    if |words| > 1 {
      JoinSpacesOnlySpace(words[1..]);
      var r := Join(" ", words);
      var tail := Join(" ", words[1..]);
      assert r == words[0] + " " + tail;
      forall k | 0 <= k < |r| ensures r[k] == ' ' || !IsSpace(r[k]) {
        if k < |words[0]| {
          assert r[k] == words[0][k];
        } else if k > |words[0]| {
          assert r[k] == tail[k - |words[0]| - 1];
        }
      }
    } else if |words| == 1 {
      assert forall m :: 0 <= m < |words[0]| ==> !IsSpace(words[0][m]);
    }
  }

  /** Python's `s.replace(pat, rep)`: non-overlapping occurrences, left to right. */
  function Replace(s: string, pat: string, rep: string): (r: string)
    requires |pat| > 0
    decreases |s|
  {
    if |s| < |pat| then s
    else if s[..|pat|] == pat then rep + Replace(s[|pat|..], pat, rep)
    else [s[0]] + Replace(s[1..], pat, rep)
  }

  /** Deleting occurrences introduces no character that was not there before. */
  lemma {:induction false} ReplaceByEmptyKeepsChars(s: string, pat: string)
    requires |pat| > 0
    ensures forall k :: 0 <= k < |Replace(s, pat, [])| ==> Replace(s, pat, [])[k] in s
    decreases |s|
  {
    if |s| >= |pat| {
      if s[..|pat|] == pat {
        ReplaceByEmptyKeepsChars(s[|pat|..], pat);
        assert Replace(s, pat, []) == Replace(s[|pat|..], pat, []);
        forall k | 0 <= k < |Replace(s, pat, [])| ensures Replace(s, pat, [])[k] in s {
          assert Replace(s, pat, [])[k] in s[|pat|..];
        }
      } else {
        ReplaceByEmptyKeepsChars(s[1..], pat);
        var r := Replace(s, pat, []);
        assert r == [s[0]] + Replace(s[1..], pat, []);
        forall k | 0 <= k < |r| ensures r[k] in s {
          if k > 0 { assert r[k] in s[1..]; }
        }
      }
    }
  }

  function DigitChar(d: nat): (c: char)
    requires d < 10
    ensures '0' <= c <= '9'
  {
    ('0' as int + d) as char
  }

  /** Python's `str(n)` for a non-negative integer. */
  function Decimal(n: nat): (r: string)
    ensures |r| >= 1
    ensures forall k :: 0 <= k < |r| ==> '0' <= r[k] <= '9'
    ensures (|r| == 1) == (n < 10)
  {
    if n < 10 then [DigitChar(n)] else Decimal(n / 10) + [DigitChar(n % 10)]
  }

  /** Distinct numbers have distinct decimal forms. */
  lemma {:induction false} DecimalInjective(a: nat, b: nat)
    requires Decimal(a) == Decimal(b)
    ensures a == b
  {
    if a >= 10 && b >= 10 {
      var da, db := Decimal(a), Decimal(b);
      assert da[..|da| - 1] == Decimal(a / 10);
      assert db[..|db| - 1] == Decimal(b / 10);
      DecimalInjective(a / 10, b / 10);
      assert DigitChar(a % 10) == da[|da| - 1] == db[|db| - 1] == DigitChar(b % 10);
    } else if a < 10 && b < 10 {
      assert DigitChar(a) == Decimal(a)[0];
    }
  }
}
