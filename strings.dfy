/**
 * The PHP and JavaScript string primitives the Automation Helper plugin relies on.
 * A PHP string is a byte string: here every char stands for one byte (0..255).
 */
module Strings {

  /** The characters PHP's trim() strips by default: " \t\n\r\0\x0B". */
  predicate IsTrimChar(c: char) {
    c == ' ' || c == '\t' || c == '\n' || c == '\r' || c == '\0' || c == '\U{000B}'
  }

  /** ltrim($s): drops the leading run of trim characters. */
  function TrimLeft(s: string): (r: string)
    ensures |r| <= |s| && r == s[|s| - |r|..]
    ensures r == [] || !IsTrimChar(r[0])
    ensures forall i :: 0 <= i < |s| - |r| ==> IsTrimChar(s[i])
  {
    if s != [] && IsTrimChar(s[0]) then TrimLeft(s[1..]) else s
  }

  /** rtrim($s): drops the trailing run of trim characters. */
  function TrimRight(s: string): (r: string)
    ensures |r| <= |s| && r == s[..|r|]
    ensures r == [] || !IsTrimChar(r[|r| - 1])
    ensures forall i :: |r| <= i < |s| ==> IsTrimChar(s[i])
  {
    if s != [] && IsTrimChar(s[|s| - 1]) then TrimRight(s[..|s| - 1]) else s
  }

  /** trim($s): empty exactly when $s holds trim characters only; otherwise it
      begins and ends with a character that is not one. */
  function Trim(s: string): (r: string)
    ensures |r| <= |s|
    ensures r != [] ==> r[0] in s
    ensures r == [] <==> forall i :: 0 <= i < |s| ==> IsTrimChar(s[i])
    ensures r != [] ==> !IsTrimChar(r[0]) && !IsTrimChar(r[|r| - 1])
  {
    TrimRight(TrimLeft(s))
  }

  /** The first character of trim($s) is the first character of $s that is
      not a trim character. */
  lemma TrimFirst(s: string, k: nat)
    requires k < |s| && !IsTrimChar(s[k]) && forall i :: 0 <= i < k ==> IsTrimChar(s[i])
    ensures Trim(s) != [] && Trim(s)[0] == s[k]
  {
    var l := TrimLeft(s);
    assert l == s[|s| - |l|..];
    assert |s| - |l| == k;
  }

  /** What a pattern ending in `$` has to match in full: without the D
      modifier, PCRE's `$` matches at the very end and before one final newline. */
  function DollarSubject(s: string): (t: string)
    ensures |s| - 1 <= |t| <= |s| && t == s[..|t|]
  {
    if s != [] && s[|s| - 1] == '\n' then s[..|s| - 1] else s
  }

  /** PHP's empty() on a string: true for "" and for "0". */
  predicate PhpEmpty(s: string) {
    s == "" || s == "0"
  }

  /** strtoupper() on one byte (ASCII letters only, as in PHP 8.2 and later). */
  function UpperChar(c: char): char {
    if 'a' <= c <= 'z' then (c as int - 32) as char else c
  }

  /** strtoupper($s) */
  function ToUpper(s: string): (r: string)
    ensures |r| == |s| && forall i :: 0 <= i < |s| ==> r[i] == UpperChar(s[i])
  {
    if s == [] then [] else [UpperChar(s[0])] + ToUpper(s[1..])
  }

  predicate IsDigit(c: char) {
    '0' <= c <= '9'
  }

  function DigitChar(d: int): (c: char)
    requires 0 <= d < 10
    ensures IsDigit(c)
  {
    ('0' as int + d) as char
  }

  /** The number a string of decimal digits spells, most significant digit first. */
  function DecimalValue(s: string): int {
    if s == [] then 0 else 10 * DecimalValue(s[..|s| - 1]) + (s[|s| - 1] as int - '0' as int)
  }

  /** Decimal form of a natural number, no leading zeros. */
  function NatToString(n: nat): (r: string)
    ensures |r| >= 1 && forall i :: 0 <= i < |r| ==> IsDigit(r[i])
    ensures r[0] == '0' ==> n == 0
    ensures DecimalValue(r) == n
  {
    if n < 10 then [DigitChar(n)]
    else
      var prefix := NatToString(n / 10);
      assert (prefix + [DigitChar(n % 10)])[..|prefix|] == prefix;
      prefix + [DigitChar(n % 10)]
  }

  /** PHP's conversion of an integer to a string (string interpolation, `.`). */
  function IntToString(i: int): string {
    if i < 0 then "-" + NatToString(-i) else NatToString(i)
  }

  /** implode($sep, $items) */
  function Implode(sep: string, items: seq<string>): string {
    if items == [] then ""
    else if |items| == 1 then items[0]
    else items[0] + sep + Implode(sep, items[1..])
  }

  /** Byte-wise order of two strings, as PHP compares two non-numeric strings:
      the first differing byte decides, and a proper prefix comes first. */
  predicate LexLe(a: string, b: string) {
    a == [] || (b != [] && (a[0] < b[0] || (a[0] == b[0] && LexLe(a[1..], b[1..]))))
  }

  lemma {:induction false} LexLeTotal(a: string, b: string)
    ensures LexLe(a, b) || LexLe(b, a)
  {
    if a != [] && b != [] && a[0] == b[0] {
      LexLeTotal(a[1..], b[1..]);
    }
  }

  lemma {:induction false} LexLeTransitive(a: string, b: string, c: string)
    requires LexLe(a, b) && LexLe(b, c)
    ensures LexLe(a, c)
  {
    if a != [] && b != [] && c != [] && a[0] == b[0] && b[0] == c[0] {
      LexLeTransitive(a[1..], b[1..], c[1..]);
    }
  }

  predicate Sorted(s: seq<string>) {
    forall i, j :: 0 <= i < j < |s| ==> LexLe(s[i], s[j])
  }

  lemma PrependSorted(y: string, r: seq<string>)
    requires Sorted(r) && (r != [] ==> LexLe(y, r[0]))
    ensures Sorted([y] + r)
  {
    forall k | 0 <= k < |r|
      ensures LexLe(y, r[k])
    {
      if k > 0 {
        LexLeTransitive(y, r[0], r[k]);
      }
    }
  }

  /** Inserts one string into a sorted sequence. */
  function Insert(x: string, s: seq<string>): (r: seq<string>)
    requires Sorted(s)
    ensures Sorted(r) && multiset(r) == multiset(s) + multiset{x}
    ensures r[0] == x || (s != [] && r[0] == s[0])
  {
    if s == [] then [x]
    else if LexLe(x, s[0]) then
      PrependSorted(x, s);
      [x] + s
    else
      LexLeTotal(x, s[0]);
      assert s == [s[0]] + s[1..];
      var rest := Insert(x, s[1..]);
      assert rest[0] == x || LexLe(s[0], rest[0]);
      PrependSorted(s[0], rest);
      [s[0]] + rest
  }

  /** PHP's sort() on a list of non-numeric strings: ascending byte order. */
  function SortStrings(s: seq<string>): (r: seq<string>)
    ensures Sorted(r) && multiset(r) == multiset(s)
  {
    if s == [] then []
    else
      assert s == [s[0]] + s[1..];
      Insert(s[0], SortStrings(s[1..]))
  }

  /** Puts a backslash before every character of `special` (PHP's addcslashes
      with a plain character list, and a regex escape by replacement). */
  function Escape(s: string, special: set<char>): (r: string)
    ensures |r| >= |s|
  {
    if s == [] then []
    else (if s[0] in special then ['\\', s[0]] else [s[0]]) + Escape(s[1..], special)
  }

  /** Drops each backslash and keeps the character after it. */
  function Unescape(s: string): string {
    if s == [] then []
    else if s[0] == '\\' && |s| >= 2 then [s[1]] + Unescape(s[2..])
    else [s[0]] + Unescape(s[1..])
  }

  /** Escaping loses nothing as long as the backslash itself is escaped. */
  lemma {:induction false} UnescapeEscape(s: string, special: set<char>)
    requires '\\' in special
    ensures Unescape(Escape(s, special)) == s
  {
    if s != [] {
      var rest := Escape(s[1..], special);
      UnescapeEscape(s[1..], special);
      if s[0] in special {
        assert Escape(s, special) == ['\\', s[0]] + rest;
        assert (['\\', s[0]] + rest)[2..] == rest;
      } else {
        assert Escape(s, special) == [s[0]] + rest;
        assert ([s[0]] + rest)[1..] == rest;
      }
    }
  }

  /** Read left to right, as LIKE and a regex read it: every backslash escapes
      the character after it, which is one of `special`, and no character of
      `special` stands on its own. */
  predicate AllEscaped(r: string, special: set<char>) {
    if r == [] then true
    else if r[0] == '\\' then |r| >= 2 && r[1] in special && AllEscaped(r[2..], special)
    else r[0] !in special && AllEscaped(r[1..], special)
  }

  /** Escaping leaves no character of `special` bare, provided the backslash
      is one of them. */
  lemma {:induction false} EscapeAllEscaped(s: string, special: set<char>)
    requires '\\' in special
    ensures AllEscaped(Escape(s, special), special)
  {
    if s != [] {
      var rest := Escape(s[1..], special);
      EscapeAllEscaped(s[1..], special);
      if s[0] in special {
        assert Escape(s, special) == ['\\', s[0]] + rest;
        assert (['\\', s[0]] + rest)[2..] == rest;
      } else {
        assert Escape(s, special) == [s[0]] + rest;
        assert ([s[0]] + rest)[1..] == rest;
      }
    }
  }

  /** A fully escaped string is the escaping of what it stands for. */
  lemma {:induction false} EscapedCanonical(r: string, special: set<char>)
    requires AllEscaped(r, special)
    ensures Escape(Unescape(r), special) == r
  {
    if r != [] {
      if r[0] == '\\' {
        var u := Unescape(r[2..]);
        EscapedCanonical(r[2..], special);
        assert Unescape(r) == [r[1]] + u;
        assert ([r[1]] + u)[1..] == u;
        assert r == ['\\', r[1]] + r[2..];
      } else {
        var u := Unescape(r[1..]);
        EscapedCanonical(r[1..], special);
        assert Unescape(r) == [r[0]] + u;
        assert ([r[0]] + u)[1..] == u;
        assert r == [r[0]] + r[1..];
      }
    }
  }

  /** The escaping of s is the one fully escaped string that stands for s. */
  lemma EscapeCharacterised(s: string, r: string, special: set<char>)
    requires '\\' in special
    ensures r == Escape(s, special) <==> AllEscaped(r, special) && Unescape(r) == s
  {
    if r == Escape(s, special) {
      EscapeAllEscaped(s, special);
      UnescapeEscape(s, special);
    }
    if AllEscaped(r, special) && Unescape(r) == s {
      EscapedCanonical(r, special);
    }
  }
}
