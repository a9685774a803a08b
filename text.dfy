/**
 * The JavaScript string operations the scraper relies on (trim, split, includes,
 * startsWith, global replace of one character, regex character classes, String(n),
 * Number/isNaN and parseInt), written over Dafny strings.
 */
module JsText {

  datatype Option<+T> = None | Some(value: T)

  /** White space as String.prototype.trim and the regex class \s see it: the
      WhiteSpace and LineTerminator code points of ECMAScript. */
  predicate IsSpace(c: char) {
    || c == ' ' || c == '\t' || c == '\n' || c == '\r' || c == '\U{000B}' || c == '\U{000C}'
    || c == '\U{00A0}' || c == '\U{1680}' || ('\U{2000}' <= c <= '\U{200A}')
    || c == '\U{2028}' || c == '\U{2029}' || c == '\U{202F}' || c == '\U{205F}'
    || c == '\U{3000}' || c == '\U{FEFF}'
  }

  /** The regex class \d: ASCII digits only. */
  predicate IsDigit(c: char) {
    '0' <= c <= '9'
  }

  /** No white space at either end. */
  predicate Trimmed(s: string) {
    s == [] || (!IsSpace(s[0]) && !IsSpace(s[|s| - 1]))
  }

  function TrimStart(s: string): (r: string)
    ensures |r| <= |s| && r == s[|s| - |r|..]
    ensures r == [] || !IsSpace(r[0])
    ensures forall i :: 0 <= i < |s| - |r| ==> IsSpace(s[i])
  {
    if s != [] && IsSpace(s[0]) then TrimStart(s[1..]) else s
  }

  function TrimEnd(s: string): (r: string)
    ensures |r| <= |s| && r == s[..|r|]
    ensures r == [] || !IsSpace(r[|r| - 1])
    ensures forall i :: |r| <= i < |s| ==> IsSpace(s[i])
  {
    if s != [] && IsSpace(s[|s| - 1]) then TrimEnd(s[..|s| - 1]) else s
  }

  /** String.prototype.trim: the input between its leading blanks (the first
      |s| - |TrimStart(s)| characters, TrimStart(s) being the rest) and its
      trailing blanks. */
  function Trim(s: string): (r: string)
    ensures Trimmed(r)
    ensures forall c :: c in r ==> c in s
    ensures r == [] <==> forall i :: 0 <= i < |s| ==> IsSpace(s[i])
    ensures |s| - |TrimStart(s)| + |r| <= |s|
    ensures r == TrimStart(s)[..|r|]
    ensures forall i :: 0 <= i < |s| - |TrimStart(s)| ==> IsSpace(s[i])
    ensures forall i :: |s| - |TrimStart(s)| + |r| <= i < |s| ==> IsSpace(s[i])
  {
    var front := TrimStart(s);
    TrimSlice(s, front, TrimEnd(front));
    TrimEnd(front)
  }

  /** A prefix r of a suffix front of s, with only blanks before front and after
      r inside front, is the slice of s between two runs of blanks; when neither
      end of front nor r is blank, r is trimmed and empty only on a blank s. */
  lemma TrimSlice(s: string, front: string, r: string)
    requires |front| <= |s| && front == s[|s| - |front|..]
    requires front == [] || !IsSpace(front[0])
    requires forall i :: 0 <= i < |s| - |front| ==> IsSpace(s[i])
    requires |r| <= |front| && r == front[..|r|]
    requires r == [] || !IsSpace(r[|r| - 1])
    requires forall i :: |r| <= i < |front| ==> IsSpace(front[i])
    ensures var k := |s| - |front|;
      && Trimmed(r)
      && (forall c :: c in r ==> c in s)
      && (r == [] <==> forall i :: 0 <= i < |s| ==> IsSpace(s[i]))
      && k + |r| <= |s|
      && r == s[k..k + |r|]
      && (forall i :: 0 <= i < k ==> IsSpace(s[i]))
      && (forall i :: k + |r| <= i < |s| ==> IsSpace(s[i]))
  {
    var k := |s| - |front|;
    assert r == s[k..k + |r|];
    forall i | k + |r| <= i < |s| ensures IsSpace(s[i]) {
      assert s[i] == front[i - k];
    }
    forall c | c in r ensures c in s {
      var j :| 0 <= j < |r| && r[j] == c;
      assert s[k + j] == c;
    }
    if r != [] {
      assert r[0] == front[0] == s[k];
    }
  }

  lemma TrimOfTrimmed(s: string)
    requires Trimmed(s)
    ensures Trim(s) == s
  {
  }

  /** TrimEnd removes exactly the blanks appended after a non-blank end. */
  lemma {:induction false} TrimEndDropsBlanks(p: string, blanks: string)
    requires p == [] || !IsSpace(p[|p| - 1])
    requires forall i :: 0 <= i < |blanks| ==> IsSpace(blanks[i])
    ensures TrimEnd(p + blanks) == p
    decreases |blanks|
  {
    if blanks == [] {
      assert p + blanks == p;
    } else {
      var s := p + blanks;
      assert s[|s| - 1] == blanks[|blanks| - 1];
      assert s[..|s| - 1] == p + blanks[..|blanks| - 1];
      TrimEndDropsBlanks(p, blanks[..|blanks| - 1]);
    }
  }

  /** Trimming a trimmed string with blanks appended gives the string back. */
  lemma TrimDropsTrailingSpace(p: string, blanks: string)
    requires Trimmed(p) && p != []
    requires forall i :: 0 <= i < |blanks| ==> IsSpace(blanks[i])
    ensures Trim(p + blanks) == p
  {
    var s := p + blanks;
    assert s[0] == p[0];
    assert TrimStart(s) == s;
    TrimEndDropsBlanks(p, blanks);
  }

  /** s.split(sep)[0]: everything before the first sep. */
  function UpTo(s: string, sep: char): (r: string)
    ensures |r| <= |s| && r == s[..|r|]
    ensures sep !in r
    ensures |r| < |s| ==> s[|r|] == sep
  {
    if s == [] || s[0] == sep then [] else [s[0]] + UpTo(s[1..], sep)
  }

  lemma UpToWithoutSep(s: string, sep: char)
    requires sep !in s
    ensures UpTo(s, sep) == s
  {
  }

  /** A prefix without the separator lies wholly before the first separator. */
  lemma {:induction false} UpToAppend(a: string, b: string, sep: char)
    requires sep !in a
    ensures UpTo(a + b, sep) == a + UpTo(b, sep)
    decreases |a|
  {
    if a == [] {
      assert a + b == b;
    } else {
      assert (a + b)[0] == a[0] && (a + b)[1..] == a[1..] + b;
      UpToAppend(a[1..], b, sep);
    }
  }

  /** The first line: everything before the first line break. */
  function FirstLine(s: string): string {
    UpTo(s, '\n')
  }

  /** The inverse of SplitOn: the parts joined by the separator. */
  function Join(parts: seq<string>, sep: char): string {
    if parts == [] then []
    else if |parts| == 1 then parts[0]
    else parts[0] + [sep] + Join(parts[1..], sep)
  }

  /** s.split(sep) for a one-character separator. */
  function SplitOn(s: string, sep: char): (parts: seq<string>)
    ensures |parts| >= 1 && parts[0] == UpTo(s, sep)
    ensures forall p :: p in parts ==> sep !in p
    ensures Join(parts, sep) == s
    decreases |s|
  {
    var head := UpTo(s, sep);
    if |head| == |s| then [s]
    else
      var rest := SplitOn(s[|head| + 1..], sep);
      assert s == head + [sep] + s[|head| + 1..];
      [head] + rest
  }

  /** String.prototype.startsWith */
  predicate StartsWith(s: string, prefix: string) {
    |prefix| <= |s| && s[..|prefix|] == prefix
  }

  /** String.prototype.includes */
  predicate Contains(s: string, sub: string)
    decreases |s|
  {
    StartsWith(s, sub) || (s != [] && Contains(s[1..], sub))
  }

  /** sub occurs in s at position i. */
  predicate OccursAt(s: string, sub: string, i: int) {
    0 <= i <= |s| - |sub| && s[i..i + |sub|] == sub
  }

  /** Contains holds exactly when the substring occurs at some position. */
  lemma {:induction false} ContainsIffOccurs(s: string, sub: string)
    ensures Contains(s, sub) <==> exists i :: OccursAt(s, sub, i)
    decreases |s|
  {
    if exists i :: OccursAt(s, sub, i) {
      var i :| OccursAt(s, sub, i);
      if i > 0 {
        assert OccursAt(s[1..], sub, i - 1);
        ContainsIffOccurs(s[1..], sub);
      }
    }
    if Contains(s, sub) && !StartsWith(s, sub) {
      ContainsIffOccurs(s[1..], sub);
      var i :| OccursAt(s[1..], sub, i);
      assert OccursAt(s, sub, i + 1);
    }
    if StartsWith(s, sub) {
      assert OccursAt(s, sub, 0);
    }
  }

  /** s.replace(/c/g, ''): s with every occurrence of c removed. */
  function RemoveAll(s: string, c: char): (r: string)
    ensures |r| <= |s|
    ensures c !in r
    ensures forall x :: x != c ==> (x in r <==> x in s)
    ensures c !in s ==> r == s
  {
    if s == [] then [] else (if s[0] == c then [] else [s[0]]) + RemoveAll(s[1..], c)
  }

  lemma {:induction false} RemoveAllDistributes(a: string, b: string, c: char)
    ensures RemoveAll(a + b, c) == RemoveAll(a, c) + RemoveAll(b, c)
    decreases |a|
  {
    if a == [] {
      assert a + b == b;
    } else {
      var head := if a[0] == c then [] else [a[0]];
      assert (a + b)[0] == a[0];
      assert (a + b)[1..] == a[1..] + b;
      RemoveAllDistributes(a[1..], b, c);
      Regroup(head, RemoveAll(a[1..], c), RemoveAll(b, c));
    }
  }

  lemma Regroup<T>(h: seq<T>, x: seq<T>, y: seq<T>)
    ensures h + (x + y) == (h + x) + y
  {
  }

  /** The replace keeps every other character as often as it occurs. */
  lemma {:induction false} RemoveAllCount(s: string, c: char)
    ensures multiset(RemoveAll(s, c)) == multiset(s)[c := 0]
  {
    if s != [] {
      assert s == [s[0]] + s[1..];
      RemoveAllCount(s[1..], c);
    }
  }

  /** s.replace(/\s/g, ''): s with all white space removed. */
  function RemoveSpaces(s: string): (r: string)
    ensures |r| <= |s|
    ensures forall i :: 0 <= i < |r| ==> !IsSpace(r[i])
  {
    if s == [] then [] else (if IsSpace(s[0]) then [] else [s[0]]) + RemoveSpaces(s[1..])
  }

  /** The first n characters, or all of them when there are fewer. */
  function Prefix(s: string, n: nat): (r: string)
    ensures r == s[..if n < |s| then n else |s|]
  {
    if n < |s| then s[..n] else s
  }

  /** The regex /^\d+$/. */
  predicate AllDigits(s: string) {
    s != [] && forall i :: 0 <= i < |s| ==> IsDigit(s[i])
  }

  /** The value of a string of decimal digits. */
  function DigitsValue(s: string): nat
    requires forall i :: 0 <= i < |s| ==> IsDigit(s[i])
  {
    if s == [] then 0
    else
      assert IsDigit(s[|s| - 1]);
      DigitsValue(s[..|s| - 1]) * 10 + (s[|s| - 1] as int - '0' as int)
  }

  function DigitChar(d: nat): (c: char)
    requires d < 10
    ensures IsDigit(c) && c as int - '0' as int == d
  {
    ('0' as int + d) as char
  }

  /** String(n) for a natural number: its decimal digits. */
  function NatToString(n: nat): (r: string)
    ensures AllDigits(r)
    ensures DigitsValue(r) == n
    ensures r[0] == '0' ==> r == "0"
  {
    if n < 10 then [DigitChar(n)]
    else
      var init := NatToString(n / 10);
      var r := init + [DigitChar(n % 10)];
      assert r[..|r| - 1] == init;
      r
  }

  /** The longest prefix of s made of decimal digits. */
  function LeadingDigits(s: string): (r: string)
    ensures |r| <= |s| && r == s[..|r|]
    ensures forall i :: 0 <= i < |r| ==> IsDigit(r[i])
    ensures |r| < |s| ==> !IsDigit(s[|r|])
  {
    if s != [] && IsDigit(s[0]) then [s[0]] + LeadingDigits(s[1..]) else []
  }

  /**
   * Whether Number(s) is a number rather than NaN, for the strings the price rule
   * gives it (every '.' already removed): blank text counts as 0, otherwise an
   * optional sign and decimal digits between blanks. Exponents, hexadecimal,
   * binary and octal literals and "Infinity" are not recognised.
   */
  predicate IsNumeric(s: string)
    ensures IsNumeric(s) && Trim(s) != [] ==> ParseInt(s).Some?
    ensures IsNumeric(s) ==> forall i :: 0 <= i < |s| ==> NumberChar(s[i])
  {
    var t := Trim(s);
    NumberCharsOf(s, TrimStart(s), t);
    t == [] || AllDigits(t) || (|t| > 1 && (t[0] == '+' || t[0] == '-') && AllDigits(t[1..]))
  }

  /** A character the numeric test can accept: white space, a digit or a sign. */
  predicate NumberChar(c: char) {
    IsSpace(c) || IsDigit(c) || c == '+' || c == '-'
  }

  /** A string whose trimmed text holds only digits and signs holds only those and blanks. */
  lemma NumberCharsOf(s: string, front: string, t: string)
    requires |front| <= |s| && front == s[|s| - |front|..]
    requires |t| <= |front| && t == front[..|t|]
    requires forall i :: 0 <= i < |s| - |front| ==> IsSpace(s[i])
    requires forall i :: |s| - |front| + |t| <= i < |s| ==> IsSpace(s[i])
    ensures (forall i :: 0 <= i < |t| ==> NumberChar(t[i])) ==> forall i :: 0 <= i < |s| ==> NumberChar(s[i])
  {
    var k := |s| - |front|;
    if forall i :: 0 <= i < |t| ==> NumberChar(t[i]) {
      forall i | 0 <= i < |s|
        ensures NumberChar(s[i])
      {
        if k <= i < k + |t| {
          assert s[i] == front[i - k] == t[i - k];
        }
      }
    }
  }

  /**
   * parseInt(s) with no radix, for decimal text: leading blanks, an optional sign,
   * then as many digits as there are; None stands for NaN. A "0x" prefix is read
   * as the number 0, not as hexadecimal.
   */
  function ParseInt(s: string): (r: Option<int>)
    ensures var t := TrimStart(s);
      r.Some? <==> (|t| > 0 && IsDigit(t[0])) || (|t| > 1 && (t[0] == '+' || t[0] == '-') && IsDigit(t[1]))
    ensures var t := TrimStart(s);
      r.Some? && IsDigit(t[0]) ==> r.value == DigitsValue(LeadingDigits(t))
    ensures var t := TrimStart(s);
      r.Some? && t[0] == '+' ==> r.value == DigitsValue(LeadingDigits(t[1..]))
    ensures var t := TrimStart(s);
      r.Some? && t[0] == '-' ==> r.value + DigitsValue(LeadingDigits(t[1..])) == 0
  {
    var t := TrimStart(s);
    var signed := t != [] && (t[0] == '+' || t[0] == '-');
    var body := if signed then t[1..] else t;
    var digits := LeadingDigits(body);
    assert digits != [] <==> body != [] && IsDigit(body[0]);
    if digits == [] then None
    else
      var magnitude: int := DigitsValue(digits);
      Some(if signed && t[0] == '-' then -magnitude else magnitude)
  }

  /** An all-digit string is its own run of leading digits. */
  lemma {:induction false} LeadingDigitsOfDigits(s: string)
    requires forall i :: 0 <= i < |s| ==> IsDigit(s[i])
    ensures LeadingDigits(s) == s
    decreases |s|
  {
    if s != [] {
      LeadingDigitsOfDigits(s[1..]);
      assert s == [s[0]] + s[1..];
    }
  }

  /** parseInt reads String(n) back as n. */
  lemma ParseIntOfNatToString(n: nat)
    ensures ParseInt(NatToString(n)) == Some(n)
  {
    var s := NatToString(n);
    assert !IsSpace(s[0]);
    assert TrimStart(s) == s;
    LeadingDigitsOfDigits(s);
  }

  function ToLowerChar(c: char): char {
    if 'A' <= c <= 'Z' then (c as int - 'A' as int + 'a' as int) as char else c
  }

  /** String.prototype.toLowerCase, for ASCII letters. */
  function ToLower(s: string): (r: string)
    ensures |r| == |s| && forall i :: 0 <= i < |s| ==> r[i] == ToLowerChar(s[i])
  {
    if s == [] then [] else [ToLowerChar(s[0])] + ToLower(s[1..])
  }

  /** JavaScript's `a || b` for strings: the first unless it is empty. */
  function Or(a: string, b: string): (r: string)
    ensures a != [] ==> r == a
    ensures a == [] ==> r == b
    ensures r != [] <==> a != [] || b != []
    ensures r != [] <==> a != [] || b != []
  {
    if a != [] then a else b
  }
}
