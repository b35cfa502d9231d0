/**
 * The string helpers the JavaScript code leans on: decimal rendering of
 * integers, `padStart`, the `(\d+)$` trailing-digit match with `parseInt`,
 * `trim`, `toLowerCase` and `split`.
 */
module Text {

  predicate IsDigit(c: char) {
    '0' <= c <= '9'
  }

  predicate AllDigits(s: string) {
    forall i :: 0 <= i < |s| ==> IsDigit(s[i])
  }

  function DigitValue(c: char): (d: nat)
    requires IsDigit(c)
    ensures d < 10
  {
    c as int - '0' as int
  }

  function DigitChar(d: nat): (c: char)
    requires d < 10
    ensures IsDigit(c) && DigitValue(c) == d
  {
    ('0' as int + d) as char
  }

  /** `String(n)` for a non-negative integer: decimal digits, no leading zero. */
  function NatToString(n: nat): (s: string)
    ensures |s| >= 1 && AllDigits(s)
    ensures s[0] == '0' ==> n == 0
    decreases n
  {
    if n < 10 then [DigitChar(n)] else NatToString(n / 10) + [DigitChar(n % 10)]
  }

  /** `String(i)` for any integer. */
  function IntToString(i: int): (s: string)
    ensures |s| >= 1
    ensures (s[0] == '-') == (i < 0)
  {
    if i < 0 then "-" + NatToString(-i) else NatToString(i)
  }

  /** `parseInt(s, 10)` of a non-empty run of decimal digits. */
  function DigitsValue(s: string): nat
    requires AllDigits(s)
  {
    if s == [] then 0 else DigitsValue(s[..|s| - 1]) * 10 + DigitValue(s[|s| - 1])
  }

  /** Reading back the decimal rendering gives the number. */
  lemma {:induction false} DigitsValueOfNatToString(n: nat)
    ensures DigitsValue(NatToString(n)) == n
    decreases n
  {
    var s := NatToString(n);
    if n >= 10 {
      DigitsValueOfNatToString(n / 10);
      assert s[..|s| - 1] == NatToString(n / 10);
    }
  }

  /** Decimal rendering is one-to-one. */
  lemma NatToStringInjective(a: nat, b: nat)
    requires NatToString(a) == NatToString(b)
    ensures a == b
  {
    DigitsValueOfNatToString(a);
    DigitsValueOfNatToString(b);
  }

  /** The signed rendering is one-to-one too: the sign is the first character. */
  lemma IntToStringInjective(a: int, b: int)
    requires IntToString(a) == IntToString(b)
    ensures a == b
  {
    if a < 0 {
      assert IntToString(a)[1..] == NatToString(-a);
      assert IntToString(b)[1..] == NatToString(-b);
      NatToStringInjective(-a, -b);
    } else {
      NatToStringInjective(a, b);
    }
  }

  function Repeat(c: char, n: nat): (r: string)
    ensures |r| == n && forall i :: 0 <= i < n ==> r[i] == c
  {
    seq(n, _ => c)
  }

  /** `s.padStart(width, c)` for a one-character pad string. */
  function PadStart(s: string, width: nat, c: char): (r: string)
    ensures |s| >= width ==> r == s
    ensures |s| < width ==> |r| == width
    ensures |r| >= |s| && r[|r| - |s|..] == s
    ensures forall i :: 0 <= i < |r| - |s| ==> r[i] == c
  {
    if |s| >= width then s else Repeat(c, width - |s|) + s
  }

  /** Leading zeros do not change the value `parseInt` reads. */
  lemma {:induction false} DigitsValueLeadingZeros(z: nat, s: string)
    requires AllDigits(s)
    ensures AllDigits(Repeat('0', z) + s)
    ensures DigitsValue(Repeat('0', z) + s) == DigitsValue(s)
    decreases |s|
  {
    var t := Repeat('0', z) + s;
    if s == [] {
      ZerosValue(z);
      assert t == Repeat('0', z);
    } else {
      var u := s[..|s| - 1];
      DigitsValueLeadingZeros(z, u);
      assert t[..|t| - 1] == Repeat('0', z) + u;
    }
  }

  lemma {:induction false} ZerosValue(z: nat)
    ensures AllDigits(Repeat('0', z)) && DigitsValue(Repeat('0', z)) == 0
  {
    if z > 0 {
      ZerosValue(z - 1);
      assert Repeat('0', z)[..z - 1] == Repeat('0', z - 1);
    }
  }

  /** A number rendered and zero-padded still reads back as the number. */
  lemma PaddedValue(n: nat, width: nat)
    ensures AllDigits(PadStart(NatToString(n), width, '0'))
    ensures DigitsValue(PadStart(NatToString(n), width, '0')) == n
  {
    var s := NatToString(n);
    DigitsValueOfNatToString(n);
    if |s| < width {
      assert PadStart(s, width, '0') == Repeat('0', width - |s|) + s;
      DigitsValueLeadingZeros(width - |s|, s);
    } else {
      assert PadStart(s, width, '0') == s;
    }
  }

  /** A number below 100 zero-padded to width 2 is exactly two digits that read back as the number. */
  lemma TwoDigits(n: nat)
    requires n < 100
    ensures var p := PadStart(NatToString(n), 2, '0');
      |p| == 2 && AllDigits(p) && DigitsValue(p) == n
  {
    PaddedValue(n, 2);
    if n >= 10 {
      assert NatToString(n) == NatToString(n / 10) + [DigitChar(n % 10)];
      assert NatToString(n / 10) == [DigitChar(n / 10)];
    }
  }

  /** The digits matched by `/(\d+)$/`: the longest all-digit suffix (empty when there is no match). */
  function TrailingDigits(s: string): (r: string)
    ensures AllDigits(r) && |r| <= |s| && r == s[|s| - |r|..]
    ensures |r| < |s| ==> !IsDigit(s[|s| - |r| - 1])
  {
    if s == [] || !IsDigit(s[|s| - 1]) then ""
    else TrailingDigits(s[..|s| - 1]) + [s[|s| - 1]]
  }

  /** After a non-digit prefix, the trailing-digit match is exactly the digits appended. */
  lemma {:induction false} TrailingDigitsOf(p: string, d: string)
    requires AllDigits(d)
    requires |p| > 0 ==> !IsDigit(p[|p| - 1])
    ensures TrailingDigits(p + d) == d
    decreases |d|
  {
    if d == [] {
      assert p + d == p;
    } else {
      var d' := d[..|d| - 1];
      TrailingDigitsOf(p, d');
      assert (p + d)[..|p + d| - 1] == p + d';
    }
  }

  function Max(a: int, b: int): int { if a >= b then a else b }

  /** The characters `String.prototype.trim` removes (WhiteSpace and LineTerminator). */
  const SpaceChars: set<char> := {
    ' ', '\t', '\n', '\r', '\U{B}', '\U{C}', '\U{A0}', '\U{1680}',
    '\U{2000}', '\U{2001}', '\U{2002}', '\U{2003}', '\U{2004}', '\U{2005}',
    '\U{2006}', '\U{2007}', '\U{2008}', '\U{2009}', '\U{200A}',
    '\U{2028}', '\U{2029}', '\U{202F}', '\U{205F}', '\U{3000}', '\U{FEFF}'
  }

  /*
   * The trimming functions take the set of characters to drop as a parameter:
   * their properties hold for any such set, and proving them for an arbitrary
   * set keeps the solver from expanding the 25-character set above.
   */

  function TrimStartOf(s: string, ws: set<char>): string {
    if s != [] && s[0] in ws then TrimStartOf(s[1..], ws) else s
  }

  function TrimEndOf(s: string, ws: set<char>): string {
    if s != [] && s[|s| - 1] in ws then TrimEndOf(s[..|s| - 1], ws) else s
  }

  /*
   * What the two halves keep is stated in lemmas rather than postconditions:
   * as postconditions these slice equations would accompany every trimmed
   * string into every proof that mentions one.
   */

  /** Trimming the start keeps a suffix, drops only characters of `ws`, and leaves none in front. */
  lemma {:induction false} TrimStartOfSpec(s: string, ws: set<char>)
    ensures var r := TrimStartOf(s, ws);
      && |r| <= |s| && r == s[|s| - |r|..]
      && (forall i :: 0 <= i < |s| - |r| ==> s[i] in ws)
      && (r == [] || r[0] !in ws)
    decreases |s|
  {
    if s != [] && s[0] in ws {
      var t := s[1..];
      TrimStartOfSpec(t, ws);
      var r := TrimStartOf(t, ws);
      assert t[|t| - |r|..] == s[|s| - |r|..];
      forall i | 0 <= i < |s| - |r| ensures s[i] in ws {
        if i > 0 { assert s[i] == t[i - 1]; }
      }
    }
  }

  /** Trimming the end keeps a prefix, drops only characters of `ws`, and leaves none behind. */
  lemma {:induction false} TrimEndOfSpec(s: string, ws: set<char>)
    ensures var r := TrimEndOf(s, ws);
      && |r| <= |s| && r == s[..|r|]
      && (forall i :: |r| <= i < |s| ==> s[i] in ws)
      && (r == [] || r[|r| - 1] !in ws)
    decreases |s|
  {
    if s != [] && s[|s| - 1] in ws {
      var t := s[..|s| - 1];
      TrimEndOfSpec(t, ws);
      var r := TrimEndOf(t, ws);
      assert t[..|r|] == s[..|r|];
      forall i | |r| <= i < |s| ensures s[i] in ws {
        if i < |t| { assert s[i] == t[i]; }
      }
    }
  }

  function TrimOf(s: string, ws: set<char>): string {
    TrimEndOf(TrimStartOf(s, ws), ws)
  }

  /** `s.trim()`. */
  function Trim(s: string): string {
    TrimOf(s, SpaceChars)
  }

  lemma TrimOfSlice(s: string, ws: set<char>) returns (i: nat, j: nat)
    ensures i <= j <= |s| && TrimOf(s, ws) == s[i..j]
    ensures forall k :: 0 <= k < i ==> s[k] in ws
    ensures forall k :: j <= k < |s| ==> s[k] in ws
    ensures i < j ==> s[i] !in ws && s[j - 1] !in ws
  {
    var t := TrimStartOf(s, ws);
    var e := TrimEndOf(t, ws);
    TrimStartOfSpec(s, ws);
    TrimEndOfSpec(t, ws);
    i := |s| - |t|;
    j := i + |e|;
    assert t == s[i..];
    assert e == s[i..j];
    if e != [] {
      assert e[0] == t[0];
    }
    forall k | j <= k < |s| ensures s[k] in ws {
      assert s[k] == t[k - i];
    }
  }

  /** What trim keeps: a slice of the input that neither starts nor ends with white space, cut only from white space. */
  lemma TrimSpec(s: string) returns (i: nat, j: nat)
    ensures i <= j <= |s| && Trim(s) == s[i..j]
    ensures forall k :: 0 <= k < i ==> s[k] in SpaceChars
    ensures forall k :: j <= k < |s| ==> s[k] in SpaceChars
    ensures i < j ==> s[i] !in SpaceChars && s[j - 1] !in SpaceChars
  {
    i, j := TrimOfSlice(s, SpaceChars);
  }

  lemma TrimOfIdempotent(s: string, ws: set<char>)
    ensures TrimOf(TrimOf(s, ws), ws) == TrimOf(s, ws)
  {
    var i, j := TrimOfSlice(s, ws);
    var t := TrimOf(s, ws);
    if t != [] {
      assert t[0] == s[i] && t[|t| - 1] == s[j - 1];
      assert TrimStartOf(t, ws) == t;
      assert TrimEndOf(t, ws) == t;
    } else {
      assert TrimStartOf(t, ws) == t;
    }
  }

  /** Trimming twice is trimming once. */
  lemma TrimIdempotent(s: string)
    ensures Trim(Trim(s)) == Trim(s)
  {
    TrimOfIdempotent(s, SpaceChars);
  }

  /** A string trims to "" exactly when it is all white space. */
  lemma TrimEmptyIff(s: string)
    ensures Trim(s) == [] <==> forall k :: 0 <= k < |s| ==> s[k] in SpaceChars
  {
    var i, j := TrimSpec(s);
    if Trim(s) != [] {
      assert s[i] !in SpaceChars;
    }
  }

  function LowerChar(c: char): char {
    if 'A' <= c <= 'Z' then (c as int + 32) as char else c
  }

  /** `toLowerCase` on the Basic Latin letters. */
  function ToLower(s: string): (r: string)
    ensures |r| == |s| && forall i :: 0 <= i < |s| ==> r[i] == LowerChar(s[i])
  {
    if s == [] then "" else [LowerChar(s[0])] + ToLower(s[1..])
  }

  /** Lower-casing twice is lower-casing once. */
  lemma ToLowerIdempotent(s: string)
    ensures ToLower(ToLower(s)) == ToLower(s)
  {
  }

  /** `s.split(sep)` for a one-character separator. */
  function Split(s: string, sep: char): (parts: seq<string>)
    ensures |parts| >= 1
    decreases |s|
  {
    if s == [] then [""]
    else
      var rest := Split(s[1..], sep);
      if s[0] == sep then [""] + rest else [[s[0]] + rest[0]] + rest[1..]
  }

  /** `parts.join(sep)`. */
  function Join(parts: seq<string>, sep: char): string
    requires |parts| >= 1
    decreases |parts|
  {
    if |parts| == 1 then parts[0] else parts[0] + [sep] + Join(parts[1..], sep)
  }

  /** Splitting loses nothing: joining the parts back gives the input, and no part holds the separator. */
  lemma {:induction false} SplitJoin(s: string, sep: char)
    ensures Join(Split(s, sep), sep) == s
    ensures forall k :: 0 <= k < |Split(s, sep)| ==> sep !in Split(s, sep)[k]
    decreases |s|
  {
    if s != [] {
      var rest := Split(s[1..], sep);
      SplitJoin(s[1..], sep);
      if s[0] == sep {
        assert Split(s, sep)[1..] == rest;
      } else {
        var parts := Split(s, sep);
        if |rest| > 1 {
          assert parts[1..] == rest[1..];
          assert Join(rest, sep) == rest[0] + [sep] + Join(rest[1..], sep);
        }
        assert parts[0] == [s[0]] + rest[0];
        assert forall k :: 1 <= k < |parts| ==> parts[k] == rest[k];
      }
    }
  }

  /** `s.split(sep).map(x => x.trim()).filter(Boolean)`: the non-blank trimmed pieces, in order. */
  function SplitTrimmed(s: string, sep: char): seq<string> {
    SplitTrimmedOf(s, sep, SpaceChars)
  }

  function SplitTrimmedOf(s: string, sep: char, ws: set<char>): seq<string> {
    NonEmpty(TrimAll(Split(s, sep), ws))
  }

  function TrimAll(parts: seq<string>, ws: set<char>): (r: seq<string>)
    ensures |r| == |parts| && forall k :: 0 <= k < |parts| ==> r[k] == TrimOf(parts[k], ws)
  {
    seq(|parts|, k requires 0 <= k < |parts| => TrimOf(parts[k], ws))
  }

  /** `filter(Boolean)` on strings: drops the empty ones and keeps the order of the rest. */
  function NonEmpty(parts: seq<string>): (r: seq<string>)
    ensures |r| <= |parts|
    ensures forall x :: x in r <==> x in parts && x != []
  {
    if parts == [] then []
    else if parts[0] == [] then NonEmpty(parts[1..])
    else [parts[0]] + NonEmpty(parts[1..])
  }

  lemma TrimOfKeepsOut(s: string, ws: set<char>, c: char)
    requires c !in s
    ensures c !in TrimOf(s, ws)
  {
    var i, j := TrimOfSlice(s, ws);
    assert forall k :: 0 <= k < j - i ==> TrimOf(s, ws)[k] == s[i + k];
  }

  lemma TrimmedPieces(parts: seq<string>, sep: char, ws: set<char>)
    requires forall k :: 0 <= k < |parts| ==> sep !in parts[k]
    ensures forall x :: x in NonEmpty(TrimAll(parts, ws)) ==> x != [] && sep !in x
    ensures forall k :: 0 <= k < |parts| && TrimOf(parts[k], ws) != [] ==>
      TrimOf(parts[k], ws) in NonEmpty(TrimAll(parts, ws))
  {
    var t := TrimAll(parts, ws);
    forall x | x in NonEmpty(t) ensures sep !in x {
      var k :| 0 <= k < |t| && t[k] == x;
      TrimOfKeepsOut(parts[k], ws, sep);
    }
    forall k | 0 <= k < |parts| && TrimOf(parts[k], ws) != [] ensures TrimOf(parts[k], ws) in NonEmpty(t) {
      assert t[k] in t;
    }
  }

  /**
   * Splitting on `sep` and trimming: no result is blank or holds the separator,
   * and every piece of the split that is not blank appears, trimmed, among the results.
   */
  lemma SplitTrimmedSpec(s: string, sep: char)
    ensures forall x :: x in SplitTrimmed(s, sep) ==> x != [] && sep !in x
    ensures forall k :: 0 <= k < |Split(s, sep)| && Trim(Split(s, sep)[k]) != [] ==>
      Trim(Split(s, sep)[k]) in SplitTrimmed(s, sep)
  {
    SplitJoin(s, sep);
    TrimmedPieces(Split(s, sep), sep, SpaceChars);
  }

  /** The number after the trailing digits of `s`, or 1 when it has none. */
  function Successor(s: string): (n: nat)
    ensures n >= 1
  {
    var d := TrailingDigits(s);
    if d == [] then 1 else DigitsValue(d) + 1
  }

}
