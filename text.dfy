/** The string operations of the JavaScript runtime that the portal's code relies on:
    white space and `trim`, ASCII `toLowerCase`, substring search (`includes`,
    `indexOf`, `lastIndexOf`), `String(n)` for naturals and `padStart`. */
module Text {
  import opened Wrappers

  /** The characters JavaScript's `\s` class and `String.prototype.trim` both treat
      as white space or line terminators. */
  predicate IsSpace(c: char) {
    || c == '\t' || c == '\n' || c == '\U{000B}' || c == '\U{000C}' || c == '\r' || c == ' '
    || c == '\U{00A0}' || c == '\U{1680}' || '\U{2000}' <= c <= '\U{200A}'
    || c == '\U{2028}' || c == '\U{2029}' || c == '\U{202F}' || c == '\U{205F}'
    || c == '\U{3000}' || c == '\U{FEFF}'
  }

  /** `s` without its leading white space. */
  function TrimStart(s: string): (r: string)
    ensures |r| <= |s|
  {
    if s != [] && IsSpace(s[0]) then TrimStart(s[1..]) else s
  }

  /** `s` without its trailing white space. */
  function TrimEnd(s: string): (r: string)
    ensures |r| <= |s|
  {
    if s != [] && IsSpace(s[|s| - 1]) then TrimEnd(s[..|s| - 1]) else s
  }

  /** `String.prototype.trim`. */
  function Trim(s: string): (r: string)
    ensures |r| <= |s|
  {
    TrimEnd(TrimStart(s))
  }

  /** `TrimStart` keeps a suffix of `s`, everything it cuts off is white space, and
      what is left does not start with white space. */
  lemma {:induction false} TrimStartSpec(s: string)
    ensures var r := TrimStart(s);
            r == s[|s| - |r|..] && (r == [] || !IsSpace(r[0])) &&
            forall i :: 0 <= i < |s| - |r| ==> IsSpace(s[i])
  {
    if s != [] && IsSpace(s[0]) {
      TrimStartSpec(s[1..]);
      var r := TrimStart(s);
      forall i | 0 <= i < |s| - |r| ensures IsSpace(s[i]) {
        if i > 0 {
          assert s[i] == s[1..][i - 1];
        }
      }
    }
  }

  /** `TrimEnd` keeps a prefix of `s`, everything it cuts off is white space, and
      what is left does not end with white space. */
  lemma {:induction false} TrimEndSpec(s: string)
    ensures var r := TrimEnd(s);
            r == s[..|r|] && (r == [] || !IsSpace(r[|r| - 1])) &&
            forall i :: |r| <= i < |s| ==> IsSpace(s[i])
  {
    if s != [] && IsSpace(s[|s| - 1]) {
      TrimEndSpec(s[..|s| - 1]);
      var r := TrimEnd(s);
      forall i | |r| <= i < |s| ensures IsSpace(s[i]) {
        if i < |s| - 1 {
          assert s[i] == s[..|s| - 1][i];
        }
      }
    }
  }

  /** `trim` keeps a contiguous part of `s`, starting where `TrimStart` stops, with
      only white space removed around it; the result neither starts nor ends with
      white space. */
  lemma TrimSpec(s: string)
    ensures var r := Trim(s);
            var k := |s| - |TrimStart(s)|;
            (r == [] || (!IsSpace(r[0]) && !IsSpace(r[|r| - 1]))) &&
            OccursAt(s, r, k) &&
            (forall i :: 0 <= i < k ==> IsSpace(s[i])) &&
            (forall i :: k + |r| <= i < |s| ==> IsSpace(s[i]))
  {
    var t := TrimStart(s);
    var r := TrimEnd(t);
    TrimStartSpec(s);
    TrimEndSpec(t);
    var k := |s| - |t|;
    assert r == s[k..k + |r|];
    forall i | k + |r| <= i < |s| ensures IsSpace(s[i]) {
      assert s[i] == t[i - k];
    }
  }

  /** A string that neither starts nor ends with white space is its own trim. */
  lemma TrimUnpadded(s: string)
    requires s == [] || (!IsSpace(s[0]) && !IsSpace(s[|s| - 1]))
    ensures Trim(s) == s
  {
  }

  /** Trimming twice is trimming once. */
  lemma TrimTwice(s: string)
    ensures Trim(Trim(s)) == Trim(s)
  {
    TrimSpec(s);
    TrimUnpadded(Trim(s));
  }

  /** One character of `toLowerCase`; only the ASCII letters are mapped. */
  function LowerChar(c: char): char {
    if 'A' <= c <= 'Z' then (c as int + 32) as char else c
  }

  /** `String.prototype.toLowerCase`, restricted to ASCII letters. */
  function ToLower(s: string): (r: string)
    ensures |r| == |s|
    ensures forall i :: 0 <= i < |s| ==> r[i] == LowerChar(s[i])
  {
    seq(|s|, i requires 0 <= i < |s| => LowerChar(s[i]))
  }

  /** Lower-casing twice is lower-casing once. */
  lemma ToLowerIdempotent(s: string)
    ensures ToLower(ToLower(s)) == ToLower(s)
  {
    var t := ToLower(s);
    forall i | 0 <= i < |t| ensures ToLower(t)[i] == t[i] {
      assert t[i] == LowerChar(s[i]);
    }
  }

  /** `pat` occurs in `s` starting at position `i`. */
  predicate OccursAt(s: string, pat: string, i: int) {
    0 <= i && i + |pat| <= |s| && s[i..i + |pat|] == pat
  }

  /** `s.indexOf(pat, from)`: the first position at or after `from` where `pat`
      occurs, or `None` when there is none. */
  function IndexFrom(s: string, pat: string, from: nat): (r: Option<nat>)
    ensures r.Some? ==> from <= r.value && OccursAt(s, pat, r.value)
    ensures r.Some? ==> forall j :: from <= j < r.value ==> !OccursAt(s, pat, j)
    ensures r.None? ==> forall j :: from <= j ==> !OccursAt(s, pat, j)
    decreases |s| - from
  {
    if from + |pat| > |s| then None
    else if s[from..from + |pat|] == pat then Some(from)
    else IndexFrom(s, pat, from + 1)
  }

  /** `pat` occurs at `k`, and no position from `from` up to `k` holds the first
      character of `pat`: the search from `from` finds `k`. */
  lemma FirstOccurrence(s: string, pat: string, from: nat, k: nat)
    requires pat != [] && from <= k && OccursAt(s, pat, k)
    requires forall j :: from <= j < k ==> s[j] != pat[0]
    ensures IndexFrom(s, pat, from) == Some(k)
  {
    forall j | from <= j < k
      ensures !OccursAt(s, pat, j)
    {
      if j + |pat| <= |s| {
        assert s[j..j + |pat|][0] == s[j];
      }
    }
  }

  /** Searching `a + mid + pat + rest` from the end of `a` finds the `pat` right
      after `mid` when `mid` does not hold the first character of `pat`. */
  lemma FindAfter(a: string, mid: string, pat: string, rest: string)
    requires pat != [] && pat[0] !in mid
    ensures IndexFrom(a + mid + pat + rest, pat, |a|) == Some(|a| + |mid|)
  {
    var s := a + mid + pat + rest;
    var k := |a| + |mid|;
    assert s[k..k + |pat|] == pat;
    forall j | |a| <= j < k ensures s[j] != pat[0] {
      assert s[j] == mid[j - |a|];
    }
    FirstOccurrence(s, pat, |a|, k);
  }

  /** A text without the first character of `pat` does not contain `pat`. */
  lemma NoOccurrence(s: string, pat: string)
    requires pat != [] && pat[0] !in s
    ensures IndexFrom(s, pat, 0).None?
  {
    forall j | 0 <= j
      ensures !OccursAt(s, pat, j)
    {
      if j + |pat| <= |s| {
        assert s[j..j + |pat|][0] == s[j];
      }
    }
  }

  /** `s.includes(pat)`: `pat` occurs somewhere in `s`. */
  function Includes(s: string, pat: string): (b: bool)
    ensures b <==> exists i :: OccursAt(s, pat, i)
  {
    IndexFrom(s, pat, 0).Some?
  }

  /** Every string includes the empty string. */
  lemma IncludesEmpty(s: string)
    ensures Includes(s, "")
  {
    assert OccursAt(s, "", 0);
  }

  /** `s.lastIndexOf(c)`: the last position holding `c`, or `None` when `c` is absent. */
  function LastIndexOf(s: string, c: char): (r: Option<nat>)
    ensures r.Some? ==> r.value < |s| && s[r.value] == c
    ensures r.Some? ==> forall j :: r.value < j < |s| ==> s[j] != c
    ensures r.None? <==> c !in s
  {
    if s == [] then None
    else if s[|s| - 1] == c then Some(|s| - 1)
    else LastIndexOf(s[..|s| - 1], c)
  }

  /** A position holding `c` with no `c` after it is the one `LastIndexOf` finds. */
  lemma LastIndexOfAt(s: string, c: char, k: nat)
    requires k < |s| && s[k] == c
    requires forall j :: k < j < |s| ==> s[j] != c
    ensures LastIndexOf(s, c) == Some(k)
  {
    var r := LastIndexOf(s, c);
    assert c in s;
    assert r.value >= k by {
      if r.value < k {
        assert false;
      }
    }
  }

  predicate IsDigit(c: char) {
    '0' <= c <= '9'
  }

  predicate AllDigits(s: string) {
    forall i :: 0 <= i < |s| ==> IsDigit(s[i])
  }

  function DigitChar(d: nat): (c: char)
    requires d < 10
    ensures IsDigit(c) && c as int - '0' as int == d
  {
    ('0' as int + d) as char
  }

  /** The number a string of decimal digits denotes (leading zeros allowed). */
  function DigitsValue(s: string): nat
    requires AllDigits(s)
  {
    if s == [] then 0 else DigitsValue(s[..|s| - 1]) * 10 + (s[|s| - 1] as int - '0' as int)
  }

  /** `String(n)` for a natural number: its decimal digits without leading zeros. */
  function DecimalString(n: nat): (r: string)
    ensures r != [] && AllDigits(r)
    ensures r[0] == '0' ==> n == 0
    decreases n
  {
    if n < 10 then [DigitChar(n)] else DecimalString(n / 10) + [DigitChar(n % 10)]
  }

  /** Reading back the digits of `String(n)` gives `n`. */
  lemma {:induction false} DecimalRoundTrip(n: nat)
    ensures DigitsValue(DecimalString(n)) == n
    decreases n
  {
    if n >= 10 {
      DecimalRoundTrip(n / 10);
      var s := DecimalString(n);
      assert s[..|s| - 1] == DecimalString(n / 10);
    }
  }

  /** `s.padStart(width, fill)` for a one-character `fill`: `s` preceded by as many
      copies of `fill` as it takes to reach `width` characters. */
  function PadStart(s: string, width: nat, fill: char): (r: string)
    ensures |r| == if |s| < width then width else |s|
    ensures r[|r| - |s|..] == s
    ensures forall i :: 0 <= i < |r| - |s| ==> r[i] == fill
  {
    if |s| < width then seq(width - |s|, _ => fill) + s else s
  }

  /** Leading zeros do not change the value of a digit string. */
  lemma {:induction false} LeadingZerosValue(z: string, s: string)
    requires forall i :: 0 <= i < |z| ==> z[i] == '0'
    requires AllDigits(s)
    ensures AllDigits(z + s) && DigitsValue(z + s) == DigitsValue(s)
    decreases |s|
  {
    var t := z + s;
    if s == [] {
      assert t == z;
      ZerosValue(z);
    } else {
      var s' := s[..|s| - 1];
      assert t[..|t| - 1] == z + s';
      LeadingZerosValue(z, s');
    }
  }

  lemma {:induction false} ZerosValue(z: string)
    requires forall i :: 0 <= i < |z| ==> z[i] == '0'
    ensures AllDigits(z) && DigitsValue(z) == 0
  {
    if z != [] {
      ZerosValue(z[..|z| - 1]);
    }
  }

  /** `String(n).padStart(3, '0')`, the serial part of the portal's record ids. */
  function PaddedSerial(n: nat): string {
    PadStart(DecimalString(n), 3, '0')
  }

  /** `String(n)` of a number below 1000 has at most three digits. */
  lemma DecimalStringShort(n: nat)
    requires n < 1000
    ensures |DecimalString(n)| <= 3
  {
    if n >= 10 {
      assert |DecimalString(n)| == |DecimalString(n / 10)| + 1;
      if n / 10 >= 10 {
        assert |DecimalString(n / 10)| == |DecimalString(n / 100)| + 1;
      }
    }
  }

  /** The padded serial is at least three digits, exactly three below 1000, and
      reads back as `n`: it encodes `n` exactly. */
  lemma PaddedSerialRoundTrip(n: nat)
    ensures |PaddedSerial(n)| >= 3 && (n < 1000 ==> |PaddedSerial(n)| == 3)
    ensures AllDigits(PaddedSerial(n)) && DigitsValue(PaddedSerial(n)) == n
  {
    if n < 1000 {
      DecimalStringShort(n);
    }
    var d := DecimalString(n);
    var p := PaddedSerial(n);
    var z := p[..|p| - |d|];
    assert p == z + d;
    LeadingZerosValue(z, d);
    DecimalRoundTrip(n);
  }

  /** Distinct serial numbers give distinct padded serials. */
  lemma PaddedSerialInjective(m: nat, n: nat)
    requires PaddedSerial(m) == PaddedSerial(n)
    ensures m == n
  {
    PaddedSerialRoundTrip(m);
    PaddedSerialRoundTrip(n);
  }
}
