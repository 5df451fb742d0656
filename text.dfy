/**
 * The parts of Python's string and bytes built-ins the core relies on, for
 * ASCII text: `str.strip`, `str.upper`, `str.replace(pat, "")`, `int(s, 16)`,
 * `bytes.fromhex`, `"{:02X}"` formatting and `" ".join`.
 */
module Text {
  import opened Wrappers
  import opened Can

  /** Whitespace removed by `str.strip()` and skipped by `int()` (its ASCII part: 9-13 and 28-32). */
  predicate IsSpace(c: char) {
    (9 <= c as int <= 13) || (28 <= c as int <= 32)
  }

  /** Whitespace skipped by `bytes.fromhex` (C's isspace: 9-13 and the blank). */
  predicate IsHexSpace(c: char) {
    (9 <= c as int <= 13) || c == ' '
  }

  function TrimStart(s: string): string {
    if |s| > 0 && IsSpace(s[0]) then TrimStart(s[1..]) else s
  }

  function TrimEnd(s: string): string {
    if |s| > 0 && IsSpace(s[|s| - 1]) then TrimEnd(s[..|s| - 1]) else s
  }

  /** `s.strip()`. */
  function Strip(s: string): string {
    TrimEnd(TrimStart(s))
  }

  /** `lstrip` removes a run of leading whitespace and stops at the first other character. */
  lemma {:induction false} TrimStartSpec(s: string)
    ensures var r := TrimStart(s);
      && |r| <= |s| && r == s[|s| - |r|..]
      && (forall k :: 0 <= k < |s| - |r| ==> IsSpace(s[k]))
      && (r == [] || !IsSpace(r[0]))
  {
    if |s| > 0 && IsSpace(s[0]) {
      TrimStartSpec(s[1..]);
    }
  }

  /** `rstrip` removes a run of trailing whitespace and stops at the last other character. */
  lemma {:induction false} TrimEndSpec(s: string)
    ensures var r := TrimEnd(s);
      && |r| <= |s| && r == s[..|r|]
      && (forall k :: |r| <= k < |s| ==> IsSpace(s[k]))
      && (r == [] || !IsSpace(r[|r| - 1]))
  {
    if |s| > 0 && IsSpace(s[|s| - 1]) {
      TrimEndSpec(s[..|s| - 1]);
    }
  }

  /** `strip` keeps an infix of its argument with no whitespace at either end, removing only whitespace. */
  lemma {:induction false} StripSpec(s: string) returns (i: nat)
    ensures var r := Strip(s);
      && i + |r| <= |s| && r == s[i..i + |r|]
      && (forall k :: 0 <= k < i ==> IsSpace(s[k]))
      && (forall k :: i + |r| <= k < |s| ==> IsSpace(s[k]))
      && (r == [] || (!IsSpace(r[0]) && !IsSpace(r[|r| - 1])))
  {
    var t := TrimStart(s);
    TrimStartSpec(s);
    TrimEndSpec(t);
    var r := TrimEnd(t);
    i := |s| - |t|;
    assert r == s[i..i + |r|];
    forall k | i + |r| <= k < |s| ensures IsSpace(s[k]) {
      assert s[k] == t[k - i];
    }
  }

  lemma {:induction false} StripNoSpace(s: string)
    requires s == [] || (!IsSpace(s[0]) && !IsSpace(s[|s| - 1]))
    ensures Strip(s) == s
  {
  }

  function UpperChar(c: char): char {
    if 'a' <= c <= 'z' then (c as int - 32) as char else c
  }

  /** `s.upper()` on ASCII letters. */
  function Upper(s: string): (r: string)
    ensures |r| == |s|
  {
    seq(|s|, k requires 0 <= k < |s| => UpperChar(s[k]))
  }

  /** `s.replace(pat, "")`: drops the non-overlapping occurrences of `pat`, scanning left to right. */
  function Remove(s: string, pat: string): (r: string)
    requires |pat| > 0
    ensures |r| <= |s|
    decreases |s|
  {
    if |s| == 0 then []
    else if |s| >= |pat| && s[..|pat|] == pat then Remove(s[|pat|..], pat)
    else [s[0]] + Remove(s[1..], pat)
  }

  /** When the last character of `pat` never occurs in `s`, there is nothing to remove. */
  lemma {:induction false} RemoveAbsent(s: string, pat: string)
    requires |pat| > 0
    requires forall k :: 0 <= k < |s| ==> s[k] != pat[|pat| - 1]
    ensures Remove(s, pat) == s
    decreases |s|
  {
    if |s| > 0 {
      if |s| >= |pat| {
        assert s[..|pat|][|pat| - 1] == s[|pat| - 1];
      }
      RemoveAbsent(s[1..], pat);
      assert [s[0]] + s[1..] == s;
    }
  }

  predicate IsHexDigit(c: char) {
    ('0' <= c <= '9') || ('A' <= c <= 'F') || ('a' <= c <= 'f')
  }

  function DigitValue(c: char): (v: nat)
    requires IsHexDigit(c)
    ensures v < 16
  {
    if '0' <= c <= '9' then c as int - '0' as int
    else if 'A' <= c <= 'F' then c as int - 'A' as int + 10
    else c as int - 'a' as int + 10
  }

  /** The upper-case hex digit of `n`. */
  function HexChar(n: nat): (c: char)
    requires n < 16
    ensures IsHexDigit(c) && DigitValue(c) == n && !('a' <= c <= 'z')
  {
    if n < 10 then ('0' as int + n) as char else ('A' as int + n - 10) as char
  }

  /** `f"{b:02X}"`. */
  function HexByte(b: byte): (s: string)
    ensures |s| == 2 && IsHexDigit(s[0]) && IsHexDigit(s[1])
    ensures DigitValue(s[0]) * 16 + DigitValue(s[1]) == b
  {
    [HexChar(b / 16), HexChar(b % 16)]
  }

  lemma {:induction false} HexByteInjective(a: byte, b: byte)
    requires HexByte(a) == HexByte(b)
    ensures a == b
  {
    assert DigitValue(HexByte(a)[0]) * 16 + DigitValue(HexByte(a)[1]) == a;
  }

  // ----- int(s, 16) -----

  /** Hex digits with single underscores between them: the digit part of a Python integer literal. */
  predicate IsDigitRun(b: string) {
    && |b| > 0
    && IsHexDigit(b[0]) && IsHexDigit(b[|b| - 1])
    && (forall k :: 0 <= k < |b| ==> IsHexDigit(b[k]) || b[k] == '_')
    && (forall k :: 0 <= k < |b| - 1 ==> b[k] != '_' || b[k + 1] != '_')
  }

  function RunValue(b: string): nat
    requires forall k :: 0 <= k < |b| ==> IsHexDigit(b[k]) || b[k] == '_'
  {
    if |b| == 0 then 0
    else if b[|b| - 1] == '_' then RunValue(b[..|b| - 1])
    else 16 * RunValue(b[..|b| - 1]) + DigitValue(b[|b| - 1])
  }

  /** What follows an optional sign: drops a `0x`/`0X` prefix and the one underscore allowed after it. */
  function DropPrefix(u: string): string {
    if |u| >= 2 && u[0] == '0' && (u[1] == 'x' || u[1] == 'X') then
      (if |u| >= 3 && u[2] == '_' then u[3..] else u[2..])
    else u
  }

  /**
   * Python's `int(s, 16)`: surrounding whitespace, an optional sign, an optional
   * `0x` prefix, then hex digits with single underscores between them; None
   * where Python raises ValueError.
   */
  function PyInt16(s: string): Option<int> {
    var t := Strip(s);
    var neg := |t| > 0 && t[0] == '-';
    var u := if |t| > 0 && (t[0] == '+' || t[0] == '-') then t[1..] else t;
    var v := DropPrefix(u);
    var n: int := if IsDigitRun(v) then RunValue(v) else 0;
    if IsDigitRun(v) then Some(if neg then -n else n) else None
  }

  /** A string of hex digits only. */
  predicate AllHex(s: string) {
    forall k :: 0 <= k < |s| ==> IsHexDigit(s[k])
  }

  lemma {:induction false} PyInt16TwoDigits(s: string)
    requires |s| == 2 && AllHex(s)
    ensures PyInt16(s) == Some(DigitValue(s[0]) * 16 + DigitValue(s[1]))
  {
    StripNoSpace(s);
    assert DropPrefix(s) == s;
    assert s[..1] == [s[0]];
    assert RunValue(s[..1]) == DigitValue(s[0]) by {
      assert s[..1][..0] == [];
    }
  }

  /**
   * Without surrounding whitespace, a two-character text is an integer to
   * Python iff it is two hex digits, or a sign followed by one hex digit.
   */
  lemma {:induction false} PyInt16TwoChars(s: string)
    requires |s| == 2 && !IsSpace(s[0]) && !IsSpace(s[1])
    ensures PyInt16(s).Some? <==> AllHex(s) || ((s[0] == '+' || s[0] == '-') && IsHexDigit(s[1]))
  {
    StripNoSpace(s);
    if s[0] == '+' || s[0] == '-' {
      assert DropPrefix(s[1..]) == s[1..];
    } else if s[0] == '0' && (s[1] == 'x' || s[1] == 'X') {
      assert DropPrefix(s) == [];
    } else {
      assert DropPrefix(s) == s;
    }
  }

  /** A lone character is an integer to Python iff it is a hex digit. */
  lemma {:induction false} PyInt16OneChar(c: char)
    ensures PyInt16([c]).Some? <==> IsHexDigit(c)
  {
    if !IsSpace(c) {
      StripNoSpace([c]);
      if c == '+' || c == '-' {
        assert [c][1..] == [];
      } else {
        assert DropPrefix([c]) == [c];
      }
    } else {
      assert TrimStart([c]) == [];
    }
  }

  /** Every byte's two-digit upper-case rendering reads back as that byte. */
  lemma {:induction false} PyInt16HexByte(b: byte)
    ensures PyInt16(HexByte(b)) == Some(b)
  {
    PyInt16TwoDigits(HexByte(b));
  }

  // ----- bytes.fromhex, " ".join -----

  /**
   * `bytes.fromhex(s)`: pairs of hex digits, with whitespace allowed before
   * each pair; None where Python raises ValueError.
   */
  function FromHex(s: string): Option<seq<byte>>
    decreases |s|
  {
    if |s| == 0 then Some([])
    else if IsHexSpace(s[0]) then FromHex(s[1..])
    else if |s| >= 2 && IsHexDigit(s[0]) && IsHexDigit(s[1]) then
      match FromHex(s[2..])
      case Some(rest) => Some([DigitValue(s[0]) * 16 + DigitValue(s[1])] + rest)
      case None => None
    else None
  }

  /** The concatenation of the two-digit renderings of `bs` (`"".join(...)` of `:02X` tokens). */
  function HexString(bs: seq<byte>): (s: string)
    ensures |s| == 2 * |bs|
  {
    if bs == [] then [] else HexByte(bs[0]) + HexString(bs[1..])
  }

  lemma {:induction false} FromHexHexString(bs: seq<byte>)
    ensures FromHex(HexString(bs)) == Some(bs)
  {
    if bs != [] {
      var s := HexString(bs);
      assert s[2..] == HexString(bs[1..]);
      FromHexHexString(bs[1..]);
      assert [bs[0]] + bs[1..] == bs;
    }
  }

  /** `" ".join(f"{b:02X}" for b in bs)` (`fmt_bytes`). */
  function FmtBytes(bs: seq<byte>): (s: string)
    ensures |bs| > 0 ==> |s| == 3 * |bs| - 1
    ensures |bs| == 0 ==> s == []
  {
    if |bs| == 0 then []
    else if |bs| == 1 then HexByte(bs[0])
    else HexByte(bs[0]) + " " + FmtBytes(bs[1..])
  }

  /** Rendering with `fmt_bytes` and reading back with `bytes.fromhex` gives the bytes again. */
  lemma {:induction false} FromHexFmtBytes(bs: seq<byte>)
    ensures FromHex(FmtBytes(bs)) == Some(bs)
  {
    if |bs| == 1 {
      var s := FmtBytes(bs);
      assert s == HexByte(bs[0]);
      assert s[2..] == [];
      assert FromHex(s[2..]) == Some([]);
      assert !IsHexSpace(s[0]);
      assert FromHex(s) == Some([DigitValue(s[0]) * 16 + DigitValue(s[1])] + []);
      assert DigitValue(s[0]) * 16 + DigitValue(s[1]) == bs[0];
      assert [bs[0]] + [] == bs;
    } else if |bs| > 1 {
      var s := FmtBytes(bs);
      assert s[2..][1..] == FmtBytes(bs[1..]);
      assert FromHex(s[2..]) == FromHex(FmtBytes(bs[1..]));
      FromHexFmtBytes(bs[1..]);
      assert [bs[0]] + bs[1..] == bs;
    }
  }

  /** Where each byte's digits and each separator sit in `fmt_bytes`' output. */
  lemma {:induction false} FmtBytesLayout(bs: seq<byte>, i: nat)
    requires i < |bs|
    ensures FmtBytes(bs)[3 * i..3 * i + 2] == HexByte(bs[i])
    ensures i + 1 < |bs| ==> FmtBytes(bs)[3 * i + 2] == ' '
  {
    var s := FmtBytes(bs);
    if i == 0 {
      if |bs| > 1 {
        assert s == HexByte(bs[0]) + " " + FmtBytes(bs[1..]);
      }
    } else {
      var t := FmtBytes(bs[1..]);
      assert s == HexByte(bs[0]) + " " + t;
      FmtBytesLayout(bs[1..], i - 1);
      assert s[3..] == t;
      assert s[3 * i..3 * i + 2] == t[3 * (i - 1)..3 * (i - 1) + 2];
    }
  }

  /** `sep.join(parts)`. */
  function Join(parts: seq<string>, sep: string): string {
    if |parts| == 0 then []
    else if |parts| == 1 then parts[0]
    else parts[0] + sep + Join(parts[1..], sep)
  }

  // ----- number formatting -----

  /** `str(n)` for a natural number. */
  function Decimal(n: nat): (s: string)
    ensures |s| > 0
  {
    if n < 10 then [('0' as int + n) as char] else Decimal(n / 10) + [('0' as int + n % 10) as char]
  }

  /** `f"{n:X}"` for a natural number. */
  function HexNat(n: nat): (s: string)
    ensures |s| > 0
  {
    if n < 16 then [HexChar(n)] else HexNat(n / 16) + [HexChar(n % 16)]
  }

  /** `f"{n:0<width>X}"`: upper-case hex digits, zero-padded on the left to at least `width`. */
  function HexPad(n: nat, width: nat): (s: string)
    ensures |s| >= width
  {
    var h := HexNat(n);
    if |h| < width then seq(width - |h|, _ => '0') + h else h
  }
}
