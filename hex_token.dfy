/**
 * The byte-field codec of the bulk-send page: `normalize_hex_byte`,
 * `tokens_from_boxes` (the same code sits in `bmw_gui/can_utils.py` and in
 * `bmw.py`) and the key-stroke validator `_validate_hex`.
 */
module HexToken {
  import opened Wrappers
  import opened Text

  /** Why `normalize_hex_byte` raises ValueError: the field is not one or two characters, or `int(s, 16)` refuses it. */
  datatype TokenError = BadLength | NotHex

  /** A field's text after `strip().upper().replace("0X", "")`. */
  function Core(val: string): string {
    Remove(Upper(Strip(val)), "0X")
  }

  predicate IsWildcard(s: string) {
    s == "" || s == "?" || s == "??"
  }

  /** The text `int(s, 16)` is asked to accept: one character is left-padded with "0". */
  function Padded(s: string): string {
    if |s| == 1 then "0" + s else s
  }

  /**
   * `normalize_hex_byte`: None is a wildcard field, Some(t) the two-character
   * token; Failure where the source raises ValueError.
   */
  function NormalizeHexByte(val: string): Result<Option<string>, TokenError> {
    var s := Core(val);
    if IsWildcard(s) then Success(None)
    else if |Padded(s)| != 2 then Failure(BadLength)
    else if PyInt16(Padded(s)).None? then Failure(NotHex)
    else Success(Some(Padded(s)))
  }

  /** `TestPage._validate_hex`: whether a key stroke leaving `proposed` in the field is allowed. */
  function ValidateHex(proposed: string): bool {
    var p := Core(proposed);
    if IsWildcard(p) then true
    else if |p| > 2 then false
    else PyInt16(if p == "" then "0" else p).Some?
  }

  // ----- properties -----

  /**
   * The outcome classes of `normalize_hex_byte`: wildcard exactly for "", "?"
   * and "??", a length error exactly when the text is not one or two characters,
   * and otherwise the left-padded text itself, exactly when it has two
   * characters that `int(s, 16)` accepts (NotHex when it refuses them).
   */
  lemma {:induction false} NormalizeOutcomes(val: string)
    ensures NormalizeHexByte(val) == Success(None) <==> IsWildcard(Core(val))
    ensures NormalizeHexByte(val) == Failure(BadLength) <==>
      !IsWildcard(Core(val)) && |Core(val)| != 1 && |Core(val)| != 2
    ensures NormalizeHexByte(val).Success? && NormalizeHexByte(val).value.Some? ==>
      && NormalizeHexByte(val).value.value == Padded(Core(val))
      && |NormalizeHexByte(val).value.value| == 2 && PyInt16(NormalizeHexByte(val).value.value).Some?
    ensures !IsWildcard(Core(val)) && |Padded(Core(val))| == 2 && PyInt16(Padded(Core(val))).Some? ==>
      NormalizeHexByte(val) == Success(Some(Padded(Core(val))))
    ensures NormalizeHexByte(val) == Failure(NotHex) <==>
      !IsWildcard(Core(val)) && |Padded(Core(val))| == 2 && PyInt16(Padded(Core(val))).None?
  {
  }

  /** A string that is its own `Core`: no surrounding whitespace, no lower case, no 'X'. */
  lemma {:induction false} CoreOfHexDigits(s: string)
    requires AllHex(s)
    ensures Core(s) == Upper(s)
    ensures AllHex(Upper(s))
  {
    if s != [] {
      StripNoSpace(s);
    }
    var u := Upper(s);
    assert forall k :: 0 <= k < |u| ==> u[k] != 'X';
    RemoveAbsent(u, "0X");
  }

  /**
   * Every byte, rendered with two hex digits in upper or lower case,
   * normalises to its upper-case two-digit rendering.
   */
  lemma {:induction false} NormalizeRoundTrip(b: Can.byte, lower: bool)
    ensures NormalizeHexByte(if lower then Lower(HexByte(b)) else HexByte(b)) == Success(Some(HexByte(b)))
  {
    var h := HexByte(b);
    var v := if lower then Lower(h) else h;
    assert AllHex(v);
    CoreOfHexDigits(v);
    assert Upper(v) == h;
    PyInt16HexByte(b);
  }

  /** `s.lower()` on ASCII letters, used to state the lower-case round trip. */
  function Lower(s: string): (r: string)
    ensures |r| == |s|
    ensures AllHex(s) ==> AllHex(r)
  {
    seq(|s|, k requires 0 <= k < |s| => if 'A' <= s[k] <= 'Z' then (s[k] as int + 32) as char else s[k])
  }

  /**
   * On a field of one or two hex digits, normalisation yields the upper-case
   * two-digit token, and normalising that token again changes nothing.
   */
  lemma {:induction false} NormalizeIdempotent(val: string)
    requires AllHex(val) && 1 <= |val| <= 2
    ensures NormalizeHexByte(val) == Success(Some(Padded(Upper(val))))
    ensures NormalizeHexByte(Padded(Upper(val))) == NormalizeHexByte(val)
  {
    CoreOfHexDigits(val);
    var t := Padded(Upper(val));
    assert AllHex(t);
    if |val| == 1 {
      PyInt16TwoDigits(t);
    } else {
      PyInt16TwoDigits(t);
    }
    CoreOfHexDigits(t);
    assert Upper(t) == t;
  }

  /** A leading sign passes the `int(s, 16)` check: "+1" is accepted as a token. */
  lemma SignedTokenAccepted()
    ensures NormalizeHexByte("+1") == Success(Some("+1"))
  {
    StripNoSpace("+1");
    assert Upper("+1") == "+1";
    RemoveAbsent("+1", "0X");
    assert Core("+1") == "+1";
    PyInt16TwoChars("+1");
  }

  /** A single remaining character is accepted iff it is a hex digit or whitespace ("0 " passes `int`). */
  lemma {:induction false} NormalizeOneChar(val: string)
    requires |Core(val)| == 1 && !IsWildcard(Core(val))
    ensures NormalizeHexByte(val).Success? <==> IsHexDigit(Core(val)[0]) || IsSpace(Core(val)[0])
  {
    var c := Core(val)[0];
    var p := Padded(Core(val));
    assert p == ['0', c];
    if IsSpace(c) {
      assert TrimEnd(p) == "0";
      assert TrimStart(p) == p;
      PyInt16OneChar('0');
    } else {
      PyInt16TwoChars(p);
    }
  }

  /** Two remaining non-blank characters are accepted iff both are hex digits or the first is a sign. */
  lemma {:induction false} NormalizeTwoChars(val: string)
    requires |Core(val)| == 2 && !IsWildcard(Core(val))
    requires !IsSpace(Core(val)[0]) && !IsSpace(Core(val)[1])
    ensures NormalizeHexByte(val).Success? <==>
      AllHex(Core(val)) || ((Core(val)[0] == '+' || Core(val)[0] == '-') && IsHexDigit(Core(val)[1]))
  {
    PyInt16TwoChars(Core(val));
  }

  /** Whatever the key-stroke validator lets into a field, normalisation accepts. */
  lemma {:induction false} ValidatedNormalizes(val: string)
    requires ValidateHex(val)
    ensures NormalizeHexByte(val).Success?
  {
    var p := Core(val);
    if !IsWildcard(p) && |p| == 1 {
      PyInt16OneChar(p[0]);
      assert p == [p[0]];
      NormalizeOneChar(val);
    }
  }

  /** The field "0X 0X" leaves a lone blank after the "0X" removal. */
  lemma BlankCore()
    ensures Core("0X 0X") == " "
  {
    var v := "0X 0X";
    StripNoSpace(v);
    assert Upper(v) == v;
    assert Remove(v, "0X") == " " by {
      assert v[..2] == "0X";
      assert v[2..] == " 0X";
      assert v[2..][..2] != "0X";
      assert v[2..][1..] == "0X";
      assert v[2..][1..][..2] == "0X";
    }
  }

  /**
   * The converse of ValidatedNormalizes fails: the validator refuses "0X 0X",
   * while normalisation turns it into the token "0 " (`int("0 ", 16)` is 0).
   */
  lemma BlankTokenDisagreement()
    ensures !ValidateHex("0X 0X")
    ensures NormalizeHexByte("0X 0X") == Success(Some("0 "))
  {
    BlankCore();
    PyInt16OneChar(' ');
    assert Strip(" ") == [] by {
      assert TrimStart(" ") == [];
    }
    assert TrimEnd("0 ") == "0";
    assert TrimStart("0 ") == "0 ";
    StripNoSpace("0");
    assert PyInt16("0 ") == PyInt16("0");
    PyInt16OneChar('0');
    assert Padded(" ") == "0 ";
    assert !IsWildcard(" ");
  }

  /** Normalisation is not idempotent on the token "0 ": it normalises again to "00". */
  lemma BlankTokenNotIdempotent()
    ensures NormalizeHexByte("0 ") == Success(Some("00"))
  {
    assert TrimEnd("0 ") == "0";
    assert TrimStart("0 ") == "0 ";
    StripNoSpace("0");
    assert Upper("0") == "0";
    RemoveAbsent("0", "0X");
    assert Core("0 ") == "0";
    assert Padded("0") == "00";
    assert !IsWildcard("0");
    PyInt16TwoDigits("00");
  }

  // ----- tokens_from_boxes -----

  /** Number of wildcard tokens. */
  function Wildcards(ts: seq<Option<string>>): nat
    ensures Wildcards(ts) <= |ts|
  {
    if ts == [] then 0 else Wildcards(ts[..|ts| - 1]) + (if ts[|ts| - 1].None? then 1 else 0)
  }

  function Pow(b: nat, n: nat): nat {
    if n == 0 then 1 else b * Pow(b, n - 1)
  }

  /**
   * What `tokens_from_boxes` returns for the fields `values`: the tokens and
   * the variant count, or the error of the first field that raises.
   */
  function Tokens(values: seq<string>): Result<(seq<Option<string>>, nat), TokenError> {
    if values == [] then Success(([], 1))
    else
      match Tokens(values[..|values| - 1])
      case Failure(e) => Failure(e)
      case Success((ts, total)) =>
        match NormalizeHexByte(values[|values| - 1])
        case Failure(e) => Failure(e)
        case Success(t) => Success((ts + [t], if t.None? then total * 256 else total))
  }

  /** `tokens_from_boxes` (imperative): accumulates the token list and multiplies the count per wildcard. */
  method TokensFromBoxes(values: seq<string>) returns (r: Result<(seq<Option<string>>, nat), TokenError>)
    ensures r == Tokens(values)
  {
    var tokens: seq<Option<string>> := [];
    var total: nat := 1;
    var i := 0;
    while i < |values|
      invariant 0 <= i <= |values|
      invariant Tokens(values[..i]) == Success((tokens, total))
    {
      assert values[..i + 1][..i] == values[..i];
      var t := NormalizeHexByte(values[i]);
      if t.Failure? {
        TokensFailureSticks(values, i + 1);
        return Failure(t.error);
      }
      tokens := tokens + [t.value];
      if t.value.None? {
        total := total * 256;
      }
      i := i + 1;
    }
    assert values[..i] == values;
    return Success((tokens, total));
  }

  /** Once a prefix of the fields fails, the whole list fails with the same error. */
  lemma {:induction false} TokensFailureSticks(values: seq<string>, k: nat)
    requires k <= |values| && Tokens(values[..k]).Failure?
    ensures Tokens(values) == Tokens(values[..k])
    decreases |values| - k
  {
    if k < |values| {
      assert values[..k + 1][..k] == values[..k];
      TokensFailureSticks(values, k + 1);
    } else {
      assert values[..k] == values;
    }
  }

  /** One token per field, in order, when the list succeeds. */
  lemma {:induction false} TokensInOrder(values: seq<string>)
    requires Tokens(values).Success?
    ensures |Tokens(values).value.0| == |values|
    ensures forall i :: 0 <= i < |values| ==> NormalizeHexByte(values[i]) == Success(Tokens(values).value.0[i])
  {
    if values != [] {
      var n := |values| - 1;
      var init := values[..n];
      TokensInOrder(init);
      var ts := Tokens(init).value.0;
      var t := NormalizeHexByte(values[n]).value;
      assert Tokens(values).value.0 == ts + [t];
      forall i | 0 <= i < |values| ensures NormalizeHexByte(values[i]) == Success((ts + [t])[i]) {
        if i < n {
          assert values[i] == init[i];
        }
      }
    }
  }

  /** 256^k variants for k wildcard fields, when the list succeeds. */
  lemma {:induction false} TokensCount(values: seq<string>)
    requires Tokens(values).Success?
    ensures Tokens(values).value.1 == Pow(256, Wildcards(Tokens(values).value.0))
  {
    if values != [] {
      var n := |values| - 1;
      var init := values[..n];
      TokensCount(init);
      TokensInOrder(init);
      var (ts, total) := Tokens(init).value;
      var t := NormalizeHexByte(values[n]).value;
      var next := ts + [t];
      assert next[..n] == ts;
      assert Tokens(values).value == (next, if t.None? then total * 256 else total);
      assert Wildcards(next) == Wildcards(ts) + (if t.None? then 1 else 0);
    }
  }

  /**
   * The list succeeds exactly when every field normalises; otherwise the error
   * is that of the first field that raises, and every field before it is valid.
   */
  lemma {:induction false} TokensFailFast(values: seq<string>)
    ensures Tokens(values).Success? <==> forall i :: 0 <= i < |values| ==> NormalizeHexByte(values[i]).Success?
    ensures Tokens(values).Failure? ==>
      exists i :: 0 <= i < |values| && NormalizeHexByte(values[i]) == Failure(Tokens(values).error) &&
        forall j :: 0 <= j < i ==> NormalizeHexByte(values[j]).Success?
  {
    if values != [] {
      var n := |values| - 1;
      var init := values[..n];
      TokensFailFast(init);
      assert forall i :: 0 <= i < n ==> init[i] == values[i];
      if Tokens(init).Failure? {
        var i :| 0 <= i < |init| && NormalizeHexByte(init[i]) == Failure(Tokens(init).error) &&
          forall j :: 0 <= j < i ==> NormalizeHexByte(init[j]).Success?;
        assert NormalizeHexByte(values[i]) == Failure(Tokens(values).error);
      }
    }
  }

  /** No wildcard field means exactly one variant; the variant count is never 0. */
  lemma {:induction false} TotalBounds(ts: seq<Option<string>>)
    ensures Pow(256, Wildcards(ts)) >= 1
    ensures Pow(256, Wildcards(ts)) == 1 <==> forall i :: 0 <= i < |ts| ==> ts[i].Some?
  {
    PowPositive(Wildcards(ts));
    if ts != [] {
      var init := ts[..|ts| - 1];
      TotalBounds(init);
      PowPositive(Wildcards(init));
      if ts[|ts| - 1].None? {
        PowPositive(Wildcards(ts) - 1);
      } else {
        assert Wildcards(ts) == Wildcards(init);
        assert forall i :: 0 <= i < |init| ==> init[i] == ts[i];
      }
    }
  }

  lemma {:induction false} PowPositive(n: nat)
    ensures Pow(256, n) >= 1
    ensures n > 0 ==> Pow(256, n) >= 256
  {
    if n > 0 {
      PowPositive(n - 1);
    }
  }
}
