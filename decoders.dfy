/**
 * The UDS table page's signal decoders (`_decode_led`, `_decode_ahl`,
 * `_decode_lwr`) and the table update `_apply_values`.  Angles are integer
 * tenths of a degree: the source's `raw / 10.0` is `raw` tenths.
 */
module Decoders {
  import opened Can
  import opened Text

  /** The identifiers the page reads. */
  const DID_LED := 0xD631
  const DID_AHL := 0xD663
  const DID_LWR := 0xD63B

  /** The payload byte at `i`, or 0 beyond its end. */
  function ByteAt(payload: seq<byte>, i: nat): byte {
    if i < |payload| then payload[i] else 0
  }

  /** The first 20 bytes of the payload, zero-padded when it is shorter. */
  function Padded20(payload: seq<byte>): (r: seq<byte>)
    ensures |r| == 20
  {
    if |payload| < 20 then payload[..Min(20, |payload|)] + Zeros(20 - |payload|) else payload[..20]
  }

  /** A duty cycle clamped to [0, 100] percent. */
  function Percent(v: int): int {
    Max(0, Min(100, v))
  }

  /** A current in milliamperes from a count of 10 mA steps, negative counts read as 0. */
  function Current(v: int): int {
    Max(0, v) * 10
  }

  function Percents(s: seq<byte>): (r: seq<int>)
    ensures |r| == |s|
  {
    if s == [] then [] else [Percent(s[0])] + Percents(s[1..])
  }

  function Currents(s: seq<byte>): (r: seq<int>)
    ensures |r| == |s|
  {
    if s == [] then [] else [Current(s[0])] + Currents(s[1..])
  }

  /** `_decode_led` before rendering: ten duty cycles from bytes 0-9 and ten currents from bytes 10-19. */
  function LedLevels(payload: seq<byte>): (seq<int>, seq<int>) {
    var padded := Padded20(payload);
    (Percents(padded[..10]), Currents(padded[10..]))
  }

  /** `str()` of each value. */
  function Render(vs: seq<int>): (r: seq<string>)
    ensures |r| == |vs|
  {
    if vs == [] then [] else [if vs[0] >= 0 then Decimal(vs[0]) else "-" + Decimal(-vs[0])] + Render(vs[1..])
  }

  /** `_decode_led`: the two lists of strings the table shows. */
  function DecodeLed(payload: seq<byte>): (seq<string>, seq<string>) {
    var (percent, current) := LedLevels(payload);
    (Render(percent), Render(current))
  }

  /** `_decode_ahl` in tenths of a degree: big-endian bytes 0-1, byte 0 alone, or 0. */
  function DecodeAhl(payload: seq<byte>): (tenths: nat)
    ensures tenths < 0x1_0000
  {
    if |payload| >= 2 then payload[0] as int * 256 + payload[1]
    else if |payload| == 1 then payload[0]
    else 0
  }

  /** `_decode_lwr` in tenths of a degree: byte 0, or 0. */
  function DecodeLwr(payload: seq<byte>): (tenths: nat)
    ensures tenths < 0x100
  {
    if |payload| > 0 then payload[0] else 0
  }

  // ----- properties -----

  lemma {:induction false} PercentsAt(s: seq<byte>, k: nat)
    requires k < |s|
    ensures Percents(s)[k] == Percent(s[k])
  {
    if k > 0 {
      PercentsAt(s[1..], k - 1);
    }
  }

  lemma {:induction false} CurrentsAt(s: seq<byte>, k: nat)
    requires k < |s|
    ensures Currents(s)[k] == Current(s[k])
  {
    if k > 0 {
      CurrentsAt(s[1..], k - 1);
    }
  }

  /**
   * Always two lists of ten values: the k-th duty cycle is payload byte k
   * clamped to [0, 100] and the k-th current is ten times byte 10 + k, where
   * bytes beyond the payload's end count as 0.
   */
  lemma {:induction false} LedLevelsSpec(payload: seq<byte>)
    ensures var (percent, current) := LedLevels(payload);
      && |percent| == 10 && |current| == 10
      && (forall k :: 0 <= k < 10 ==> percent[k] == Percent(ByteAt(payload, k)) && 0 <= percent[k] <= 100)
      && (forall k :: 0 <= k < 10 ==> current[k] == 10 * ByteAt(payload, 10 + k))
  {
    var padded := Padded20(payload);
    forall k | 0 <= k < 20 ensures padded[k] == ByteAt(payload, k) {
      if |payload| < 20 && k >= |payload| {
        assert padded[k] == Zeros(20 - |payload|)[k - |payload|];
      }
    }
    forall k | 0 <= k < 10
      ensures Percents(padded[..10])[k] == Percent(ByteAt(payload, k))
      ensures Currents(padded[10..])[k] == 10 * ByteAt(payload, 10 + k)
    {
      PercentsAt(padded[..10], k);
      CurrentsAt(padded[10..], k);
    }
  }

  /** The levels depend only on the first 20 bytes, with missing bytes read as 0. */
  lemma {:induction false} LedLevelsFirst20(p: seq<byte>, q: seq<byte>)
    requires forall k: nat :: k < 20 ==> ByteAt(p, k) == ByteAt(q, k)
    ensures LedLevels(p) == LedLevels(q)
  {
    LedLevelsSpec(p);
    LedLevelsSpec(q);
    var (a, b) := LedLevels(p);
    var (c, d) := LedLevels(q);
    assert a == c by {
      forall k | 0 <= k < 10 ensures a[k] == c[k] {
        assert ByteAt(p, k) == ByteAt(q, k);
      }
    }
    assert b == d by {
      forall k | 0 <= k < 10 ensures b[k] == d[k] {
        assert ByteAt(p, 10 + k) == ByteAt(q, 10 + k);
      }
    }
  }

  /** Padding the payload with zeros, or cutting it after 20 bytes, changes nothing. */
  lemma {:induction false} LedPaddingAndTruncation(payload: seq<byte>, n: nat)
    ensures LedLevels(payload + Zeros(n)) == LedLevels(payload)
    ensures |payload| >= 20 ==> LedLevels(payload[..20]) == LedLevels(payload)
  {
    var longer := payload + Zeros(n);
    forall k: nat | k < 20 ensures ByteAt(longer, k) == ByteAt(payload, k) {
      if |payload| <= k < |longer| {
        assert longer[k] == Zeros(n)[k - |payload|];
      }
    }
    LedLevelsFirst20(longer, payload);
    if |payload| >= 20 {
      LedLevelsFirst20(payload[..20], payload);
    }
  }

  /** Ten zero duty-cycle bytes and ten current bytes of 5 give 0 % and 50 mA for every LED. */
  lemma LedExample()
    ensures LedLevels(Zeros(10) + seq(10, _ => 5)) == (seq(10, _ => 0), seq(10, _ => 50))
  {
    var payload: seq<byte> := Zeros(10) + seq(10, _ => 5);
    LedLevelsSpec(payload);
    var (percent, current) := LedLevels(payload);
    assert percent == seq(10, _ => 0);
    assert current == seq(10, _ => 50);
  }

  /** Every angle 0.0 to 6553.5 degrees, sent big-endian, decodes to itself whatever follows. */
  lemma AhlRoundTrip(tenths: nat, rest: seq<byte>)
    requires tenths < 0x1_0000
    ensures DecodeAhl([tenths / 256, tenths % 256] + rest) == tenths
  {
  }

  /** A one-byte AHL payload is read as that byte, and `[0x01, 0x2C]` as 30.0 degrees. */
  lemma AhlShortPayloads(b: byte)
    ensures DecodeAhl([b]) == b && DecodeAhl([]) == 0
    ensures DecodeAhl([0x01, 0x2C]) == 300
  {
  }

  /** Only the first LWR byte counts. */
  lemma LwrFirstByte(b: byte, rest: seq<byte>)
    ensures DecodeLwr([b] + rest) == b && DecodeLwr([]) == 0
  {
  }

  // ----- the value table -----

  /** The table's value cells (`_value_vars`): ten duty cycles, ten currents, AHL and LWR. */
  class ValueTable {
    var shown: seq<string>

    constructor(cells: nat)
      ensures |shown| == cells
      ensures forall k :: 0 <= k < cells ==> shown[k] == ""
    {
      shown := seq(cells, _ => "");
    }

    /**
     * `_apply_values`: cell k shows `values[k]` where there is one, and "-"
     * otherwise; extra values are ignored.
     */
    method ApplyValues(values: seq<string>)
      modifies this
      ensures |shown| == old(|shown|)
      ensures forall k :: 0 <= k < |shown| ==> shown[k] == (if k < |values| then values[k] else "-")
    {
      var count := 0;
      while count < |shown| && count < |values|
        invariant 0 <= count <= |shown| && count <= |values|
        invariant |shown| == old(|shown|)
        invariant forall k :: 0 <= k < count ==> shown[k] == values[k]
      {
        shown := shown[count := values[count]];
        count := count + 1;
      }
      var k := count;
      while k < |shown|
        invariant count <= k <= |shown|
        invariant |shown| == old(|shown|)
        invariant forall j :: 0 <= j < count ==> shown[j] == values[j]
        invariant forall j :: count <= j < k ==> shown[j] == "-"
      {
        shown := shown[k := "-"];
        k := k + 1;
      }
    }
  }
}
