/**
 * The trigger finder's ground-truth detectors (`LEDAnyOn`, `AHLMove`,
 * `LWRMove`, `UDSCustom`, `CanBit`) and `_instantiate_detector`.  Angles are
 * integer tenths of a degree; the default movement thresholds 1.0 and 0.5
 * degrees are 10 and 5 tenths.
 */
module Detectors {
  import opened Wrappers
  import opened Can
  import opened UdsLenient
  import Decoders

  const DID_LED := 0xD631
  const DID_AHL := 0xD663
  const DID_LWR := 0xD63B

  /** `AHLMove()` and `LWRMove()` thresholds, in tenths of a degree. */
  const AHL_DELTA := 10
  const LWR_DELTA := 5

  /** `CanBit` watches the bus for 0.2 s per reading. */
  const CAN_WINDOW := 200

  /** The comparison operators `UDSCustom` accepts. */
  datatype Op = Gt | Ge | Eq | Ne | Lt | Le

  /** A `CanBit` rule: frame id, byte index, mask and the value the masked byte must reach. */
  datatype CanRule = CanRule(canId: int, byteIdx: int, mask: int, value: int)

  /** Which detector runs, with its parameters. */
  datatype Target =
    | LedAnyOn
    | AhlMove(delta: int)
    | LwrMove(delta: int)
    | UdsCustom(did: int, op: Op, th: real, index: int)
    | CanBit(rule: CanRule)

  /**
   * Why a reading raised: the UDS read timed out, an index was out of range
   * (`IndexError`), or the profile's keywords did not fit `uds_read_by_id`
   * (`TypeError`).
   */
  datatype DetectError = UdsTimeout(did: int) | IndexError | ArgumentError

  function Abs(x: int): nat {
    if x < 0 then -x else x
  }

  // ----- LEDAnyOn -----

  /** LED pair `k` is on: at least 50 mA, or a duty cycle above 0 % (a missing duty byte reads 0). */
  predicate LedOn(payload: seq<byte>, k: nat)
    requires k < |payload|
  {
    payload[k] as int * 10 >= 50 || (k + 1 < |payload| && payload[k + 1] > 0)
  }

  /** The pairs from `i` on: (current in 10 mA steps, duty cycle) at even positions below min(len, 20). */
  function AnyOnFrom(payload: seq<byte>, i: nat): bool
    decreases |payload| - i
  {
    if i >= Min(|payload|, 20) then false
    else
      var milliamp := payload[i] as int * 10;
      var pct := if i + 1 < |payload| then payload[i + 1] else 0;
      if pct > 0 || milliamp >= 50 then true else AnyOnFrom(payload, i + 2)
  }

  /** `LEDAnyOn.read_state` on a payload. */
  function LedAnyOnState(payload: seq<byte>): bool {
    AnyOnFrom(payload, 0)
  }

  lemma {:induction false} AnyOnFromSpec(payload: seq<byte>, i: nat)
    requires i % 2 == 0
    ensures AnyOnFrom(payload, i) <==> exists k :: i <= k < Min(|payload|, 20) && k % 2 == 0 && LedOn(payload, k)
    decreases |payload| - i
  {
    if i < Min(|payload|, 20) {
      AnyOnFromSpec(payload, i + 2);
      if !LedOn(payload, i) {
        forall k | i <= k < Min(|payload|, 20) && k % 2 == 0 && LedOn(payload, k) ensures i + 2 <= k {
        }
      }
    }
  }

  /**
   * Some LED is on exactly when an even position below min(len, 20) holds a
   * current of at least 50 mA or is followed by a duty cycle above 0 %.
   */
  lemma LedAnyOnSpec(payload: seq<byte>)
    ensures LedAnyOnState(payload) <==> exists k :: 0 <= k < Min(|payload|, 20) && k % 2 == 0 && LedOn(payload, k)
  {
    AnyOnFromSpec(payload, 0);
  }

  /**
   * The detector reads the LED record as interleaved (current, duty) pairs,
   * while the table decoder reads ten duty cycles followed by ten currents:
   * for `[0, 0, 4]` the table shows LED 3 at 4 % but the detector sees no LED on.
   */
  lemma LedLayoutDisagreement()
    ensures Decoders.LedLevels([0, 0, 4]).0[2] == 4
    ensures !LedAnyOnState([0, 0, 4])
  {
    var payload: seq<byte> := [0, 0, 4];
    Decoders.LedLevelsSpec(payload);
    assert Decoders.ByteAt(payload, 2) == 4;
    LedAnyOnSpec(payload);
    assert !LedOn(payload, 0) && !LedOn(payload, 2);
  }

  // ----- AHLMove / LWRMove -----

  /**
   * One movement reading against the baseline `prev`: the first reading only
   * sets the baseline; later ones report a move of at least `delta` and always
   * become the new baseline.
   */
  function Move(prev: Option<int>, val: int, delta: int): (bool, Option<int>) {
    if prev.None? then (false, Some(val)) else (Abs(val - prev.value) >= delta, Some(val))
  }

  // ----- UDSCustom -----

  function ParseOp(s: string): Option<Op> {
    if s == ">" then Some(Gt)
    else if s == ">=" then Some(Ge)
    else if s == "==" then Some(Eq)
    else if s == "!=" then Some(Ne)
    else if s == "<" then Some(Lt)
    else if s == "<=" then Some(Le)
    else None
  }

  function OpText(op: Op): string {
    match op
    case Gt => ">"
    case Ge => ">="
    case Eq => "=="
    case Ne => "!="
    case Lt => "<"
    case Le => "<="
  }

  function Compare(op: Op, a: real, b: real): bool {
    match op
    case Gt => a > b
    case Ge => a >= b
    case Eq => a == b
    case Ne => a != b
    case Lt => a < b
    case Le => a <= b
  }

  /** Python's `s[k]` for any integer `k` (negative counts from the end); None is `IndexError`. */
  function PyIndex(s: seq<byte>, k: int): Option<byte> {
    if 0 <= k < |s| then Some(s[k])
    else if -|s| <= k < 0 then Some(s[|s| + k])
    else None
  }

  /** `UDSCustom.read_state` on a payload: `payload[index]`, or 0 when `len(payload) <= index`, compared with `th`. */
  function CustomState(payload: seq<byte>, op: Op, th: real, index: int): Result<bool, DetectError> {
    if |payload| > index then
      match PyIndex(payload, index)
      case None => Failure(IndexError)
      case Some(v) => Success(Compare(op, v as real, th))
    else Success(Compare(op, 0.0, th))
  }

  // ----- CanBit -----

  /** Python's `a & b` on integers (two's complement). */
  function BitAnd(a: int, b: int): int
    decreases Abs(a) + Abs(b)
  {
    if a == 0 || b == 0 then 0
    else if a == -1 then b
    else if b == -1 then a
    else 2 * BitAnd(a / 2, b / 2) + (a % 2) * (b % 2)
  }

  /** A frame the rule looks at: its id, with the watched byte below the DLC. */
  predicate Watched(c: CanRule, po: Poll) {
    po.frame.Some? && po.frame.value.id == c.canId && c.byteIdx < |po.frame.value.data|
  }

  /** The masked watched byte of a watched frame; None when Python's indexing raises. */
  function Masked(c: CanRule, po: Poll): Option<int>
    requires Watched(c, po)
  {
    match PyIndex(po.frame.value.data, c.byteIdx)
    case None => None
    case Some(b) => Some(BitAnd(b, c.mask))
  }

  /** `value & mask`. */
  function TargetValue(c: CanRule): int {
    BitAnd(c.value, c.mask)
  }

  /**
   * The CanBit window from poll `i`, opened at poll `open`: every watched frame
   * overwrites `last`; the first whose masked byte equals the target ends the
   * window and reports whether `last` differed from it.  Returns the result,
   * the new `last` and the first unread poll.
   */
  function CanScan(polls: seq<Poll>, c: CanRule, last: int, open: nat, i: nat): (Result<bool, DetectError>, int, nat)
    requires open <= i <= |polls|
    decreases |polls| - i
  {
    if i == |polls| || !InTime(polls, open, i, CAN_WINDOW) then (Success(false), last, i)
    else if !Watched(c, polls[i]) then CanScan(polls, c, last, open, i + 1)
    else match Masked(c, polls[i])
      case None => (Failure(IndexError), last, i + 1)
      case Some(m) =>
        if m == TargetValue(c) then (Success(last != TargetValue(c)), m, i + 1)
        else CanScan(polls, c, m, open, i + 1)
  }

  /** `a & b` of a non-negative `a` lies between 0 and `a`, whatever the sign of `b`. */
  lemma {:induction false} BitAndRange(a: int, b: int)
    requires a >= 0
    ensures 0 <= BitAnd(a, b) <= a
    decreases Abs(a) + Abs(b)
  {
    if a != 0 && b != 0 && b != -1 {
      BitAndRange(a / 2, b / 2);
    }
  }

  /** A watched frame that ends the window: its byte cannot be indexed, or its masked byte is the target. */
  predicate Stops(c: CanRule, po: Poll) {
    Watched(c, po) && (Masked(c, po).None? || Masked(c, po).value == TargetValue(c))
  }

  /** The masked byte of the last indexable watched frame in `polls[i..j]`, or `last` when there is none. */
  function LastMasked(polls: seq<Poll>, c: CanRule, last: int, i: nat, j: nat): int
    requires i <= j <= |polls|
    decreases j - i
  {
    if j == i then last
    else if Watched(c, polls[j - 1]) && Masked(c, polls[j - 1]).Some? then Masked(c, polls[j - 1]).value
    else LastMasked(polls, c, last, i, j - 1)
  }

  /** Reading one more poll at the front of the range is the same as starting from the `last` it leaves. */
  lemma {:induction false} LastMaskedShift(polls: seq<Poll>, c: CanRule, last: int, i: nat, j: nat)
    requires i < j <= |polls|
    ensures LastMasked(polls, c, last, i, j) ==
      LastMasked(polls, c, if Watched(c, polls[i]) && Masked(c, polls[i]).Some? then Masked(c, polls[i]).value else last, i + 1, j)
    decreases j - i
  {
    if j > i + 1 {
      LastMaskedShift(polls, c, last, i, j - 1);
    }
  }

  /**
   * The CanBit window: it reads polls `i..n` inside the 0.2 s window, none
   * before the last of them ends it; it either runs out (no rising edge, and
   * `last` is the last masked byte seen), hits an unindexable byte
   * (`IndexError`), or hits the target value and reports a rising edge exactly
   * when the masked byte seen before it differs from the target.
   */
  lemma {:induction false} CanScanSpec(polls: seq<Poll>, c: CanRule, last: int, open: nat, i: nat)
    requires open <= i <= |polls|
    ensures var (r, l, n) := CanScan(polls, c, last, open, i);
      && i <= n <= |polls|
      && (forall j :: i <= j < n ==> InTime(polls, open, j, CAN_WINDOW))
      && (forall j :: i <= j < n - 1 ==> !Stops(c, polls[j]))
      && (if n > i && Stops(c, polls[n - 1]) then
            if Masked(c, polls[n - 1]).None? then r == Failure(IndexError) && l == LastMasked(polls, c, last, i, n - 1)
            else r == Success(LastMasked(polls, c, last, i, n - 1) != TargetValue(c)) && l == TargetValue(c)
          else
            r == Success(false) && l == LastMasked(polls, c, last, i, n)
            && (n == |polls| || !InTime(polls, open, n, CAN_WINDOW)))
    decreases |polls| - i
  {
    if i == |polls| || !InTime(polls, open, i, CAN_WINDOW) {
    } else if Stops(c, polls[i]) {
      assert CanScan(polls, c, last, open, i).2 == i + 1;
    } else {
      var m := if Watched(c, polls[i]) then Masked(c, polls[i]).value else last;
      assert CanScan(polls, c, last, open, i) == CanScan(polls, c, m, open, i + 1);
      CanScanSpec(polls, c, m, open, i + 1);
      var n := CanScan(polls, c, m, open, i + 1).2;
      if n > i + 1 {
        LastMaskedShift(polls, c, last, i, n - 1);
        LastMaskedShift(polls, c, last, i, n);
      }
    }
  }

  /** A target `value & mask` outside 0..255 (say both negative) can never be reached by a data byte, so it never fires. */
  lemma CanBitUnreachableTarget(polls: seq<Poll>, c: CanRule, last: int, open: nat, i: nat)
    requires open <= i <= |polls|
    requires TargetValue(c) < 0 || TargetValue(c) > 255
    ensures CanScan(polls, c, last, open, i).0 != Success(true)
  {
    CanScanSpec(polls, c, last, open, i);
    var n := CanScan(polls, c, last, open, i).2;
    if n > i && Stops(c, polls[n - 1]) && Masked(c, polls[n - 1]).Some? {
      var b := PyIndex(polls[n - 1].frame.value.data, c.byteIdx).value;
      BitAndRange(b, c.mask);
      assert false;
    }
  }

  // ----- one reading of any detector -----

  /** What one `read_state` returns, sends and leaves behind. */
  datatype Reading = Reading(result: Result<bool, DetectError>, sent: seq<Frame>, next: nat, prev: Option<int>, last: int)

  /** The identifier a UDS detector reads. */
  function DidOf(t: Target): int
    requires !t.CanBit?
  {
    match t
    case LedAnyOn => DID_LED
    case AhlMove(_) => DID_AHL
    case LwrMove(_) => DID_LWR
    case UdsCustom(did, _, _, _) => did
  }

  /** The UDS read a detector makes with the bound arguments `a`. */
  function ReadUds(polls: seq<Poll>, a: ReadArgs, did: int): Exchange {
    ReadById(polls, a.profile, did, a.timeout)
  }

  /**
   * `read_state` of the detector `t` with baseline `prev` and last masked byte
   * `last`, given the profile dictionary `kw`: `CanBit` ignores the profile;
   * a UDS detector passes it as `**profile`, and when the keywords do not bind
   * the call raises `TypeError` before anything is sent or read.
   */
  function Step(t: Target, prev: Option<int>, last: int, polls: seq<Poll>, kw: Kwargs): Reading {
    if t.CanBit? then
      var (r, newLast, next) := CanScan(polls, t.rule, last, 0, 0);
      Reading(r, [], next, prev, newLast)
    else match BindReadArgs(kw)
      case None => Reading(Failure(ArgumentError), [], 0, prev, last)
      case Some(a) => UdsStep(t, prev, last, ReadUds(polls, a, DidOf(t)))
  }

  /** A UDS detector's reading once its read `e` is done: a timeout is reported for its DID, a payload is judged. */
  function UdsStep(t: Target, prev: Option<int>, last: int, e: Exchange): Reading
    requires !t.CanBit?
  {
    if e.result.Failure? then Reading(Failure(UdsTimeout(DidOf(t))), e.sent, e.next, prev, last)
    else
      var payload := e.result.value;
      match t
      case LedAnyOn => Reading(Success(LedAnyOnState(payload)), e.sent, e.next, prev, last)
      case AhlMove(delta) =>
        if |payload| < 2 then Reading(Success(false), e.sent, e.next, prev, last)
        else
          var (trig, newPrev) := Move(prev, payload[0] as int * 256 + payload[1], delta);
          Reading(Success(trig), e.sent, e.next, newPrev, last)
      case LwrMove(delta) =>
        if |payload| == 0 then Reading(Success(false), e.sent, e.next, prev, last)
        else
          var (trig, newPrev) := Move(prev, payload[0], delta);
          Reading(Success(trig), e.sent, e.next, newPrev, last)
      case UdsCustom(_, op, th, index) => Reading(CustomState(payload, op, th, index), e.sent, e.next, prev, last)
  }

  /** A UDS detector whose read times out reports `UdsTimeout` for its identifier and keeps its state. */
  lemma StepTimeout(t: Target, prev: Option<int>, last: int, polls: seq<Poll>, kw: Kwargs)
    requires !t.CanBit? && BindReadArgs(kw).Some?
    requires ReadUds(polls, BindReadArgs(kw).value, DidOf(t)).result.Failure?
    ensures var st := Step(t, prev, last, polls, kw);
      st.result == Failure(UdsTimeout(DidOf(t))) && st.prev == prev && st.last == last
  {
  }

  /**
   * `AHLMove`: a payload under two bytes reads as "not moved" and keeps the
   * baseline; otherwise the angle is the one the table page shows
   * (`_decode_ahl`), the first reading never fires, a later one fires exactly
   * when the angle moved by at least `delta`, and the angle becomes the baseline.
   */
  lemma AhlStep(delta: int, prev: Option<int>, last: int, polls: seq<Poll>, kw: Kwargs)
    requires BindReadArgs(kw).Some? && ReadUds(polls, BindReadArgs(kw).value, DID_AHL).result.Success?
    ensures var payload := ReadUds(polls, BindReadArgs(kw).value, DID_AHL).result.value;
      var st := Step(AhlMove(delta), prev, last, polls, kw);
      && (|payload| < 2 ==> st.result == Success(false) && st.prev == prev)
      && (|payload| >= 2 ==>
            && st.prev == Some(Decoders.DecodeAhl(payload))
            && st.result == Success(prev.Some? && Abs(Decoders.DecodeAhl(payload) - prev.value) >= delta))
      && st.last == last
  {
  }

  /** `LWRMove`: the same rule on the first payload byte, the angle `_decode_lwr` shows; an empty payload keeps the baseline. */
  lemma LwrStep(delta: int, prev: Option<int>, last: int, polls: seq<Poll>, kw: Kwargs)
    requires BindReadArgs(kw).Some? && ReadUds(polls, BindReadArgs(kw).value, DID_LWR).result.Success?
    ensures var payload := ReadUds(polls, BindReadArgs(kw).value, DID_LWR).result.value;
      var st := Step(LwrMove(delta), prev, last, polls, kw);
      && (|payload| == 0 ==> st.result == Success(false) && st.prev == prev)
      && (|payload| > 0 ==>
            && st.prev == Some(Decoders.DecodeLwr(payload))
            && st.result == Success(prev.Some? && Abs(Decoders.DecodeLwr(payload) - prev.value) >= delta))
      && st.last == last
  {
  }

  /** After a reset the first movement reading only sets the baseline; two equal readings never fire. */
  lemma MoveBaseline(val: int, delta: int)
    requires delta > 0
    ensures Move(None, val, delta) == (false, Some(val))
    ensures Move(Move(None, val, delta).1, val, delta) == (false, Some(val))
  {
  }

  /**
   * `UDSCustom` compares `payload[index]` with Python's indexing: a
   * non-negative index past the end reads 0, a negative one counts from the
   * end, and one below `-len(payload)` raises `IndexError`.
   */
  lemma CustomIndexing(payload: seq<byte>, op: Op, th: real, index: int)
    ensures index >= |payload| ==> CustomState(payload, op, th, index) == Success(Compare(op, 0.0, th))
    ensures 0 <= index < |payload| ==> CustomState(payload, op, th, index) == Success(Compare(op, payload[index] as real, th))
    ensures -|payload| <= index < 0 ==> CustomState(payload, op, th, index) == Success(Compare(op, payload[|payload| + index] as real, th))
    ensures index < -|payload| <==> CustomState(payload, op, th, index) == Failure(IndexError)
  {
  }

  /**
   * A reading never runs past the stream.  `CanBit` sends nothing.  A UDS
   * detector whose profile binds sends its request first and at most one flow
   * control after it; one whose profile does not bind sends nothing, reads
   * nothing, keeps its state and reports `TypeError`.
   */
  lemma StepNextBound(t: Target, prev: Option<int>, last: int, polls: seq<Poll>, kw: Kwargs)
    ensures Step(t, prev, last, polls, kw).next <= |polls|
    ensures t.CanBit? ==> Step(t, prev, last, polls, kw).sent == []
    ensures !t.CanBit? && BindReadArgs(kw).Some? ==>
      var st := Step(t, prev, last, polls, kw);
      1 <= |st.sent| <= 2 && st.sent[0] == Request(BindReadArgs(kw).value.profile, DidOf(t))
    ensures !t.CanBit? && BindReadArgs(kw).None? ==>
      Step(t, prev, last, polls, kw) == Reading(Failure(ArgumentError), [], 0, prev, last)
  {
    if t.CanBit? {
      CanScanSpec(polls, t.rule, last, 0, 0);
    } else if BindReadArgs(kw).Some? {
      var a := BindReadArgs(kw).value;
      ReadByIdSends(polls, a.profile, DidOf(t), a.timeout);
    }
  }

  /** A detector object: its target and its mutable baseline (`prev`) and last masked byte (`_last`). */
  class Detector {
    const target: Target
    var prev: Option<int>
    var last: int

    constructor(t: Target)
      ensures target == t && prev == None && last == 0
    {
      target := t;
      prev := None;
      last := 0;
    }

    /** `reset`: the movement detectors forget their baseline, CanBit sets `_last` to 0, the others keep nothing. */
    method Reset()
      modifies this
      ensures (target.AhlMove? || target.LwrMove?) ==> prev == None && last == old(last)
      ensures target.CanBit? ==> last == 0 && prev == old(prev)
      ensures !(target.AhlMove? || target.LwrMove? || target.CanBit?) ==> prev == old(prev) && last == old(last)
    {
      if target.AhlMove? || target.LwrMove? {
        prev := None;
      } else if target.CanBit? {
        last := 0;
      }
    }

    /** `read_state`: one reading from the stream, updating the detector's state as `Step` says. */
    method ReadState(polls: seq<Poll>, kw: Kwargs) returns (r: Result<bool, DetectError>, sent: seq<Frame>, next: nat)
      modifies this
      ensures Reading(r, sent, next, prev, last) == Step(target, old(prev), old(last), polls, kw)
    {
      if target.CanBit? {
        r, next := ScanWindow(polls, target.rule);
        sent := [];
        return;
      }
      var args := BindReadArgs(kw);
      if args.None? {
        return Failure(ArgumentError), [], 0;
      }
      var did := DidOf(target);
      var e := UdsReadById(polls, args.value.profile, did, args.value.timeout);
      sent, next := e.sent, e.next;
      if e.result.Failure? {
        r := Failure(UdsTimeout(did));
        return;
      }
      var payload := e.result.value;
      match target {
        case LedAnyOn =>
          r := Success(LedAnyOnState(payload));
        case AhlMove(delta) =>
          if |payload| < 2 {
            r := Success(false);
          } else {
            var trig, newPrev := Move(prev, payload[0] as int * 256 + payload[1], delta).0, Move(prev, payload[0] as int * 256 + payload[1], delta).1;
            r, prev := Success(trig), newPrev;
          }
        case LwrMove(delta) =>
          if |payload| == 0 {
            r := Success(false);
          } else {
            var trig, newPrev := Move(prev, payload[0], delta).0, Move(prev, payload[0], delta).1;
            r, prev := Success(trig), newPrev;
          }
        case UdsCustom(_, op, th, index) =>
          r := CustomState(payload, op, th, index);
      }
    }

    /** `CanBit.read_state`'s polling loop over its 0.2 s window. */
    method ScanWindow(polls: seq<Poll>, c: CanRule) returns (r: Result<bool, DetectError>, next: nat)
      modifies this
      ensures (r, last, next) == CanScan(polls, c, old(last), 0, 0)
      ensures prev == old(prev)
    {
      var i := 0;
      while i < |polls| && InTime(polls, 0, i, CAN_WINDOW)
        invariant 0 <= i <= |polls|
        invariant CanScan(polls, c, last, 0, i) == CanScan(polls, c, old(last), 0, 0)
        invariant prev == old(prev)
        decreases |polls| - i
      {
        if Watched(c, polls[i]) {
          var m := Masked(c, polls[i]);
          if m.None? {
            return Failure(IndexError), i + 1;
          }
          if m.value == TargetValue(c) {
            var rising := last != TargetValue(c);
            last := m.value;
            return Success(rising), i + 1;
          }
          last := m.value;
        }
        i := i + 1;
      }
      return Success(false), i;
    }
  }

  // ----- _instantiate_detector -----

  /** The runner's detector settings; None is a parameter left empty in the form. */
  datatype Settings = Settings(
    target: string,
    did: Option<int>, op: string, th: real, index: int,
    canId: Option<int>, canByte: Option<int>, canMask: Option<int>, canValue: Option<int>)

  /** Why `_instantiate_detector` raises. */
  datatype InitError = UnknownTarget | MissingDid | InvalidOp | MissingCanParams

  /** `_instantiate_detector`: the detector the settings name, with default thresholds for the movement detectors. */
  function Instantiate(s: Settings): Result<Target, InitError> {
    if s.target == "LED_ANY_ON" then Success(LedAnyOn)
    else if s.target == "AHL_MOVE" then Success(AhlMove(AHL_DELTA))
    else if s.target == "LWR_MOVE" then Success(LwrMove(LWR_DELTA))
    else if s.target == "UDS_CUSTOM" then
      if s.did.None? then Failure(MissingDid)
      else match ParseOp(s.op)
        case None => Failure(InvalidOp)
        case Some(op) => Success(UdsCustom(s.did.value, op, s.th, s.index))
    else if s.target == "CAN_BIT" then
      if s.canId.None? || s.canByte.None? || s.canMask.None? || s.canValue.None? then Failure(MissingCanParams)
      else Success(CanBit(CanRule(s.canId.value, s.canByte.value, s.canMask.value, s.canValue.value)))
    else Failure(UnknownTarget)
  }

  /** The name `DETECTORS` files each detector under. */
  function Name(t: Target): string {
    match t
    case LedAnyOn => "LED_ANY_ON"
    case AhlMove(_) => "AHL_MOVE"
    case LwrMove(_) => "LWR_MOVE"
    case UdsCustom(_, _, _, _) => "UDS_CUSTOM"
    case CanBit(_) => "CAN_BIT"
  }

  /** Exactly the six operator strings parse, each to the operator it spells. */
  lemma ParseOpText(s: string, op: Op)
    ensures ParseOp(OpText(op)) == Some(op)
    ensures ParseOp(s) == Some(op) <==> s == OpText(op)
  {
  }

  /**
   * The settings give a detector exactly when they name one of the five, with
   * a DID and a valid operator for `UDS_CUSTOM` and all four CAN parameters for
   * `CAN_BIT`; the detector made is the one named, and a missing DID is
   * reported before an invalid operator.
   */
  lemma InstantiateSpec(s: Settings)
    ensures Instantiate(s).Success? <==>
      && s.target in {"LED_ANY_ON", "AHL_MOVE", "LWR_MOVE", "UDS_CUSTOM", "CAN_BIT"}
      && (s.target == "UDS_CUSTOM" ==> s.did.Some? && ParseOp(s.op).Some?)
      && (s.target == "CAN_BIT" ==> s.canId.Some? && s.canByte.Some? && s.canMask.Some? && s.canValue.Some?)
    ensures Instantiate(s).Success? ==> Name(Instantiate(s).value) == s.target
    ensures Instantiate(s).Success? && s.target == "AHL_MOVE" ==> Instantiate(s).value.delta == AHL_DELTA
    ensures Instantiate(s).Success? && s.target == "LWR_MOVE" ==> Instantiate(s).value.delta == LWR_DELTA
    ensures s.target == "UDS_CUSTOM" && s.did.None? ==> Instantiate(s) == Failure(MissingDid)
  {
  }
}
