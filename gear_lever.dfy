/**
 * The gear-lever simulation page of `bmw.py` (`GearLeverPage`): pressing a
 * direction button sends a "tap" frame and arms a 600 ms timer that sends the
 * "hold" (overpress) frame if the button is still down; releasing it sends
 * "rest"; the park button toggles between "park pressed" and "park released".
 * Tk's `after` timer is modelled by the pending job's direction and an explicit
 * `FireTimer` event; what is sent is a log of actions.
 */
module GearLever {
  import opened Wrappers
  import opened Can
  import opened Text

  datatype Direction = Forward | Back

  /** The keys of `GEAR_ACTIONS`. */
  datatype Action = Rest | Tap(dir: Direction) | Hold(dir: Direction) | ParkPress | ParkRelease

  /** `HOLD_DELAY_MS`: the hold fires this long after a press. */
  const HOLD_DELAY_MS: nat := 600

  /** `GEAR_LEVER_STATES`: the name, CAN id and data of each lever state. */
  const GEAR_LEVER_STATES: seq<(string, string, string)> := [
    ("Ruhestellung", "65E", "F10462D20000"),
    ("Tippen nach vorne", "65E", "F10462D20001"),
    ("Ueberdruecken nach vorne", "65E", "F10462D20002"),
    ("Tippen nach hinten", "65E", "F10462D20003"),
    ("Ueberdruecken nach hinten", "65E", "F10462D20004"),
    ("Parktaster ungedrueckt", "65E", "F1210000FFFFFFFF"),
    ("Parktaster gedrueckt", "65E", "F1210001FFFFFFFF")
  ]

  /** `GEAR_ACTIONS`: the lever state each action sends. */
  function StateName(a: Action): string {
    match a
    case Rest => "Ruhestellung"
    case Tap(Forward) => "Tippen nach vorne"
    case Hold(Forward) => "Ueberdruecken nach vorne"
    case Tap(Back) => "Tippen nach hinten"
    case Hold(Back) => "Ueberdruecken nach hinten"
    case ParkPress => "Parktaster gedrueckt"
    case ParkRelease => "Parktaster ungedrueckt"
  }

  /** `GEAR_LEVER_LOOKUP.get(name)`: the dict built from the table, where a later entry wins. */
  function Lookup(table: seq<(string, string, string)>, name: string): Option<(string, string)> {
    if table == [] then None
    else
      var last := table[|table| - 1];
      if last.0 == name then Some((last.1, last.2)) else Lookup(table[..|table| - 1], name)
  }

  /** `make_msg(can_id_hex, data_hex)`: None where `int(..., 16)` or `bytes.fromhex` raises. */
  function MakeMsg(idHex: string, dataHex: string): Option<Frame> {
    match PyInt16(idHex)
    case None => None
    case Some(id) =>
      match FromHex(dataHex)
      case None => None
      case Some(data) => Some(Frame(id, data))
  }

  /** The frame `_send_action` puts on the bus for `a`. */
  function ActionFrame(a: Action): Option<Frame> {
    match Lookup(GEAR_LEVER_STATES, StateName(a))
    case None => None
    case Some(p) => MakeMsg(p.0, p.1)
  }

  /** A name is looked up at its last entry in the table. */
  lemma {:induction false} LookupAt(table: seq<(string, string, string)>, name: string, i: nat)
    requires i < |table| && table[i].0 == name
    requires forall m :: i < m < |table| ==> table[m].0 != name
    ensures Lookup(table, name) == Some((table[i].1, table[i].2))
  {
    var n := |table|;
    if i < n - 1 {
      LookupAt(table[..n - 1], name, i);
    }
  }

  /** The lever's CAN id "65E" parses to 0x65E. */
  lemma GearId()
    ensures PyInt16("65E") == Some(0x65E)
  {
    var id := "65E";
    StripNoSpace(id);
    assert DropPrefix(id) == id;
    assert id[..2] == "65" && id[..2][..1] == "6" && "6"[..0] == [];
    assert RunValue(id) == 0x65E;
  }

  /** The data of lever state `k`: F1 04 62 D2 00 k. */
  lemma LeverData(k: nat)
    requires k < 5
    ensures FromHex("F10462D2000" + [HexChar(k)]) == Some([0xF1, 0x04, 0x62, 0xD2, 0x00, k])
  {
    LeverHex(k);
    FromHexHexString([0xF1, 0x04, 0x62, 0xD2, 0x00, k]);
  }

  /** The rendering of lever state `k`. */
  lemma LeverHex(k: nat)
    requires k < 5
    ensures HexString([0xF1, 0x04, 0x62, 0xD2, 0x00, k]) == "F10462D2000" + [HexChar(k)]
  {
    var bs: seq<byte> := [0xF1, 0x04, 0x62, 0xD2, 0x00, k];
    assert HexByte(0xF1) == "F1" && HexByte(0x04) == "04" && HexByte(0x62) == "62";
    assert HexString(bs) == HexByte(0xF1) + HexString(bs[1..]);
    assert HexString(bs[1..]) == HexByte(0x04) + HexString(bs[2..]);
    assert HexString(bs[2..]) == HexByte(0x62) + HexString(bs[3..]);
    assert bs[3..] == [0xD2, 0x00, k];
    LeverHexTail(k);
  }

  /** The rendering of the last three bytes of lever state `k`. */
  lemma LeverHexTail(k: nat)
    requires k < 5
    ensures HexString([0xD2, 0x00, k]) == "D2000" + [HexChar(k)]
  {
    var bs: seq<byte> := [0xD2, 0x00, k];
    assert HexByte(0xD2) == "D2" && HexByte(0x00) == "00" && HexByte(k) == ['0', HexChar(k)];
    assert HexString(bs) == HexByte(0xD2) + HexString(bs[1..]);
    assert HexString(bs[1..]) == HexByte(0x00) + HexString(bs[2..]);
    assert HexString(bs[2..]) == HexByte(k) + HexString(bs[3..]);
  }

  /** The data of the park states: F1 21 00 k FF FF FF FF. */
  lemma ParkData(k: nat)
    requires k < 2
    ensures FromHex("F121000" + [HexChar(k)] + "FFFFFFFF") == Some([0xF1, 0x21, 0x00, k, 0xFF, 0xFF, 0xFF, 0xFF])
  {
    var bs: seq<byte> := [0xF1, 0x21, 0x00, k, 0xFF, 0xFF, 0xFF, 0xFF];
    ParkHex(k);
    FromHexHexString(bs);
  }

  /** The rendering of the park data. */
  lemma ParkHex(k: nat)
    requires k < 2
    ensures HexString([0xF1, 0x21, 0x00, k, 0xFF, 0xFF, 0xFF, 0xFF]) == "F121000" + [HexChar(k)] + "FFFFFFFF"
  {
    var bs: seq<byte> := [0xF1, 0x21, 0x00, k, 0xFF, 0xFF, 0xFF, 0xFF];
    assert HexByte(0xF1) == "F1" && HexByte(0x21) == "21" && HexByte(0x00) == "00";
    assert HexString(bs) == HexByte(0xF1) + HexString(bs[1..]);
    assert HexString(bs[1..]) == HexByte(0x21) + HexString(bs[2..]);
    assert HexString(bs[2..]) == HexByte(0x00) + HexString(bs[3..]);
    assert bs[3..] == [k, 0xFF, 0xFF, 0xFF, 0xFF];
    ParkHexTail(k);
  }

  /** The rendering of the park state byte and the four 0xFF bytes after it. */
  lemma ParkHexTail(k: nat)
    requires k < 2
    ensures HexString([k, 0xFF, 0xFF, 0xFF, 0xFF]) == ['0', HexChar(k)] + "FFFFFFFF"
  {
    var bs: seq<byte> := [k, 0xFF, 0xFF, 0xFF, 0xFF];
    assert HexByte(k) == ['0', HexChar(k)];
    assert HexString(bs) == HexByte(k) + HexString(bs[1..]);
    assert bs[1..] == [0xFF, 0xFF, 0xFF, 0xFF];
    AllSet();
  }

  /** Four bytes 0xFF render as "FFFFFFFF". */
  lemma AllSet()
    ensures HexString([0xFF, 0xFF, 0xFF, 0xFF]) == "FFFFFFFF"
  {
    var bs: seq<byte> := [0xFF, 0xFF, 0xFF, 0xFF];
    assert HexByte(0xFF) == "FF";
    assert HexString(bs) == HexByte(0xFF) + HexString(bs[1..]);
    assert HexString(bs[1..]) == HexByte(0xFF) + HexString(bs[2..]);
    assert HexString(bs[2..]) == HexByte(0xFF) + HexString(bs[3..]);
    assert HexString(bs[3..]) == HexByte(0xFF) + HexString(bs[4..]);
  }

  /** The frame of the action whose state sits in row `i` of the table (the names differ in length). */
  lemma RowFrame(i: nat, a: Action, data: seq<byte>)
    requires i < |GEAR_LEVER_STATES| && GEAR_LEVER_STATES[i].0 == StateName(a)
    requires forall m :: i < m < |GEAR_LEVER_STATES| ==> |GEAR_LEVER_STATES[m].0| != |StateName(a)|
    requires GEAR_LEVER_STATES[i].1 == "65E" && FromHex(GEAR_LEVER_STATES[i].2) == Some(data)
    ensures ActionFrame(a) == Some(Frame(0x65E, data))
  {
    LookupAt(GEAR_LEVER_STATES, StateName(a), i);
    GearId();
  }

  /** Every lever action has its table entry and sends on 0x65E; the states differ only in their last byte. */
  lemma LeverFrames()
    ensures ActionFrame(Rest) == Some(Frame(0x65E, [0xF1, 0x04, 0x62, 0xD2, 0x00, 0x00]))
    ensures ActionFrame(Tap(Forward)) == Some(Frame(0x65E, [0xF1, 0x04, 0x62, 0xD2, 0x00, 0x01]))
    ensures ActionFrame(Hold(Forward)) == Some(Frame(0x65E, [0xF1, 0x04, 0x62, 0xD2, 0x00, 0x02]))
    ensures ActionFrame(Tap(Back)) == Some(Frame(0x65E, [0xF1, 0x04, 0x62, 0xD2, 0x00, 0x03]))
    ensures ActionFrame(Hold(Back)) == Some(Frame(0x65E, [0xF1, 0x04, 0x62, 0xD2, 0x00, 0x04]))
  {
    var t := GEAR_LEVER_STATES;
    var acts := [Rest, Tap(Forward), Hold(Forward), Tap(Back), Hold(Back)];
    forall k | 0 <= k < 5 ensures ActionFrame(acts[k]) == Some(Frame(0x65E, [0xF1, 0x04, 0x62, 0xD2, 0x00, k])) {
      LeverData(k);
      assert t[k].2 == "F10462D2000" + [HexChar(k)];
      RowFrame(k, acts[k], [0xF1, 0x04, 0x62, 0xD2, 0x00, k]);
    }
    assert acts[0] == Rest && acts[1] == Tap(Forward) && acts[2] == Hold(Forward);
    assert acts[3] == Tap(Back) && acts[4] == Hold(Back);
  }

  /** Row `5 + k` of the table holds park state `k` on 0x65E. */
  lemma ParkRow(k: nat)
    requires k < 2
    ensures GEAR_LEVER_STATES[5 + k].1 == "65E"
    ensures FromHex(GEAR_LEVER_STATES[5 + k].2) == Some([0xF1, 0x21, 0x00, k, 0xFF, 0xFF, 0xFF, 0xFF])
  {
    ParkData(k);
    assert GEAR_LEVER_STATES[5 + k].2 == "F121000" + [HexChar(k)] + "FFFFFFFF";
  }

  /** The release state is named in row 5, and no later row has a name of its length. */
  lemma ReleaseRowName()
    ensures GEAR_LEVER_STATES[5].0 == StateName(ParkRelease)
    ensures forall m :: 5 < m < |GEAR_LEVER_STATES| ==> |GEAR_LEVER_STATES[m].0| != |StateName(ParkRelease)|
  {
  }

  /** The press state is named in the last row. */
  lemma PressRowName()
    ensures |GEAR_LEVER_STATES| == 7 && GEAR_LEVER_STATES[6].0 == StateName(ParkPress)
  {
  }

  /** Releasing the park button sends its "not pressed" frame on 0x65E. */
  lemma ParkReleaseFrame()
    ensures ActionFrame(ParkRelease) == Some(Frame(0x65E, [0xF1, 0x21, 0x00, 0x00, 0xFF, 0xFF, 0xFF, 0xFF]))
  {
    ParkRow(0);
    ReleaseRowName();
    RowFrame(5, ParkRelease, [0xF1, 0x21, 0x00, 0x00, 0xFF, 0xFF, 0xFF, 0xFF]);
  }

  /** Pressing the park button sends its "pressed" frame on 0x65E, which differs from the release frame in one byte. */
  lemma ParkPressFrame()
    ensures ActionFrame(ParkPress) == Some(Frame(0x65E, [0xF1, 0x21, 0x00, 0x01, 0xFF, 0xFF, 0xFF, 0xFF]))
  {
    ParkRow(1);
    PressRowName();
    RowFrame(6, ParkPress, [0xF1, 0x21, 0x00, 0x01, 0xFF, 0xFF, 0xFF, 0xFF]);
  }

  // ----- the sent log -----

  predicate IsLever(a: Action) {
    !a.ParkPress? && !a.ParkRelease?
  }

  /** The last lever (non-park) action of `log`. */
  function LastLever(log: seq<Action>): Option<Action> {
    if log == [] then None
    else if IsLever(log[|log| - 1]) then Some(log[|log| - 1])
    else LastLever(log[..|log| - 1])
  }

  /** The last park action of `log`. */
  function LastPark(log: seq<Action>): Option<Action> {
    if log == [] then None
    else if !IsLever(log[|log| - 1]) then Some(log[|log| - 1])
    else LastPark(log[..|log| - 1])
  }

  /**
   * When the page may send `a` after a log whose last lever action is `lever`
   * and last park action `park`: a hold only right after the tap of the same
   * direction, a rest only after a tap or hold, a tap not while its own
   * direction is down, and park press and release alternating from press.
   */
  predicate Follows(lever: Option<Action>, park: Option<Action>, a: Action) {
    match a
    case Hold(d) => lever == Some(Tap(d))
    case Rest => lever.Some? && (lever.value.Tap? || lever.value.Hold?)
    case Tap(d) => lever != Some(Tap(d)) && lever != Some(Hold(d))
    case ParkPress => park != Some(ParkPress)
    case ParkRelease => park == Some(ParkPress)
  }

  ghost predicate WellFormedLog(log: seq<Action>) {
    forall i :: 0 <= i < |log| ==> Follows(LastLever(log[..i]), LastPark(log[..i]), log[i])
  }

  lemma LogAppend(log: seq<Action>, a: Action)
    requires WellFormedLog(log) && Follows(LastLever(log), LastPark(log), a)
    ensures WellFormedLog(log + [a])
  {
    var l := log + [a];
    forall i | 0 <= i < |l| ensures Follows(LastLever(l[..i]), LastPark(l[..i]), l[i]) {
      if i < |log| {
        assert l[..i] == log[..i];
      } else {
        assert l[..i] == log;
      }
    }
  }

  /** A lever action becomes the last lever action and leaves the last park action as it was. */
  lemma AppendLeverAction(log: seq<Action>, a: Action)
    requires IsLever(a)
    ensures LastLever(log + [a]) == Some(a) && LastPark(log + [a]) == LastPark(log)
  {
    assert (log + [a])[..|log|] == log;
  }

  /** The last lever action of a log sits at some index with no lever action after it. */
  lemma {:induction false} LastLeverAt(log: seq<Action>, i: nat)
    requires i < |log| && IsLever(log[i])
    ensures LastLever(log).Some?
    ensures exists k :: i <= k < |log| && log[k] == LastLever(log).value
  {
    var n := |log|;
    if !IsLever(log[n - 1]) {
      LastLeverAt(log[..n - 1], i);
      var k :| i <= k < n - 1 && log[..n - 1][k] == LastLever(log[..n - 1]).value;
      assert log[k] == LastLever(log).value;
    }
  }

  /** Between two holds in the log there is always a tap: each press sends at most one hold. */
  lemma HoldsSeparated(log: seq<Action>, i: nat, j: nat)
    requires WellFormedLog(log) && i < j < |log| && log[i].Hold? && log[j].Hold?
    ensures exists k :: i < k < j && log[k].Tap?
  {
    var pre := log[..j];
    assert Follows(LastLever(pre), LastPark(pre), log[j]);
    LastLeverAt(pre, i);
    var k :| i <= k < |pre| && pre[k] == LastLever(pre).value;
    assert log[k].Tap?;
  }

  /** The last park action of a log is the last one at or after a park action at `i` when none follows `i`. */
  lemma {:induction false} LastParkAt(log: seq<Action>, i: nat)
    requires i < |log| && !IsLever(log[i])
    requires forall m :: i < m < |log| ==> IsLever(log[m])
    ensures LastPark(log) == Some(log[i])
  {
    var n := |log|;
    if i < n - 1 {
      LastParkAt(log[..n - 1], i);
    }
  }

  /** The park actions alternate, starting with a press. */
  lemma ParkAlternates(log: seq<Action>, i: nat, j: nat)
    requires WellFormedLog(log) && i < j < |log| && !IsLever(log[i]) && !IsLever(log[j])
    requires forall m :: i < m < j ==> IsLever(log[m])
    ensures log[i] != log[j]
  {
    var pre := log[..j];
    assert Follows(LastLever(pre), LastPark(pre), log[j]);
    LastParkAt(pre, i);
  }

  /** The first park action in the log is a press. */
  lemma ParkStartsPressed(log: seq<Action>, j: nat)
    requires WellFormedLog(log) && j < |log| && !IsLever(log[j])
    requires forall m :: 0 <= m < j ==> IsLever(log[m])
    ensures log[j] == ParkPress
  {
    var pre := log[..j];
    assert Follows(LastLever(pre), LastPark(pre), log[j]);
    NoParkYet(pre);
  }

  lemma {:induction false} NoParkYet(log: seq<Action>)
    requires forall m :: 0 <= m < |log| ==> IsLever(log[m])
    ensures LastPark(log) == None
  {
    if log != [] {
      NoParkYet(log[..|log| - 1]);
    }
  }

  // ----- the page -----

  /**
   * The lever state the page sends from: the last action's side of the log
   * agrees with the pressed direction and whether its hold went out, a pending
   * hold timer belongs to the pressed direction, and the park flag agrees with
   * the last park action.
   */
  predicate LeverConsistent(pressed: Option<Direction>, holdSent: bool, log: seq<Action>) {
    match pressed
    case None => !holdSent && (LastLever(log) == None || LastLever(log) == Some(Rest))
    case Some(d) => LastLever(log) == Some(if holdSent then Hold(d) else Tap(d))
  }

  class Lever {
    /** `_pressed_direction`. */
    var pressed: Option<Direction>
    /** `_hold_sent`. */
    var holdSent: bool
    /** `_hold_job`: the direction captured by the pending `after` callback. */
    var holdJob: Option<Direction>
    /** `_park_active`. */
    var parkActive: bool
    /** `lever_state_var`: the lever state shown. */
    var indicator: string
    /** The actions sent so far. */
    var sent: seq<Action>

    ghost predicate Valid()
      reads this
    {
      && (holdJob.Some? ==> pressed == holdJob && !holdSent)
      && LeverConsistent(pressed, holdSent, sent)
      && (parkActive <==> LastPark(sent) == Some(ParkPress))
      && WellFormedLog(sent)
    }

    constructor()
      ensures Valid()
      ensures pressed == None && !holdSent && holdJob == None && !parkActive
      ensures indicator == "Ruhestellung" && sent == []
    {
      pressed := None;
      holdSent := false;
      holdJob := None;
      parkActive := false;
      indicator := "Ruhestellung";
      sent := [];
    }

    /** `_send_action`: sends the action's frame and, for lever actions, shows its state. */
    method SendAction(a: Action, updateIndicator: bool)
      modifies this
      ensures sent == old(sent) + [a]
      ensures indicator == if updateIndicator then StateName(a) else old(indicator)
      ensures pressed == old(pressed) && holdSent == old(holdSent) && holdJob == old(holdJob)
      ensures parkActive == old(parkActive)
    {
      sent := sent + [a];
      if updateIndicator {
        indicator := StateName(a);
      }
      if updateIndicator && a == Rest && parkActive {
        indicator := "Ruhestellung";
      }
    }

    /** `_clear_hold_timer`. */
    method ClearHoldTimer()
      modifies this
      ensures holdJob == None
      ensures pressed == old(pressed) && holdSent == old(holdSent) && parkActive == old(parkActive)
      ensures indicator == old(indicator) && sent == old(sent)
    {
      holdJob := None;
    }

    /** `_on_direction_press`: a new press sends the tap and arms the hold; pressing the pressed direction again does nothing. */
    method Press(d: Direction)
      requires Valid()
      modifies this
      ensures Valid()
      ensures old(pressed) == Some(d) ==> unchanged(this)
      ensures old(pressed) != Some(d) ==>
        && pressed == Some(d) && !holdSent && holdJob == Some(d)
        && sent == old(sent) + [Tap(d)] && indicator == StateName(Tap(d))
      ensures parkActive == old(parkActive)
    {
      if pressed == Some(d) {
        return;
      }
      ClearHoldTimer();
      pressed := Some(d);
      holdSent := false;
      LogAppend(sent, Tap(d));
      AppendLeverAction(sent, Tap(d));
      SendAction(Tap(d), true);
      holdJob := Some(d);
    }

    /** `_trigger_hold`: the hold goes out once, and only while the same direction is still pressed. */
    method TriggerHold(d: Direction)
      requires Valid() && (holdJob.Some? ==> holdJob == Some(d))
      modifies this
      ensures Valid()
      ensures holdJob == None
      ensures if old(pressed) == Some(d) && !old(holdSent)
              then holdSent && sent == old(sent) + [Hold(d)] && indicator == StateName(Hold(d))
              else holdSent == old(holdSent) && sent == old(sent) && indicator == old(indicator)
      ensures pressed == old(pressed) && parkActive == old(parkActive)
    {
      holdJob := None;
      if pressed != Some(d) || holdSent {
        return;
      }
      holdSent := true;
      LogAppend(sent, Hold(d));
      AppendLeverAction(sent, Hold(d));
      SendAction(Hold(d), true);
    }

    /** The Tk loop running the pending `after` callback, if there is one: it always sends the hold. */
    method FireTimer()
      requires Valid()
      modifies this
      ensures Valid()
      ensures holdJob == None
      ensures old(holdJob).Some? ==>
        && sent == old(sent) + [Hold(old(holdJob).value)] && indicator == StateName(Hold(old(holdJob).value))
        && pressed == old(pressed) && holdSent && parkActive == old(parkActive)
      ensures old(holdJob).None? ==> unchanged(this)
    {
      if holdJob.Some? {
        TriggerHold(holdJob.value);
      }
    }

    /**
     * `_on_direction_release`: releasing the pressed direction sends "rest"
     * and clears the state; releasing the other one only cancels the timer.
     */
    method Release(d: Direction)
      requires Valid()
      modifies this
      ensures Valid()
      ensures holdJob == None && parkActive == old(parkActive)
      ensures old(pressed) == Some(d) ==>
        pressed == None && !holdSent && sent == old(sent) + [Rest] && indicator == StateName(Rest)
      ensures old(pressed) != Some(d) ==>
        pressed == old(pressed) && holdSent == old(holdSent) && sent == old(sent) && indicator == old(indicator)
    {
      if pressed != Some(d) {
        ClearHoldTimer();
        return;
      }
      ClearHoldTimer();
      pressed := None;
      holdSent := false;
      LogAppend(sent, Rest);
      SendAction(Rest, true);
    }

    /** `_toggle_park`: flips the park flag and sends press or release accordingly, leaving the lever state shown alone. */
    method TogglePark()
      requires Valid()
      modifies this
      ensures Valid()
      ensures parkActive == !old(parkActive)
      ensures sent == old(sent) + [if parkActive then ParkPress else ParkRelease]
      ensures pressed == old(pressed) && holdSent == old(holdSent) && holdJob == old(holdJob)
      ensures indicator == old(indicator)
    {
      parkActive := !parkActive;
      var a := if parkActive then ParkPress else ParkRelease;
      LogAppend(sent, a);
      SendAction(a, false);
    }
  }
}
