/**
 * The worker of the automatic SA search page (`bmw_gui/ui/pages/auto_search.py`):
 * for every SA code of the catalogue it sends a UDS ReadDataByIdentifier
 * request for the code read as a DID, through the ECU's extended address, and
 * records what comes back until the ECU's reply or the timeout.  What the
 * worker tells the page goes into a queue of events.
 */
module AutoSearch {
  import opened Wrappers
  import opened Can
  import opened Text

  /** `SA_ENTRIES`: the SA codes searched for and their descriptions, in order. */
  const SA_ENTRIES: seq<(string, string)> := [
    ("0230", "Zusatzumfang EU-spezifisch"),
    ("0249", "Multifunktion für Lenkrad"),
    ("02D6", "BMW i LM Rad Sternspeiche 427"),
    ("02PA", "Radschraubensicherung"),
    ("02VB", "Reifendruckanzeige"),
    ("0428", "Warndreieck und Verbandstasche"),
    ("0430", "Innen-/Aussensp. mit Abblendautomatik"),
    ("0442", "Getränkehalter"),
    ("0473", "Armlehne vorne"),
    ("0493", "Ablagenpaket"),
    ("04EX", "Interieuroberfläche andesitsilber matt"),
    ("04U6", "Schnellladen Wechselstrom mehrphasig"),
    ("04U7", "Schnellladen Gleichstrom"),
    ("0521", "Regensensor"),
    ("0534", "Klimaautomatik"),
    ("0544", "Geschwindigkeitsregelung mit Bremsfunkt."),
    ("0548", "Kilometertacho"),
    ("0570", "Stärkere Stromversorgung"),
    ("05DA", "Deaktivierung Airbag Beifahrer"),
    ("0609", "Navigationssystem Professional"),
    ("06AC", "Intelligenter Notruf"),
    ("06AE", "TELESERVICES"),
    ("06AK", "Connected Drive Services"),
    ("06AM", "Real-Time Traffic Information"),
    ("06AN", "Concierge Services"),
    ("06AU", "Connected eDrive services"),
    ("06NW", "Telefonie mit Wireless Charging"),
    ("06WD", "WLAN Hotspot"),
    ("07RS", "Paket Comfort"),
    ("0801", "DEUTSCHLAND-AUSFUEHRUNG"),
    ("0851", "Sprachversion deutsch"),
    ("0879", "Bordliteratur deutsch"),
    ("08R9", "Kältemittel R1234yf"),
    ("09BD", "Business Package")
  ]

  // ----- _parse_int -----

  /** Why `_parse_int` raised ValueError: blank input, or input `int(s, 16)` rejects. */
  datatype ParseError = Empty(field: string) | NotHex(field: string)

  /** The message of the ValueError. */
  function ErrorText(err: ParseError): string {
    match err
    case Empty(field) => field + " darf nicht leer sein."
    case NotHex(field) => field + " muss eine Hex-Zahl sein."
  }

  /** `_parse_int(value, field)`: the stripped text read as a hex integer. */
  function ParseInt(value: string, field: string): Result<int, ParseError> {
    var s := Strip(value);
    if s == [] then Failure(Empty(field))
    else
      match PyInt16(s)
      case None => Failure(NotHex(field))
      case Some(n) => Success(n)
  }

  /** Stripping twice strips nothing more. */
  lemma StripTwice(s: string)
    ensures Strip(Strip(s)) == Strip(s)
  {
    var i := StripSpec(s);
    StripNoSpace(Strip(s));
  }

  /** Text of whitespace only strips to nothing, and other text does not. */
  lemma {:induction false} StripEmpty(s: string)
    ensures Strip(s) == [] <==> forall k :: 0 <= k < |s| ==> IsSpace(s[k])
  {
    var i := StripSpec(s);
    if Strip(s) != [] {
      assert !IsSpace(s[i]);
    }
  }

  /**
   * `_parse_int` is Python's `int(s, 16)` except that empty or whitespace-only
   * input gets its own message: it succeeds exactly where `int` does, with the
   * same value.
   */
  lemma ParseIntSpec(value: string, field: string)
    ensures ParseInt(value, field) == Failure(Empty(field)) <==> forall k :: 0 <= k < |value| ==> IsSpace(value[k])
    ensures ParseInt(value, field) == Failure(NotHex(field)) <==> Strip(value) != [] && PyInt16(value).None?
    ensures ParseInt(value, field).Success? <==> PyInt16(value).Some?
    ensures ParseInt(value, field).Success? ==> PyInt16(value) == Some(ParseInt(value, field).value)
  {
    StripEmpty(value);
    StripTwice(value);
    if Strip(value) == [] {
      assert !IsDigitRun(DropPrefix([]));
    }
  }

  // ----- reading back what _apply_profile writes -----

  /** Zero digits have the value zero. */
  lemma {:induction false} RunValueZeros(z: string)
    requires forall k :: 0 <= k < |z| ==> z[k] == '0'
    ensures RunValue(z) == 0
    decreases |z|
  {
    if z != [] {
      RunValueZeros(z[..|z| - 1]);
    }
  }

  /** Leading zeros do not change the value of a run of hex digits. */
  lemma {:induction false} RunValueLeadingZeros(z: string, h: string)
    requires forall k :: 0 <= k < |z| ==> z[k] == '0'
    requires AllHex(h)
    ensures RunValue(z + h) == RunValue(h)
    decreases |h|
  {
    if h == [] {
      assert z + h == z;
      RunValueZeros(z);
    } else {
      var n := |h|;
      assert (z + h)[..|z| + n - 1] == z + h[..n - 1];
      RunValueLeadingZeros(z, h[..n - 1]);
    }
  }

  /** `f"{n:X}"` is a run of hex digits whose value is `n`. */
  lemma {:induction false} HexNatValue(n: nat)
    ensures AllHex(HexNat(n)) && RunValue(HexNat(n)) == n
    decreases n
  {
    if n >= 16 {
      HexNatValue(n / 16);
      var h := HexNat(n);
      assert h[..|h| - 1] == HexNat(n / 16);
    }
  }

  /** Plain hex digits (no sign, prefix, underscore or whitespace) parse to their value. */
  lemma AllHexParses(s: string, field: string)
    requires |s| > 0 && AllHex(s)
    ensures ParseInt(s, field) == Success(RunValue(s))
  {
    StripNoSpace(s);
    if |s| >= 2 {
      assert IsHexDigit(s[1]);
    }
    assert DropPrefix(s) == s;
    assert IsDigitRun(s);
  }

  /** `f"{n:0<width>X}"` is zero digits followed by `f"{n:X}"`. */
  lemma HexPadDigits(n: nat, width: nat)
    ensures |HexPad(n, width)| > 0 && AllHex(HexPad(n, width)) && RunValue(HexPad(n, width)) == n
  {
    var h := HexNat(n);
    HexNatValue(n);
    var z: string := if |h| < width then seq(width - |h|, _ => '0') else [];
    var s := HexPad(n, width);
    assert s == z + h;
    RunValueLeadingZeros(z, h);
    forall k | 0 <= k < |s| ensures IsHexDigit(s[k]) {
      if k >= |z| {
        assert s[k] == h[k - |z|];
      }
    }
  }

  /**
   * What `_apply_profile` writes into an entry (`f"{x:03X}"`, `f"{x:02X}"`)
   * `_parse_int` reads back as the same number, whatever the padding.
   */
  lemma ParseIntHexPad(n: nat, width: nat, field: string)
    ensures ParseInt(HexPad(n, width), field) == Success(n)
  {
    HexPadDigits(n, width);
    AllHexParses(HexPad(n, width), field);
  }

  /** `PROFILE_PRESETS`: the ids and extended addresses of the two ECUs the page knows. */
  datatype Preset = Preset(txId: nat, rxId: nat, eaReq: nat, eaRsp: nat)

  function PresetNamed(name: string): Option<Preset> {
    if name == "Links" then Some(Preset(0x06F1, 0x0643, 0x43, 0xF1))
    else if name == "Rechts" then Some(Preset(0x06F2, 0x0644, 0x44, 0xF1))
    else None
  }

  /** The four entry texts `_apply_profile` writes for a preset, or None for an unknown name (nothing written). */
  function ProfileTexts(name: string): (r: Option<seq<string>>)
    ensures r.Some? ==> |r.value| == 4
  {
    match PresetNamed(name)
    case None => None
    case Some(p) => Some([HexPad(p.txId, 3), HexPad(p.rxId, 3), HexPad(p.eaReq, 2), HexPad(p.eaRsp, 2)])
  }

  /** Starting a search right after choosing a profile parses the preset's own values. */
  lemma ProfileRoundTrip(name: string)
    requires PresetNamed(name).Some?
    ensures var p := PresetNamed(name).value; var t := ProfileTexts(name).value;
      && ParseInt(t[0], "TX-ID") == Success(p.txId as int)
      && ParseInt(t[1], "RX-ID") == Success(p.rxId as int)
      && ParseInt(t[2], "EA Anfrage") == Success(p.eaReq as int)
      && ParseInt(t[3], "EA Antwort") == Success(p.eaRsp as int)
  {
    var p := PresetNamed(name).value;
    ParseIntHexPad(p.txId, 3, "TX-ID");
    ParseIntHexPad(p.rxId, 3, "RX-ID");
    ParseIntHexPad(p.eaReq, 2, "EA Anfrage");
    ParseIntHexPad(p.eaRsp, 2, "EA Antwort");
  }

  // ----- SA codes and the request -----

  /** The shape of the catalogue's codes: four digits or capitals, a leading zero, no `X` where a `0x` prefix would be read. */
  predicate IsSaCode(s: string) {
    && |s| == 4 && s[0] == '0' && s[1] != 'X'
    && forall k :: 0 <= k < 4 ==> ('0' <= s[k] <= '9') || ('A' <= s[k] <= 'Z')
  }

  /** The value of four hex digits. */
  lemma RunValueFour(s: string)
    requires |s| == 4 && AllHex(s)
    ensures RunValue(s) == 4096 * DigitValue(s[0]) + 256 * DigitValue(s[1]) + 16 * DigitValue(s[2]) + DigitValue(s[3])
  {
    var s3, s2, s1 := s[..3], s[..2], s[..1];
    assert s3[..2] == s2 && s2[..1] == s1 && s1[..0] == [];
    assert RunValue(s1) == DigitValue(s[0]);
    assert RunValue(s2) == 16 * RunValue(s1) + DigitValue(s[1]);
    assert RunValue(s3) == 16 * RunValue(s2) + DigitValue(s[2]);
    assert RunValue(s) == 16 * RunValue(s3) + DigitValue(s[3]);
  }

  /**
   * An SA code is a valid DID exactly when all four characters are hex
   * digits; the DID then fits in 16 bits, and otherwise the SA is reported
   * as "Ungültige SA".
   */
  lemma SaCodeParse(s: string, field: string)
    requires IsSaCode(s)
    ensures ParseInt(s, field).Success? <==> AllHex(s)
    ensures ParseInt(s, field).Failure? ==> ParseInt(s, field) == Failure(NotHex(field))
    ensures ParseInt(s, field).Success? ==> 0 <= ParseInt(s, field).value < 0x10000
  {
    StripNoSpace(s);
    assert DropPrefix(s) == s;
    if AllHex(s) {
      AllHexParses(s, field);
      RunValueFour(s);
    } else {
      var k :| 0 <= k < 4 && !IsHexDigit(s[k]);
      assert !IsDigitRun(s);
    }
  }

  /** A catalogue code with a letter past F in the third place is not a DID ("02PA", "04U6"). */
  lemma InvalidCode(k: nat)
    requires k < |SA_ENTRIES| && IsSaCode(SA_ENTRIES[k].0) && !IsHexDigit(SA_ENTRIES[k].0[2])
    ensures ParseInt(SA_ENTRIES[k].0, "SA") == Failure(NotHex("SA"))
  {
    SaCodeParse(SA_ENTRIES[k].0, "SA");
  }

  /** "02PA" is skipped as invalid. */
  lemma SkippedCode02PA()
    ensures SA_ENTRIES[3].0 == "02PA" && ParseInt(SA_ENTRIES[3].0, "SA") == Failure(NotHex("SA"))
  {
    assert SA_ENTRIES[3].0 == "02PA" && IsSaCode("02PA") && !IsHexDigit('P');
    InvalidCode(3);
  }

  /** "04U6" is skipped as invalid. */
  lemma SkippedCode04U6()
    ensures SA_ENTRIES[11].0 == "04U6" && ParseInt(SA_ENTRIES[11].0, "SA") == Failure(NotHex("SA"))
  {
    assert SA_ENTRIES[11].0 == "04U6" && IsSaCode("04U6") && !IsHexDigit('U');
    InvalidCode(11);
  }

  /** The first catalogue code, "0230", is DID 0x0230. */
  lemma FirstCodeDid()
    ensures ParseInt(SA_ENTRIES[0].0, "SA") == Success(0x0230)
  {
    var good := SA_ENTRIES[0].0;
    assert good == "0230";
    assert AllHex(good);
    AllHexParses(good, "SA");
    RunValueFour(good);
  }

  /** The request payload: extended address, length 3, ReadDataByIdentifier (0x22), the DID high and low byte, padding. */
  function Request(eaReq: int, did: int): (r: seq<byte>)
    ensures |r| == 8
  {
    [Lo(eaReq), 0x03, 0x22, Hi(did), Lo(did), 0x00, 0x00, 0x00]
  }

  /**
   * The request is a single-frame UDS ReadDataByIdentifier behind the
   * extended address: three payload bytes, service 0x22, the DID big-endian,
   * zero padding; an address that fits in a byte is sent as it is.
   */
  lemma RequestLayout(eaReq: int, did: int)
    requires 0 <= did < 0x10000
    ensures var r := Request(eaReq, did);
      && r[1] == 3 && r[2] == 0x22 && r[3] as int * 256 + r[4] as int == did && r[5..] == Zeros(3)
      && (0 <= eaReq < 256 ==> r[0] == eaReq)
  {
  }

  /** The DID bytes of the request for a hex SA code spell the code: two digits each. */
  lemma SaRequest(s: string, eaReq: int)
    requires IsSaCode(s) && AllHex(s)
    ensures ParseInt(s, "SA").Success?
    ensures var r := Request(eaReq, ParseInt(s, "SA").value);
      r[3] == DigitValue(s[0]) * 16 + DigitValue(s[1]) && r[4] == DigitValue(s[2]) * 16 + DigitValue(s[3])
  {
    AllHexParses(s, "SA");
    RunValueFour(s);
    var hi, lo := DigitValue(s[0]) * 16 + DigitValue(s[1]), DigitValue(s[2]) * 16 + DigitValue(s[3]);
    var did := RunValue(s);
    assert did == 256 * hi + lo;
    assert did / 256 == hi && did % 256 == lo;
  }

  // ----- the response window -----

  /** The worker's fixed inputs: transport, stop flag, ids, extended addresses and timeout (ms). */
  datatype Env = Env(polls: seq<Poll>, cancel: Cancel, txId: int, rxId: int, eaReq: int, eaRsp: int, timeoutMs: int)

  /** The frame that ends the wait: from `rx_id`, and empty or carrying the reply's extended address first. */
  predicate IsReply(e: Env, f: Frame) {
    f.id == e.rxId && (|f.data| == 0 || f.data[0] == Lo(e.eaRsp))
  }

  /** Where a response window stands: next poll, stop-flag checks so far, frames recorded. */
  datatype Listening = Listening(pos: nat, checks: nat, got: seq<Frame>)

  /**
   * The receive loop for one SA, opened at poll `start`: while the stop flag
   * is clear and the timeout has not passed, take a poll; record every frame;
   * stop after a reply.
   */
  function Collect(e: Env, start: nat, w: Listening): (r: Listening)
    requires start <= w.pos <= |e.polls|
    ensures w.pos <= r.pos <= |e.polls|
    decreases |e.polls| - w.pos
  {
    if e.cancel.IsSet(w.checks) || w.pos == |e.polls| || !InTime(e.polls, start, w.pos, e.timeoutMs) then
      w.(checks := w.checks + 1)
    else
      var w1 := w.(pos := w.pos + 1, checks := w.checks + 1);
      match e.polls[w.pos].frame
      case None => Collect(e, start, w1)
      case Some(f) =>
        if IsReply(e, f) then w1.(got := w.got + [f]) else Collect(e, start, w1.(got := w.got + [f]))
  }

  /** The window ended on a reply: the last poll it took carried one. */
  predicate EndedOnReply(e: Env, from: nat, r: Listening)
    requires r.pos <= |e.polls|
  {
    from < r.pos && e.polls[r.pos - 1].frame.Some? && IsReply(e, e.polls[r.pos - 1].frame.value)
  }

  /**
   * The window continued from `w` ends in `r`: it recorded every frame of
   * the polls it took, in order; it took only polls within the timeout, found
   * the stop flag clear before each, and went past no reply.
   */
  ghost predicate Took(e: Env, start: nat, w: Listening, r: Listening) {
    && start <= w.pos <= r.pos <= |e.polls|
    && r.got == w.got + FramesOf(e.polls[w.pos..r.pos])
    && (forall j :: w.pos <= j < r.pos ==> InTime(e.polls, start, j, e.timeoutMs))
    && (forall j :: w.pos <= j < r.pos - 1 && e.polls[j].frame.Some? ==> !IsReply(e, e.polls[j].frame.value))
    && (forall c :: w.checks <= c < w.checks + (r.pos - w.pos) ==> !e.cancel.IsSet(c))
  }

  /** Every window ends as `Took` says. */
  lemma {:induction false} CollectTakes(e: Env, start: nat, w: Listening)
    requires start <= w.pos <= |e.polls|
    ensures Took(e, start, w, Collect(e, start, w))
    decreases |e.polls| - w.pos
  {
    var r := Collect(e, start, w);
    if e.cancel.IsSet(w.checks) || w.pos == |e.polls| || !InTime(e.polls, start, w.pos, e.timeoutMs) {
      assert e.polls[w.pos..r.pos] == [];
    } else {
      var w1 := w.(pos := w.pos + 1, checks := w.checks + 1);
      match e.polls[w.pos].frame
      case None =>
        CollectTakes(e, start, w1);
        TakeStep(e, start, w, w1, r);
      case Some(f) =>
        if IsReply(e, f) {
          assert e.polls[w.pos..r.pos] == [e.polls[w.pos]];
        } else {
          CollectTakes(e, start, w1.(got := w.got + [f]));
          TakeStep(e, start, w, w1.(got := w.got + [f]), r);
        }
    }
  }

  /** A poll in time with the flag clear and no reply: its frame is recorded and the window goes on. */
  lemma TakeStep(e: Env, start: nat, w: Listening, w1: Listening, r: Listening)
    requires start <= w.pos < |e.polls| && InTime(e.polls, start, w.pos, e.timeoutMs) && !e.cancel.IsSet(w.checks)
    requires e.polls[w.pos].frame.Some? ==> !IsReply(e, e.polls[w.pos].frame.value)
    requires w1 == w.(pos := w.pos + 1, checks := w.checks + 1, got := w.got + FramesOf([e.polls[w.pos]]))
    requires Took(e, start, w1, r)
    ensures Took(e, start, w, r)
  {
    assert e.polls[w.pos..r.pos][0] == e.polls[w.pos];
    assert e.polls[w.pos..r.pos][1..] == e.polls[w.pos + 1..r.pos];
  }

  /**
   * The window stops right after a reply, having checked the flag once per
   * poll; otherwise it stops at one more check, because the flag is set, the
   * timeout has passed or the stream has ended.
   */
  lemma {:induction false} CollectEnds(e: Env, start: nat, w: Listening)
    requires start <= w.pos <= |e.polls|
    ensures var r := Collect(e, start, w);
      if EndedOnReply(e, w.pos, r) then r.checks == w.checks + (r.pos - w.pos)
      else
        && r.checks == w.checks + (r.pos - w.pos) + 1
        && (e.cancel.IsSet(r.checks - 1) || r.pos == |e.polls| || !InTime(e.polls, start, r.pos, e.timeoutMs))
    decreases |e.polls| - w.pos
  {
    if !(e.cancel.IsSet(w.checks) || w.pos == |e.polls| || !InTime(e.polls, start, w.pos, e.timeoutMs)) {
      var w1 := w.(pos := w.pos + 1, checks := w.checks + 1);
      match e.polls[w.pos].frame
      case None =>
        CollectEnds(e, start, w1);
      case Some(f) =>
        if !IsReply(e, f) {
          CollectEnds(e, start, w1.(got := w.got + [f]));
        }
    }
  }

  /** No frame in the polls, no frame out. */
  lemma {:induction false} FramesOfEmpty(ps: seq<Poll>)
    ensures FramesOf(ps) == [] <==> forall j :: 0 <= j < |ps| ==> ps[j].frame.None?
  {
    if ps != [] {
      FramesOfEmpty(ps[1..]);
      forall j | 0 < j < |ps| ensures ps[j] == ps[1..][j - 1] {
      }
    }
  }

  /** The status of an SA: "Antwort" when anything was recorded, else "Timeout". */
  function StatusText(got: seq<Frame>): string {
    if got != [] then "Antwort" else "Timeout"
  }

  /** `f"{id:03X}"`, with Python's sign for a negative id. */
  function IdText(id: int): string {
    if id >= 0 then HexPad(id, 3) else "-" + HexPad(-id, 2)
  }

  /** `f"ID=0x{id:03X} DLC={dlc} Data={...}"` for one recorded frame; the DLC is the data length. */
  function ResponseText(f: Frame): string {
    "ID=0x" + IdText(f.id) + " DLC=" + Decimal(|f.data|) + " Data=" + FmtBytes(f.data)
  }

  function ResponseTexts(got: seq<Frame>): (ts: seq<string>)
    ensures |ts| == |got|
  {
    seq(|got|, i requires 0 <= i < |got| => ResponseText(got[i]))
  }

  /**
   * An SA is answered iff some poll its window took carried a frame, and the
   * page then shows one text per frame.
   */
  lemma AnswerIffReceived(e: Env, start: nat, checks: nat)
    requires start <= |e.polls|
    ensures var r := Collect(e, start, Listening(start, checks, []));
      && (StatusText(r.got) == "Antwort" <==> exists j :: start <= j < r.pos && e.polls[j].frame.Some?)
      && (StatusText(r.got) == "Timeout" <==> r.got == [])
      && |ResponseTexts(r.got)| == |r.got|
  {
    var r := Collect(e, start, Listening(start, checks, []));
    CollectTakes(e, start, Listening(start, checks, []));
    var ps := e.polls[start..r.pos];
    FramesOfEmpty(ps);
    if r.got == [] {
      forall j | start <= j < r.pos ensures e.polls[j].frame.None? {
        assert e.polls[j] == ps[j - start];
      }
    } else {
      var j :| 0 <= j < |ps| && ps[j].frame.Some?;
      assert e.polls[start + j] == ps[j];
    }
  }

  /** The receive loop of `_worker_run` for one SA, opened at poll `start` after `checks0` flag checks. */
  method Receive(e: Env, start: nat, checks0: nat) returns (pos: nat, checks: nat, got: seq<Frame>)
    requires start <= |e.polls|
    ensures Listening(pos, checks, got) == Collect(e, start, Listening(start, checks0, []))
  {
    pos, checks, got := start, checks0, [];
    while true
      invariant start <= pos <= |e.polls|
      invariant Collect(e, start, Listening(pos, checks, got)) == Collect(e, start, Listening(start, checks0, []))
      decreases |e.polls| - pos
    {
      if e.cancel.IsSet(checks) || pos == |e.polls| || !InTime(e.polls, start, pos, e.timeoutMs) {
        checks := checks + 1;
        return;
      }
      var p := e.polls[pos];
      pos, checks := pos + 1, checks + 1;
      if p.frame.Some? {
        got := got + [p.frame.value];
        if IsReply(e, p.frame.value) {
          return;
        }
      }
    }
  }

  // ----- the worker -----

  /** What the worker puts in the page's queue. */
  datatype Event =
    | Status(text: string)
    | ItemError(idx: nat, message: string)
    | ItemResult(idx: nat, status: string, responses: seq<string>)
    | BusError
    | Done(completed: bool)

  const INVALID_SA: string := "Ungültige SA"

  function Checking(sa: string): string {
    "Prüfe SA " + sa + " …"
  }

  /** The worker's locals between SAs: poll position, flag checks, frames sent, events queued, whether it broke off. */
  datatype Sweep = Sweep(pos: nat, checks: nat, sent: seq<Frame>, events: seq<Event>, stopped: bool)

  const SWEEP_START: Sweep := Sweep(0, 0, [], [], false)

  /**
   * One pass of the SA loop for entry `idx`: stop if the flag is set;
   * announce the SA; an invalid code is reported and skipped; otherwise send
   * the request, listen, report the result and stop if the flag is now set.
   */
  function Probe(e: Env, entries: seq<(string, string)>, idx: nat, s: Sweep): (r: Sweep)
    requires idx < |entries| && s.pos <= |e.polls|
    ensures s.pos <= r.pos <= |e.polls|
  {
    var sa := entries[idx].0;
    if e.cancel.IsSet(s.checks) then s.(checks := s.checks + 1, stopped := true)
    else
      var s1 := s.(checks := s.checks + 1, events := s.events + [Status(Checking(sa))]);
      match ParseInt(sa, "SA")
      case Failure(_) => s1.(events := s1.events + [ItemError(idx, INVALID_SA)])
      case Success(did) =>
        var w := Collect(e, s1.pos, Listening(s1.pos, s1.checks, []));
        s1.(pos := w.pos, checks := w.checks + 1, sent := s1.sent + [Frame(e.txId, Request(e.eaReq, did))],
            events := s1.events + [ItemResult(idx, StatusText(w.got), ResponseTexts(w.got))],
            stopped := e.cancel.IsSet(w.checks))
  }

  /** `for idx, (sa, _desc) in enumerate(SA_ENTRIES)` from entry `k` on. */
  function Sweeping(e: Env, entries: seq<(string, string)>, k: nat, s: Sweep): (r: Sweep)
    requires k <= |entries| && s.pos <= |e.polls|
    ensures s.pos <= r.pos <= |e.polls|
    decreases |entries| - k
  {
    if k == |entries| || s.stopped then s else Sweeping(e, entries, k + 1, Probe(e, entries, k, s))
  }

  /**
   * `_worker_run`: the events queued and the frames sent.  When the bus does
   * not open, an error and an unfinished "done"; otherwise the SA loop, then
   * "done", completed iff the flag is still clear.
   */
  function Run(e: Env, entries: seq<(string, string)>, busOpened: bool): (seq<Event>, seq<Frame>) {
    if !busOpened then ([BusError, Done(false)], [])
    else
      var s := Sweeping(e, entries, 0, SWEEP_START);
      (s.events + [Done(!e.cancel.IsSet(s.checks))], s.sent)
  }

  method Worker(e: Env, entries: seq<(string, string)>, busOpened: bool) returns (events: seq<Event>, sent: seq<Frame>)
    ensures (events, sent) == Run(e, entries, busOpened)
  {
    if !busOpened {
      return [BusError, Done(false)], [];
    }
    var pos: nat, checks: nat, stopped := 0, 0, false;
    events, sent := [], [];
    var idx := 0;
    while idx < |entries| && !stopped
      invariant idx <= |entries| && pos <= |e.polls|
      invariant Sweeping(e, entries, idx, Sweep(pos, checks, sent, events, stopped)) == Sweeping(e, entries, 0, SWEEP_START)
      decreases |entries| - idx, if stopped then 0 else 1
    {
      var advanced;
      pos, checks, sent, events, stopped, advanced := Visit(e, entries, idx, pos, checks, sent, events);
      if advanced {
        idx := idx + 1;
      }
    }
    events := events + [Done(!e.cancel.IsSet(checks))];
  }

  /**
   * One pass of the SA loop for entry `idx`, as `Probe` says; `advanced` is
   * false only when the flag was found set before the SA was announced.
   */
  method Visit(e: Env, entries: seq<(string, string)>, idx: nat, pos: nat, checks: nat, sent: seq<Frame>, events: seq<Event>)
    returns (pos': nat, checks': nat, sent': seq<Frame>, events': seq<Event>, stopped: bool, advanced: bool)
    requires idx < |entries| && pos <= |e.polls|
    ensures Sweep(pos', checks', sent', events', stopped) == Probe(e, entries, idx, Sweep(pos, checks, sent, events, false))
    ensures advanced <==> !e.cancel.IsSet(checks)
  {
    var sa := entries[idx].0;
    if e.cancel.IsSet(checks) {
      return pos, checks + 1, sent, events, true, false;
    }
    pos', checks', sent', stopped, advanced := pos, checks + 1, sent, false, true;
    events' := events + [Status(Checking(sa))];
    var parsed := ParseInt(sa, "SA");
    if parsed.Failure? {
      events' := events' + [ItemError(idx, INVALID_SA)];
    } else {
      sent' := sent' + [Frame(e.txId, Request(e.eaReq, parsed.value))];
      var p, c, got := Receive(e, pos', checks');
      pos' := p;
      events' := events' + [ItemResult(idx, StatusText(got), ResponseTexts(got))];
      stopped := e.cancel.IsSet(c);
      checks' := c + 1;
    }
  }

  /** The requests sent for `entries`: one per code that parses, in order, none for the others. */
  function Requests(e: Env, entries: seq<(string, string)>): seq<Frame> {
    if entries == [] then []
    else
      var last := entries[|entries| - 1];
      Requests(e, entries[..|entries| - 1])
        + (match ParseInt(last.0, "SA") case Success(did) => [Frame(e.txId, Request(e.eaReq, did))] case Failure(_) => [])
  }
}
