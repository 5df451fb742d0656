/**
 * The bulk sender: every combination of the eight byte fields (a wildcard
 * field runs over all 256 values) is sent as one CAN frame.  The test page
 * (`bmw_gui/ui/pages/test.py`, `on_send`) walks the combinations with the
 * first field varying fastest, sends them in bursts of `max_parallel`
 * frames, listens for `rx_ms` after each burst and polls an abort flag; the
 * older page in `bmw.py` walks `itertools.product` order, one frame at a
 * time, with no abort.
 */
module BulkSend {
  import opened Wrappers
  import opened Can
  import opened Text
  import opened HexToken
  import opened Enumeration

  /** The test page asks for confirmation above this many variants. */
  const CONFIRM_ABOVE: nat := 65536
  /** The `bmw.py` page asks for confirmation above this many variants. */
  const LEGACY_CONFIRM_ABOVE: nat := 4096

  /** `[f"{i:02X}" for i in range(256)]`: the choices of a wildcard field. */
  function AllBytes(): seq<string> {
    seq(256, i requires 0 <= i < 256 => HexByte(i))
  }

  /** The choices of one field: all 256 bytes for a wildcard, else the token itself. */
  function Choice(t: Option<string>): seq<string> {
    if t.None? then AllBytes() else [t.value]
  }

  function Choices(ts: seq<Option<string>>): (cs: seq<seq<string>>)
    ensures |cs| == |ts|
  {
    seq(|ts|, i requires 0 <= i < |ts| => Choice(ts[i]))
  }

  /** `max(1, int(entry_parallel))`. */
  function MaxParallel(p: int): (m: nat)
    ensures m >= 1 && (p >= 1 ==> m == p)
  {
    if p < 1 then 1 else p
  }

  // ----- encoding one combination -----

  /** The frame for combination `c`: `bytes.fromhex("".join(c))` under `arb_id`, None where that raises. */
  function Encode(arbId: int, c: seq<string>): Option<Frame> {
    match FromHex(Join(c, ""))
    case Some(d) => Some(Frame(arbId, d))
    case None => None
  }

  /**
   * `for c in burst: ... bus.send(msg)`: the frames sent before the first
   * combination whose bytes cannot be built, and whether all of them were
   * built (false means the loop raised).
   */
  function SendBurst(arbId: int, burst: seq<seq<string>>): (seq<Frame>, bool) {
    if burst == [] then ([], true)
    else
      match Encode(arbId, burst[0])
      case None => ([], false)
      case Some(f) =>
        var rest := SendBurst(arbId, burst[1..]);
        ([f] + rest.0, rest.1)
  }

  // ----- the receive window -----

  /** Where a receive window stands: next poll, flag checks made, frames received, whether it saw the abort flag. */
  datatype Window = Window(pos: nat, checks: nat, received: seq<Frame>, aborted: bool)

  /**
   * The RX window `while time.time() < t_end: if abort: break; m = bus.recv(...)`,
   * opened at poll `start`, continued from `w`.
   */
  function Listen(polls: seq<Poll>, start: nat, rxMs: int, cancel: Cancel, w: Window): (r: Window)
    requires start <= w.pos <= |polls|
    ensures w.pos <= r.pos <= |polls|
    decreases |polls| - w.pos
  {
    if w.pos == |polls| || !InTime(polls, start, w.pos, rxMs) then w
    else if cancel.IsSet(w.checks) then w.(checks := w.checks + 1, aborted := true)
    else
      var got := if polls[w.pos].frame.Some? then [polls[w.pos].frame.value] else [];
      Listen(polls, start, rxMs, cancel, w.(pos := w.pos + 1, checks := w.checks + 1, received := w.received + got))
  }

  // ----- the burst loop of the test page -----

  /** A log row: a sent frame with the frames received in its burst's window. */
  datatype Row = Row(sent: Frame, received: seq<Frame>)

  function Rows(frames: seq<Frame>, received: seq<Frame>): (rs: seq<Row>)
    ensures |rs| == |frames|
    ensures forall i :: 0 <= i < |rs| ==> rs[i].sent == frames[i] && rs[i].received == received
  {
    seq(|frames|, i requires 0 <= i < |frames| => Row(frames[i], received))
  }

  /** The fixed inputs of one send: the transport, the abort flag, the id, the RX window and the burst size. */
  datatype Env = Env(polls: seq<Poll>, cancel: Cancel, arbId: int, rxMs: int, maxParallel: nat)

  /**
   * The locals of `on_send` while it sends: the poll position, abort-flag
   * checks so far, `ok`, whether an exception was raised, the pending
   * `burst`, the frames sent and the rows logged.
   */
  datatype St = St(pos: nat, checks: nat, ok: bool, raised: bool, burst: seq<seq<string>>, sent: seq<Frame>, rows: seq<Row>)

  const START: St := St(0, 0, true, false, [], [], [])

  /** Sending the pending burst: its frames, then the RX window, then one log row per frame; the burst is emptied. */
  function Flush(e: Env, s: St): (r: St)
    requires s.pos <= |e.polls|
    ensures s.pos <= r.pos <= |e.polls|
  {
    var b := SendBurst(e.arbId, s.burst);
    if !b.1 then s.(ok := false, raised := true, sent := s.sent + b.0)
    else
      var w := Listen(e.polls, s.pos, e.rxMs, e.cancel, Window(s.pos, s.checks, [], false));
      s.(pos := w.pos, checks := w.checks, ok := s.ok && !w.aborted, sent := s.sent + b.0,
         rows := s.rows + Rows(b.0, w.received), burst := [])
  }

  /** `for combo in combo_iter()` from the `k`th combination on. */
  function Sending(e: Env, combos: seq<seq<string>>, k: nat, s: St): (r: St)
    requires k <= |combos| && s.pos <= |e.polls|
    ensures s.pos <= r.pos <= |e.polls|
    decreases |combos| - k
  {
    if k == |combos| then s
    else if e.cancel.IsSet(s.checks) then s.(checks := s.checks + 1, ok := false)
    else
      var s1 := s.(checks := s.checks + 1, burst := s.burst + [combos[k]]);
      if |s1.burst| < e.maxParallel then Sending(e, combos, k + 1, s1)
      else
        var s2 := Flush(e, s1);
        if s2.raised then s2 else Sending(e, combos, k + 1, s2)
  }

  /** The whole send: the burst loop, then the last shorter burst if nothing went wrong. */
  function SendAll(e: Env, combos: seq<seq<string>>): St {
    var s := Sending(e, combos, 0, START);
    if s.ok && s.burst != [] then Flush(e, s) else s
  }

  // ----- on_send -----

  /** The status line at the end: aborted if the flag reads set, else OK if `ok`, else error. */
  datatype Status = Aborted | Completed | Failed

  function StatusOf(cancel: Cancel, checks: nat, ok: bool): Status {
    if cancel.IsSet(checks) then Aborted else if ok then Completed else Failed
  }

  /**
   * The page's inputs: the CAN id text, the delay/RX/parallel fields as
   * `int(...)` parsed them (None where that raised), the byte fields and the
   * user's answer to the confirmation dialog.
   */
  datatype Request = Request(canId: string, delayMs: Option<int>, rxMs: Option<int>, parallel: Option<int>,
                             boxes: seq<string>, confirmed: bool)

  datatype Outcome =
    | MissingCanId
    | BadNumber
    | BadBytes(error: TokenError)
    | Declined
    | Done(status: Status, sent: seq<Frame>, rows: seq<Row>)

  /** What `TestPage.on_send` does for `req` on the bus `polls` with abort flag `cancel`. */
  function SendOutcome(req: Request, polls: seq<Poll>, cancel: Cancel): Outcome {
    var canId := Core(req.canId);
    if canId == [] then MissingCanId
    else if req.delayMs.None? || req.rxMs.None? || req.parallel.None? then BadNumber
    else
      match Tokens(req.boxes)
      case Failure(err) => BadBytes(err)
      case Success(tt) =>
        if tt.1 > CONFIRM_ABOVE && !req.confirmed then Declined
        else
          match PyInt16(canId)
          case None => Done(StatusOf(cancel, 0, false), [], [])
          case Some(arbId) =>
            var e := Env(polls, cancel, arbId, req.rxMs.value, MaxParallel(req.parallel.value));
            var s := SendAll(e, FirstFastest(Choices(tt.0)));
            Done(StatusOf(cancel, s.checks, s.ok), s.sent, s.rows)
  }

  // ----- the older sender in bmw.py -----

  /** Position in the stream, frames sent and whether an exception ended the loop. */
  datatype LegacySt = LegacySt(pos: nat, sent: seq<Frame>, raised: bool)

  /** `for combo in itertools.product(*choices)`: send one frame, then drain the bus for `rx_ms`. */
  function LegacySending(polls: seq<Poll>, arbId: int, rxMs: int, combos: seq<seq<string>>, k: nat, s: LegacySt): (r: LegacySt)
    requires k <= |combos| && s.pos <= |polls|
    ensures s.pos <= r.pos <= |polls|
    decreases |combos| - k
  {
    if k == |combos| then s
    else
      match Encode(arbId, combos[k])
      case None => s.(raised := true)
      case Some(f) =>
        var w := Listen(polls, s.pos, rxMs, Never, Window(s.pos, 0, [], false));
        LegacySending(polls, arbId, rxMs, combos, k + 1, s.(pos := w.pos, sent := s.sent + [f]))
  }

  datatype LegacyRequest = LegacyRequest(canId: string, delayMs: Option<int>, rxMs: Option<int>, boxes: seq<string>,
                                         confirmed: bool)

  /** What `TestPage.on_send` in `bmw.py` does: there is no abort flag, so the status is OK or error. */
  function LegacyOutcome(req: LegacyRequest, polls: seq<Poll>): Outcome {
    var canId := Core(req.canId);
    if canId == [] then MissingCanId
    else if req.delayMs.None? || req.rxMs.None? then BadNumber
    else
      match Tokens(req.boxes)
      case Failure(err) => BadBytes(err)
      case Success(tt) =>
        if tt.1 > LEGACY_CONFIRM_ABOVE && !req.confirmed then Declined
        else
          match PyInt16(canId)
          case None => Done(Failed, [], [])
          case Some(arbId) =>
            var s := LegacySending(polls, arbId, req.rxMs.value, Product(Choices(tt.0)), 0, LegacySt(0, [], false));
            Done(if s.raised then Failed else Completed, s.sent, [])
  }

  // ----- the imperative code -----

  /** The `for c in burst` send loop. */
  method Transmit(arbId: int, burst: seq<seq<string>>) returns (frames: seq<Frame>, complete: bool)
    ensures (frames, complete) == SendBurst(arbId, burst)
  {
    frames := [];
    complete := true;
    var i := 0;
    assert burst[i..] == burst;
    while i < |burst|
      invariant i <= |burst|
      invariant SendBurst(arbId, burst).0 == frames + SendBurst(arbId, burst[i..]).0
      invariant SendBurst(arbId, burst).1 == SendBurst(arbId, burst[i..]).1
    {
      assert burst[i..][0] == burst[i] && burst[i..][1..] == burst[i + 1..];
      var f := Encode(arbId, burst[i]);
      if f.None? {
        assert SendBurst(arbId, burst[i..]) == ([], false);
        assert frames + [] == frames;
        complete := false;
        return;
      }
      frames := frames + [f.value];
      i := i + 1;
    }
    assert burst[i..] == [];
    assert frames + [] == frames;
  }

  /** The RX window loop. */
  method ListenWindow(polls: seq<Poll>, start: nat, rxMs: int, cancel: Cancel, checks: nat) returns (w: Window)
    requires start <= |polls|
    ensures w == Listen(polls, start, rxMs, cancel, Window(start, checks, [], false))
  {
    w := Window(start, checks, [], false);
    while w.pos < |polls| && InTime(polls, start, w.pos, rxMs)
      invariant start <= w.pos <= |polls| && !w.aborted
      invariant Listen(polls, start, rxMs, cancel, w) == Listen(polls, start, rxMs, cancel, Window(start, checks, [], false))
      decreases |polls| - w.pos
    {
      if cancel.IsSet(w.checks) {
        w := w.(checks := w.checks + 1, aborted := true);
        return;
      }
      var m := polls[w.pos].frame;
      var got := if m.Some? then [m.value] else [];
      w := w.(pos := w.pos + 1, checks := w.checks + 1, received := w.received + got);
    }
  }

  method FlushBurst(e: Env, s: St) returns (r: St)
    requires s.pos <= |e.polls|
    ensures r == Flush(e, s)
  {
    var frames, complete := Transmit(e.arbId, s.burst);
    if !complete {
      r := s.(ok := false, raised := true, sent := s.sent + frames);
      return;
    }
    var w := ListenWindow(e.polls, s.pos, e.rxMs, e.cancel, s.checks);
    r := s.(pos := w.pos, checks := w.checks, ok := s.ok && !w.aborted, sent := s.sent + frames,
            rows := s.rows + Rows(frames, w.received), burst := []);
  }

  /** The burst loop and the final shorter burst of `on_send`. */
  method SendCombos(e: Env, combos: seq<seq<string>>) returns (s: St)
    ensures s == SendAll(e, combos)
  {
    s := START;
    var k := 0;
    while k < |combos|
      invariant k <= |combos| && s.pos <= |e.polls|
      invariant Sending(e, combos, k, s) == Sending(e, combos, 0, START)
    {
      if e.cancel.IsSet(s.checks) {
        s := s.(checks := s.checks + 1, ok := false);
        return;
      }
      s := s.(checks := s.checks + 1, burst := s.burst + [combos[k]]);
      if |s.burst| >= e.maxParallel {
        s := FlushBurst(e, s);
        if s.raised {
          return;
        }
      }
      k := k + 1;
    }
    if s.ok && s.burst != [] {
      s := FlushBurst(e, s);
    }
  }

  /** `TestPage.on_send`. */
  method OnSend(req: Request, polls: seq<Poll>, cancel: Cancel) returns (out: Outcome)
    ensures out == SendOutcome(req, polls, cancel)
  {
    var canId := Core(req.canId);
    if canId == [] {
      return MissingCanId;
    }
    if req.delayMs.None? || req.rxMs.None? || req.parallel.None? {
      return BadNumber;
    }
    var maxParallel := MaxParallel(req.parallel.value);
    var tt := TokensFromBoxes(req.boxes);
    if tt.Failure? {
      return BadBytes(tt.error);
    }
    var tokens, total := tt.value.0, tt.value.1;
    if total > CONFIRM_ABOVE && !req.confirmed {
      return Declined;
    }
    var arbId := PyInt16(canId);
    if arbId.None? {
      return Done(StatusOf(cancel, 0, false), [], []);
    }
    var s := SendCombos(Env(polls, cancel, arbId.value, req.rxMs.value, maxParallel), FirstFastest(Choices(tokens)));
    out := Done(StatusOf(cancel, s.checks, s.ok), s.sent, s.rows);
  }

  /** The send loop of the `bmw.py` page. */
  method LegacySend(polls: seq<Poll>, arbId: int, rxMs: int, combos: seq<seq<string>>) returns (s: LegacySt)
    ensures s == LegacySending(polls, arbId, rxMs, combos, 0, LegacySt(0, [], false))
  {
    s := LegacySt(0, [], false);
    var k := 0;
    while k < |combos|
      invariant k <= |combos| && s.pos <= |polls|
      invariant LegacySending(polls, arbId, rxMs, combos, k, s) == LegacySending(polls, arbId, rxMs, combos, 0, LegacySt(0, [], false))
    {
      var f := Encode(arbId, combos[k]);
      if f.None? {
        s := s.(raised := true);
        return;
      }
      var w := ListenWindow(polls, s.pos, rxMs, Never, 0);
      s := s.(pos := w.pos, sent := s.sent + [f.value]);
      k := k + 1;
    }
  }

  // ----- the combinations -----

  /** Field value `x` fits token `t`: any two-digit byte for a wildcard, else exactly the token. */
  predicate Fits(t: Option<string>, x: string) {
    if t.None? then exists b: byte :: x == HexByte(b) else x == t.value
  }

  lemma ChoiceFits(t: Option<string>, x: string)
    ensures x in Choice(t) <==> Fits(t, x)
    ensures NoDup(Choice(t))
  {
    var all := AllBytes();
    if t.None? {
      if x in all {
        var k :| 0 <= k < 256 && all[k] == x;
        assert x == HexByte(k);
      }
      if Fits(t, x) {
        var b: byte :| x == HexByte(b);
        assert all[b] == x;
      }
      forall j, k | 0 <= j < k < 256 ensures all[j] != all[k] {
        var a: byte, b: byte := j, k;
        if all[a] == all[b] {
          HexByteInjective(a, b);
        }
      }
    }
  }

  /** The number of combinations is the variant count `256^k` of `tokens_from_boxes`. */
  lemma {:induction false} ChoicesSize(ts: seq<Option<string>>)
    ensures Size(Choices(ts)) == Pow(256, Wildcards(ts))
  {
    if ts != [] {
      var n := |ts|;
      var init := ts[..n - 1];
      ChoicesSize(init);
      assert Choices(ts) == Choices(init) + [Choice(ts[n - 1])];
      SizeAppend(Choices(init), Choice(ts[n - 1]));
    }
  }

  /**
   * `combo_iter` yields exactly the combinations whose wildcard fields hold a
   * two-digit byte and whose fixed fields hold their token, each once, and
   * there are as many as `tokens_from_boxes` counted.
   */
  lemma ComboIterSpec(ts: seq<Option<string>>, c: seq<string>)
    ensures c in FirstFastest(Choices(ts)) <==> |c| == |ts| && forall i :: 0 <= i < |ts| ==> Fits(ts[i], c[i])
    ensures NoDup(FirstFastest(Choices(ts)))
    ensures |FirstFastest(Choices(ts))| == Pow(256, Wildcards(ts))
  {
    var cs := Choices(ts);
    forall i | 0 <= i < |ts| ensures NoDup(cs[i]) {
      ChoiceFits(ts[i], "");
    }
    FirstFastestMembers(cs, c);
    if |c| == |ts| {
      forall i | 0 <= i < |ts| ensures c[i] in cs[i] <==> Fits(ts[i], c[i]) {
        ChoiceFits(ts[i], c[i]);
      }
    }
    FirstFastestLength(cs);
    ChoicesSize(ts);
  }

  /**
   * The two pages send the same combinations in different orders: with two
   * wildcard fields the second combination of `combo_iter` is 01 00, that of
   * `itertools.product` 00 01.
   */
  lemma OrdersDiffer()
    ensures 1 < |FirstFastest(Choices([None, None]))| && FirstFastest(Choices([None, None]))[1] == ["01", "00"]
    ensures 1 < |Product(Choices([None, None]))| && Product(Choices([None, None]))[1] == ["00", "01"]
  {
    var cs := Choices([None, None]);
    assert cs[1..][1..] == [];
    assert RankLow(cs, [1, 0]) == 1;
    assert Rank(cs, [0, 1]) == 1;
    FirstFastestAt(cs, [1, 0]);
    ProductAt(cs, [0, 1]);
    assert HexByte(0) == "00" && HexByte(1) == "01";
  }

  /** The variant count exceeds 65536 iff three or more fields are wildcards, and 4096 iff two or more are. */
  lemma ConfirmationThresholds(n: nat)
    ensures Pow(256, n) > CONFIRM_ABOVE <==> n >= 3
    ensures Pow(256, n) > LEGACY_CONFIRM_ABOVE <==> n >= 2
  {
    if n >= 3 {
      PowGrows(3, n);
    } else {
      assert Pow(256, 2) == 65536 by {
        assert Pow(256, 1) == 256;
      }
    }
  }

  lemma {:induction false} PowGrows(m: nat, n: nat)
    requires m <= n
    ensures Pow(256, m) <= Pow(256, n)
  {
    if m < n {
      PowGrows(m, n - 1);
    }
  }

  // ----- encoding -----

  /** A combination of two-digit hex fields always yields a frame, one byte per field. */
  lemma {:induction false} EncodeHexFields(arbId: int, c: seq<string>)
    requires forall i :: 0 <= i < |c| ==> |c[i]| == 2 && IsHexDigit(c[i][0]) && IsHexDigit(c[i][1])
    ensures Encode(arbId, c).Some?
    ensures Encode(arbId, c).value.id == arbId && |Encode(arbId, c).value.data| == |c|
    ensures forall i :: 0 <= i < |c| ==> Encode(arbId, c).value.data[i] == DigitValue(c[i][0]) * 16 + DigitValue(c[i][1])
  {
    if c != [] {
      EncodeHexFields(arbId, c[1..]);
      var s := Join(c, "");
      assert s == c[0] + Join(c[1..], "");
      assert s[2..] == Join(c[1..], "");
      assert IsHexDigit(s[0]) && IsHexDigit(s[1]);
    }
  }

  /** A field with a sign (accepted by `normalize_hex_byte`, see `SignedTokenAccepted`) makes `bytes.fromhex` raise. */
  lemma {:induction false} SignedFieldFails(arbId: int, c: seq<string>, i: nat)
    requires i < |c| && |c[i]| == 2 && (c[i][0] == '+' || c[i][0] == '-')
    requires forall j :: 0 <= j < i ==> |c[j]| == 2 && IsHexDigit(c[j][0]) && IsHexDigit(c[j][1])
    ensures Encode(arbId, c).None?
  {
    var s := Join(c, "");
    assert s == c[0] + Join(c[1..], "");
    if i > 0 {
      SignedFieldFails(arbId, c[1..], i - 1);
      assert IsHexDigit(s[0]) && IsHexDigit(s[1]);
      assert s[2..] == Join(c[1..], "");
    }
  }

  /**
   * The frames of a burst are the frames of its combinations in order, up to
   * the first combination that cannot be built; the burst is complete iff
   * there is none.
   */
  lemma {:induction false} SendBurstSpec(arbId: int, burst: seq<seq<string>>)
    ensures var b := SendBurst(arbId, burst);
      && |b.0| <= |burst|
      && (forall j :: 0 <= j < |b.0| ==> Encode(arbId, burst[j]) == Some(b.0[j]))
      && (b.1 <==> |b.0| == |burst|)
      && (!b.1 ==> Encode(arbId, burst[|b.0|]).None?)
  {
    if burst != [] {
      SendBurstSpec(arbId, burst[1..]);
    }
  }

  /** Sending `a` then `b` is sending `a + b`, except that nothing of `b` goes out once `a` raised. */
  lemma {:induction false} SendBurstAppend(arbId: int, a: seq<seq<string>>, b: seq<seq<string>>)
    ensures SendBurst(arbId, a + b) == Appended(SendBurst(arbId, a), SendBurst(arbId, b))
  {
    if a == [] {
      assert a + b == b && [] + SendBurst(arbId, b).0 == SendBurst(arbId, b).0;
    } else {
      assert a + b != [] && (a + b)[0] == a[0] && (a + b)[1..] == a[1..] + b;
      SendBurstAppend(arbId, a[1..], b);
      if Encode(arbId, a[0]).Some? {
        AppendBuilt(arbId, a, b);
      }
    }
  }

  /** Sending `a` then `b`, as `SendBurst` leaves it: `b` goes out only if `a` did not raise. */
  function Appended(x: (seq<Frame>, bool), y: (seq<Frame>, bool)): (seq<Frame>, bool) {
    if x.1 then (x.0 + y.0, y.1) else x
  }

  /** The induction step of `SendBurstAppend` when the first combination of `a` is built. */
  lemma AppendBuilt(arbId: int, a: seq<seq<string>>, b: seq<seq<string>>)
    requires a != [] && Encode(arbId, a[0]).Some? && (a + b)[1..] == a[1..] + b
    requires SendBurst(arbId, a[1..] + b) == Appended(SendBurst(arbId, a[1..]), SendBurst(arbId, b))
    ensures SendBurst(arbId, a + b) == Appended(SendBurst(arbId, a), SendBurst(arbId, b))
  {
    var f := Encode(arbId, a[0]).value;
    var t, y := SendBurst(arbId, a[1..]), SendBurst(arbId, b);
    assert (a + b)[0] == a[0];
    if t.1 {
      assert [f] + (t.0 + y.0) == ([f] + t.0) + y.0;
    }
  }

  // ----- the receive window -----

  /**
   * A window continued from `w` ends in `r`: it examined the polls from
   * `w.pos` while they were in time and the abort flag read clear, recorded
   * every frame they received, checked the flag once per poll, and stopped
   * at the end of the stream, at the deadline, or at the check that read set.
   */
  ghost predicate Listened(polls: seq<Poll>, start: nat, rxMs: int, cancel: Cancel, w: Window, r: Window) {
    && start <= w.pos <= r.pos <= |polls| && !w.aborted
    && r.received == w.received + FramesOf(polls[w.pos..r.pos])
    && r.checks == w.checks + (r.pos - w.pos) + (if r.aborted then 1 else 0)
    && (forall j :: w.pos <= j < r.pos ==> InTime(polls, start, j, rxMs))
    && (forall c :: w.checks <= c < w.checks + (r.pos - w.pos) ==> !cancel.IsSet(c))
    && (r.aborted ==> r.pos < |polls| && InTime(polls, start, r.pos, rxMs) && cancel.IsSet(r.checks - 1))
    && (!r.aborted ==> r.pos == |polls| || !InTime(polls, start, r.pos, rxMs))
  }

  /** Every window ends as `Listened` says. */
  lemma {:induction false} ListenSpec(polls: seq<Poll>, start: nat, rxMs: int, cancel: Cancel, w: Window)
    requires start <= w.pos <= |polls| && !w.aborted
    ensures Listened(polls, start, rxMs, cancel, w, Listen(polls, start, rxMs, cancel, w))
    decreases |polls| - w.pos
  {
    var r := Listen(polls, start, rxMs, cancel, w);
    if w.pos == |polls| || !InTime(polls, start, w.pos, rxMs) {
      assert polls[w.pos..r.pos] == [];
    } else if cancel.IsSet(w.checks) {
      assert polls[w.pos..r.pos] == [];
    } else {
      var got := if polls[w.pos].frame.Some? then [polls[w.pos].frame.value] else [];
      var w1 := w.(pos := w.pos + 1, checks := w.checks + 1, received := w.received + got);
      ListenSpec(polls, start, rxMs, cancel, w1);
      ListenStep(polls, start, rxMs, cancel, w, r);
    }
  }

  /** A poll in time with the flag clear: its frame is recorded and the window goes on. */
  lemma ListenStep(polls: seq<Poll>, start: nat, rxMs: int, cancel: Cancel, w: Window, r: Window)
    requires start <= w.pos < |polls| && !w.aborted && InTime(polls, start, w.pos, rxMs) && !cancel.IsSet(w.checks)
    requires var got := if polls[w.pos].frame.Some? then [polls[w.pos].frame.value] else [];
      Listened(polls, start, rxMs, cancel, w.(pos := w.pos + 1, checks := w.checks + 1, received := w.received + got), r)
    ensures Listened(polls, start, rxMs, cancel, w, r)
  {
    assert polls[w.pos..r.pos][0] == polls[w.pos];
    assert polls[w.pos..r.pos][1..] == polls[w.pos + 1..r.pos];
  }

  // ----- the burst loop -----

  /** Log rows for a prefix of the sent frames, in the same order. */
  ghost predicate RowsMatch(rows: seq<Row>, sent: seq<Frame>) {
    |rows| <= |sent| && forall i :: 0 <= i < |rows| ==> rows[i].sent == sent[i]
  }

  /**
   * The state at the head of the burst loop before combination `k`: the
   * pending burst is the last `|burst| < max_parallel` combinations, all
   * earlier ones went out in whole bursts, each with its log row, and `ok`
   * can only have dropped through the abort flag.
   */
  ghost predicate Between(e: Env, combos: seq<seq<string>>, k: nat, s: St) {
    && e.maxParallel >= 1
    && k <= |combos| && s.pos <= |e.polls| && !s.raised
    && |s.burst| < e.maxParallel && |s.burst| <= k
    && s.burst == combos[k - |s.burst|..k]
    && SendBurst(e.arbId, combos[..k - |s.burst|]) == (s.sent, true)
    && Multiple(|s.sent|, e.maxParallel)
    && RowsMatch(s.rows, s.sent) && |s.rows| == |s.sent|
    && (e.cancel == Never ==> s.ok)
  }

  /** How the burst loop can end: raised on a combination it could not build, or at a loop head (by abort or at the end). */
  ghost predicate Stopped(e: Env, combos: seq<seq<string>>, r: St) {
    if r.raised then
      && !r.ok
      && SendBurst(e.arbId, combos) == (r.sent, false)
      && RowsMatch(r.rows, r.sent)
    else
      && Between(e, combos, |r.sent| + |r.burst|, r)
      && (r.ok ==> |r.sent| + |r.burst| == |combos|)
  }

  /** `n` is a whole number of bursts of `m`. */
  predicate Multiple(n: nat, m: nat)
    decreases n
  {
    n == 0 || (m >= 1 && n >= m && Multiple(n - m, m))
  }

  lemma {:induction false} SendingSpec(e: Env, combos: seq<seq<string>>, k: nat, s: St)
    requires Between(e, combos, k, s)
    ensures Stopped(e, combos, Sending(e, combos, k, s))
    decreases |combos| - k
  {
    if k == |combos| || e.cancel.IsSet(s.checks) {
      LoopExit(e, combos, k, s);
    } else {
      var s1 := s.(checks := s.checks + 1, burst := s.burst + [combos[k]]);
      if |s1.burst| < e.maxParallel {
        PendingStep(e, combos, k, s);
        SendingSpec(e, combos, k + 1, s1);
      } else {
        if SendBurst(e.arbId, s1.burst).1 {
          FullSends(e, combos, k, s);
          SendingSpec(e, combos, k + 1, Flush(e, s1));
        } else {
          FullRaises(e, combos, k, s);
        }
      }
    }
  }

  /** The loop leaves at its head when the enumeration is exhausted or the abort flag reads set. */
  lemma LoopExit(e: Env, combos: seq<seq<string>>, k: nat, s: St)
    requires Between(e, combos, k, s) && (k == |combos| || e.cancel.IsSet(s.checks))
    ensures Stopped(e, combos, Sending(e, combos, k, s))
  {
    SendBurstSpec(e.arbId, combos[..k - |s.burst|]);
    if k < |combos| {
      assert Between(e, combos, k, s.(checks := s.checks + 1, ok := false));
    }
  }

  /** A combination that does not fill the burst is only queued. */
  lemma PendingStep(e: Env, combos: seq<seq<string>>, k: nat, s: St)
    requires Between(e, combos, k, s) && k < |combos| && !e.cancel.IsSet(s.checks)
    requires |s.burst| + 1 < e.maxParallel
    ensures var s1 := s.(checks := s.checks + 1, burst := s.burst + [combos[k]]);
      Between(e, combos, k + 1, s1) && Sending(e, combos, k, s) == Sending(e, combos, k + 1, s1)
  {
    assert s.burst + [combos[k]] == combos[k - |s.burst|..k + 1];
  }

  /** A combination that fills the burst triggers a flush. */
  lemma FullStep(e: Env, combos: seq<seq<string>>, k: nat, s: St)
    requires Between(e, combos, k, s) && k < |combos| && !e.cancel.IsSet(s.checks)
    requires |s.burst| + 1 >= e.maxParallel
    ensures var s1 := s.(checks := s.checks + 1, burst := s.burst + [combos[k]]);
      && FullBurst(e, combos, k, s1)
      && Sending(e, combos, k, s) == (if Flush(e, s1).raised then Flush(e, s1) else Sending(e, combos, k + 1, Flush(e, s1)))
  {
    assert s.burst + [combos[k]] == combos[k - |s.burst|..k + 1];
  }

  /** A combination that fills a burst that is built: the burst goes out and the loop goes on at `k + 1`. */
  lemma FullSends(e: Env, combos: seq<seq<string>>, k: nat, s: St)
    requires Between(e, combos, k, s) && k < |combos| && !e.cancel.IsSet(s.checks)
    requires |s.burst| + 1 >= e.maxParallel && SendBurst(e.arbId, s.burst + [combos[k]]).1
    ensures var s2 := Flush(e, s.(checks := s.checks + 1, burst := s.burst + [combos[k]]));
      s.pos <= s2.pos <= |e.polls| && Between(e, combos, k + 1, s2) && Sending(e, combos, k, s) == Sending(e, combos, k + 1, s2)
  {
    FullStep(e, combos, k, s);
    FlushSends(e, combos, k, s.(checks := s.checks + 1, burst := s.burst + [combos[k]]));
  }

  /** A combination that fills a burst that cannot be built: the loop raises as `Stopped` says. */
  lemma FullRaises(e: Env, combos: seq<seq<string>>, k: nat, s: St)
    requires Between(e, combos, k, s) && k < |combos| && !e.cancel.IsSet(s.checks)
    requires |s.burst| + 1 >= e.maxParallel && !SendBurst(e.arbId, s.burst + [combos[k]]).1
    ensures Stopped(e, combos, Sending(e, combos, k, s))
  {
    FullStep(e, combos, k, s);
    FlushRaises(e, combos, k, s.(checks := s.checks + 1, burst := s.burst + [combos[k]]));
  }

  /** The facts at the head of a full burst after combination `k`. */
  ghost predicate FullBurst(e: Env, combos: seq<seq<string>>, k: nat, s1: St) {
    && k < |combos| && s1.pos <= |e.polls| && !s1.raised && e.maxParallel >= 1
    && |s1.burst| == e.maxParallel <= k + 1 && s1.burst == combos[k + 1 - |s1.burst|..k + 1]
    && SendBurst(e.arbId, combos[..k + 1 - |s1.burst|]) == (s1.sent, true)
    && Multiple(|s1.sent|, e.maxParallel) && RowsMatch(s1.rows, s1.sent) && |s1.rows| == |s1.sent|
    && (e.cancel == Never ==> s1.ok)
  }

  /** A full burst that cannot be built raises as `Stopped` says. */
  lemma FlushRaises(e: Env, combos: seq<seq<string>>, k: nat, s1: St)
    requires FullBurst(e, combos, k, s1) && !SendBurst(e.arbId, s1.burst).1
    ensures Flush(e, s1).raised && Stopped(e, combos, Flush(e, s1))
  {
    var p := k + 1 - |s1.burst|;
    assert combos[..k + 1] == combos[..p] + s1.burst;
    SendBurstAppend(e.arbId, combos[..p], s1.burst);
    assert combos == combos[..k + 1] + combos[k + 1..];
    SendBurstAppend(e.arbId, combos[..k + 1], combos[k + 1..]);
  }

  /** A full burst that is built goes out whole and the loop reaches its next head. */
  lemma FlushSends(e: Env, combos: seq<seq<string>>, k: nat, s1: St)
    requires FullBurst(e, combos, k, s1) && SendBurst(e.arbId, s1.burst).1
    ensures !Flush(e, s1).raised && Between(e, combos, k + 1, Flush(e, s1))
  {
    var p := k + 1 - |s1.burst|;
    SendBurstSpec(e.arbId, s1.burst);
    assert combos[..k + 1] == combos[..p] + s1.burst;
    SendBurstAppend(e.arbId, combos[..p], s1.burst);
    var s2 := Flush(e, s1);
    ListenSpec(e.polls, s1.pos, e.rxMs, e.cancel, Window(s1.pos, s1.checks, [], false));
    assert |s2.sent| - e.maxParallel == |s1.sent|;
    assert combos[k + 1 - |s2.burst|..k + 1] == [];
  }

  /**
   * What the test page's send achieves: the frames go out in `combo_iter`
   * order, a prefix of all the combinations' frames, each with its log row;
   * a run that raised stopped at the first combination it could not build;
   * a run that stayed `ok` sent every combination; a run whose frame count is
   * not a whole number of bursts raised or ran to the end (the last shorter
   * burst goes out only then); and without an abort every buildable
   * enumeration completes.
   */
  lemma SendAllSpec(e: Env, combos: seq<seq<string>>)
    requires e.maxParallel >= 1
    ensures var r, all := SendAll(e, combos), SendBurst(e.arbId, combos);
      && r.sent <= all.0
      && RowsMatch(r.rows, r.sent) && (!r.raised ==> |r.rows| == |r.sent|)
      && (r.raised ==> r.sent == all.0 && !all.1)
      && (r.ok ==> !r.raised && r.sent == all.0 && all.1 && |r.sent| == |combos|)
      && (!Multiple(|r.sent|, e.maxParallel) ==> r.raised || |r.sent| == |combos|)
      && (e.cancel == Never && all.1 ==> r.ok)
  {
    assert combos[..0] == [];
    SendingSpec(e, combos, 0, START);
    var s := Sending(e, combos, 0, START);
    if !s.raised {
      if s.ok && s.burst != [] {
        LastBurst(e, combos, s);
      } else {
        NoLastBurst(e, combos, s);
      }
    }
  }

  /** The loop ended at a head with `ok` and a pending burst: the last shorter burst completes the enumeration. */
  lemma LastBurst(e: Env, combos: seq<seq<string>>, s: St)
    requires Stopped(e, combos, s) && !s.raised && s.ok && s.burst != []
    ensures var r, all := Flush(e, s), SendBurst(e.arbId, combos);
      && r.sent == all.0 && RowsMatch(r.rows, r.sent)
      && (r.raised ==> !all.1)
      && (!r.raised ==> all.1 && |r.rows| == |r.sent| && |r.sent| == |combos|)
      && (r.ok ==> !r.raised)
      && (e.cancel == Never && all.1 ==> r.ok)
  {
    var n := |s.sent|;
    var b := SendBurst(e.arbId, s.burst);
    assert |combos| == n + |s.burst| && s.burst == combos[n..];
    assert SendBurst(e.arbId, combos) == (s.sent + b.0, b.1) by {
      SplitAt(combos, n);
      SendBurstAppend(e.arbId, combos[..n], combos[n..]);
    }
    SendBurstSpec(e.arbId, s.burst);
    FlushSpec(e, s);
  }

  /**
   * One flush: the burst's frames go out; a burst that cannot be built raises
   * and fails; a built burst logs one row per frame and keeps `ok` unless the
   * abort flag was seen, which never happens without an abort.
   */
  lemma FlushSpec(e: Env, s: St)
    requires s.pos <= |e.polls| && RowsMatch(s.rows, s.sent) && |s.rows| == |s.sent|
    ensures var r, b := Flush(e, s), SendBurst(e.arbId, s.burst);
      && r.sent == s.sent + b.0 && RowsMatch(r.rows, r.sent)
      && (!b.1 ==> r.raised && !r.ok)
      && (b.1 ==> r.raised == s.raised && |r.rows| == |r.sent|)
      && (r.ok ==> s.ok)
      && (e.cancel == Never && b.1 ==> r.ok == s.ok)
  {
    var b := SendBurst(e.arbId, s.burst);
    if b.1 {
      var w := Listen(e.polls, s.pos, e.rxMs, e.cancel, Window(s.pos, s.checks, [], false));
      assert w.aborted ==> e.cancel != Never by {
        ListenSpec(e.polls, s.pos, e.rxMs, e.cancel, Window(s.pos, s.checks, [], false));
      }
      RowsAppend(s.rows, s.sent, b.0, w.received);
    }
  }

  /** Logging a burst's rows after rows that match the frames sent keeps them matching. */
  lemma RowsAppend(rows: seq<Row>, sent: seq<Frame>, frames: seq<Frame>, received: seq<Frame>)
    requires RowsMatch(rows, sent) && |rows| == |sent|
    ensures RowsMatch(rows + Rows(frames, received), sent + frames)
    ensures |rows + Rows(frames, received)| == |sent + frames|
  {
    var rs := rows + Rows(frames, received);
    forall i | 0 <= i < |rs| ensures rs[i].sent == (sent + frames)[i] {
      if i >= |rows| {
        assert rs[i] == Rows(frames, received)[i - |rows|];
      }
    }
  }

  /** The loop ended at a head with no last burst to send. */
  lemma NoLastBurst(e: Env, combos: seq<seq<string>>, s: St)
    requires Stopped(e, combos, s) && !s.raised && !(s.ok && s.burst != [])
    ensures var all := SendBurst(e.arbId, combos);
      && s.sent <= all.0 && RowsMatch(s.rows, s.sent) && |s.rows| == |s.sent|
      && Multiple(|s.sent|, e.maxParallel)
      && (s.ok ==> s.sent == all.0 && all.1 && |s.sent| == |combos|)
  {
    var n := |s.sent|;
    SplitAt(combos, n);
    SendBurstAppend(e.arbId, combos[..n], combos[n..]);
    SendBurstSpec(e.arbId, combos);
    if s.ok {
      assert combos[n..] == [];
    }
  }

  /** A sequence is its prefix followed by the rest. */
  lemma SplitAt<T>(s: seq<T>, n: nat)
    requires n <= |s|
    ensures s == s[..n] + s[n..]
  {
  }

  /** A completed send sent one frame for every combination, in `combo_iter` order, as many as the variant count. */
  lemma CompletedSendsAll(req: Request, polls: seq<Poll>, cancel: Cancel)
    ensures var out := SendOutcome(req, polls, cancel);
      out.Done? && out.status == Completed ==>
        && Tokens(req.boxes).Success? && PyInt16(Core(req.canId)).Some?
        && SendBurst(PyInt16(Core(req.canId)).value, FirstFastest(Choices(Tokens(req.boxes).value.0))) == (out.sent, true)
        && |out.sent| == Tokens(req.boxes).value.1
  {
    var out := SendOutcome(req, polls, cancel);
    if out.Done? && out.status == Completed {
      var tt := Tokens(req.boxes).value;
      var arbId := PyInt16(Core(req.canId)).value;
      var e := Env(polls, cancel, arbId, req.rxMs.value, MaxParallel(req.parallel.value));
      SendAllSpec(e, FirstFastest(Choices(tt.0)));
      ComboIterSpec(tt.0, []);
      TokensCount(req.boxes);
    }
  }

  /**
   * The abort flag set from check `c` on, as the burst loop sees it at a head:
   * every combination taken so far was taken at its own check that read clear,
   * at most one check was made after the flag was set, and a run that has
   * seen the flag is no longer `ok`.
   */
  ghost predicate Heeds(c: nat, s: St) {
    && |s.sent| + |s.burst| <= s.checks
    && |s.sent| + |s.burst| <= c
    && s.checks <= c + 1
    && (s.checks > c ==> !s.ok)
  }

  /** One flush with the flag still clear at its start: it sends at most the burst, and a window that reads the flag set clears `ok`. */
  lemma FlushHeeds(e: Env, s: St)
    requires e.cancel.From? && s.checks <= e.cancel.check && s.pos <= |e.polls| && !s.raised
    ensures var r, c := Flush(e, s), e.cancel.check;
      && |r.sent| <= |s.sent| + |s.burst|
      && (r.raised ==> r.checks == s.checks)
      && (!r.raised ==> r.burst == [] && s.checks <= r.checks <= c + 1 && (r.checks > c ==> !r.ok))
  {
    SendBurstSpec(e.arbId, s.burst);
    if SendBurst(e.arbId, s.burst).1 {
      var c := e.cancel.check;
      var w0 := Window(s.pos, s.checks, [], false);
      ListenSpec(e.polls, s.pos, e.rxMs, e.cancel, w0);
      var w := Listen(e.polls, s.pos, e.rxMs, e.cancel, w0);
      var clear := s.checks + (w.pos - s.pos);
      if clear > c {
        assert s.checks <= c < clear && e.cancel.IsSet(c);
      }
    }
  }

  /** The burst loop keeps `Heeds`, and a loop that raised never read the flag set. */
  lemma {:induction false} HeedsSending(e: Env, combos: seq<seq<string>>, k: nat, s: St)
    requires e.cancel.From? && e.maxParallel >= 1
    requires k <= |combos| && s.pos <= |e.polls| && !s.raised && Heeds(e.cancel.check, s)
    ensures var r, c := Sending(e, combos, k, s), e.cancel.check;
      && (r.raised ==> !r.ok && |r.sent| <= c && r.checks <= c)
      && (!r.raised ==> |r.sent| + |r.burst| <= c && r.checks <= c + 2 && (r.checks > c ==> !r.ok)
                        && (r.ok ==> |r.sent| + |r.burst| <= r.checks))
    decreases |combos| - k
  {
    if k < |combos| && !e.cancel.IsSet(s.checks) {
      var s1 := s.(checks := s.checks + 1, burst := s.burst + [combos[k]]);
      if |s1.burst| < e.maxParallel {
        HeedsSending(e, combos, k + 1, s1);
      } else {
        FlushHeeds(e, s1);
        var s2 := Flush(e, s1);
        if !s2.raised {
          HeedsSending(e, combos, k + 1, s2);
        }
      }
    }
  }

  /**
   * Once the abort flag is set (from check `c` on), no new burst starts: no
   * more frames go out than checks read clear, a run that raised never read
   * the flag set, at most two checks follow the one that first reads it, a
   * run that has read it is not `ok`, and when the loop itself has read it
   * the last shorter burst is not sent, so only whole bursts went out.
   */
  lemma AbortStopsSending(e: Env, combos: seq<seq<string>>)
    requires e.cancel.From? && e.maxParallel >= 1
    ensures var r, s, c := SendAll(e, combos), Sending(e, combos, 0, START), e.cancel.check;
      && |r.sent| <= c
      && r.checks <= c + 2
      && (r.raised ==> r.checks <= c)
      && (r.checks > c ==> !r.ok)
      && (s.checks > c ==> r == s && Multiple(|r.sent|, e.maxParallel))
  {
    var s := Sending(e, combos, 0, START);
    HeedsSending(e, combos, 0, START);
    if s.ok && s.burst != [] {
      FlushHeeds(e, s);
      assert |s.sent| + |s.burst| <= e.cancel.check;
    } else if !s.raised {
      assert combos[..0] == [];
      SendingSpec(e, combos, 0, START);
      NoLastBurst(e, combos, s);
    }
  }

  /** On the page, with the abort flag set from check `c` on, at most `c` frames go out and at most `c` rows are logged. */
  lemma AbortedSendBound(req: Request, polls: seq<Poll>, c: nat)
    ensures var out := SendOutcome(req, polls, From(c));
      out.Done? ==> |out.sent| <= c && |out.rows| <= c
  {
    var out := SendOutcome(req, polls, From(c));
    if out.Done? && PyInt16(Core(req.canId)).Some? {
      var tt := Tokens(req.boxes).value;
      var e := Env(polls, From(c), PyInt16(Core(req.canId)).value, req.rxMs.value, MaxParallel(req.parallel.value));
      AbortStopsSending(e, FirstFastest(Choices(tt.0)));
      SendAllSpec(e, FirstFastest(Choices(tt.0)));
    }
  }

  /** With the abort flag already set at the first check, nothing is sent and the status is "aborted". */
  lemma AbortedAtStart(req: Request, polls: seq<Poll>)
    ensures SendOutcome(req, polls, From(0)).Done? ==> SendOutcome(req, polls, From(0)) == Done(Aborted, [], [])
  {
  }

  /** Without an abort, every buildable enumeration is sent completely and the status is OK. */
  lemma NoAbortCompletes(req: Request, polls: seq<Poll>)
    requires Core(req.canId) != [] && req.delayMs.Some? && req.rxMs.Some? && req.parallel.Some?
    requires Tokens(req.boxes).Success? && (Tokens(req.boxes).value.1 <= CONFIRM_ABOVE || req.confirmed)
    requires PyInt16(Core(req.canId)).Some?
    requires SendBurst(PyInt16(Core(req.canId)).value, FirstFastest(Choices(Tokens(req.boxes).value.0))).1
    ensures SendOutcome(req, polls, Never).Done? && SendOutcome(req, polls, Never).status == Completed
  {
    var tt := Tokens(req.boxes).value;
    var e := Env(polls, Never, PyInt16(Core(req.canId)).value, req.rxMs.value, MaxParallel(req.parallel.value));
    SendAllSpec(e, FirstFastest(Choices(tt.0)));
  }

  /** Only three or more wildcard fields make the test page ask for confirmation. */
  lemma DeclinedNeedsThreeWildcards(req: Request, polls: seq<Poll>, cancel: Cancel)
    ensures SendOutcome(req, polls, cancel) == Declined ==>
      Tokens(req.boxes).Success? && Wildcards(Tokens(req.boxes).value.0) >= 3 && !req.confirmed
  {
    if SendOutcome(req, polls, cancel) == Declined {
      TokensCount(req.boxes);
      ConfirmationThresholds(Wildcards(Tokens(req.boxes).value.0));
    }
  }

  // ----- the bmw.py sender -----

  lemma {:induction false} LegacySendingSpec(polls: seq<Poll>, arbId: int, rxMs: int, combos: seq<seq<string>>, k: nat, s: LegacySt)
    requires k <= |combos| && s.pos <= |polls| && !s.raised
    ensures var r := LegacySending(polls, arbId, rxMs, combos, k, s);
      r.sent == s.sent + SendBurst(arbId, combos[k..]).0 && r.raised == !SendBurst(arbId, combos[k..]).1
    decreases |combos| - k
  {
    if k < |combos| {
      assert combos[k..][0] == combos[k] && combos[k..][1..] == combos[k + 1..];
      if Encode(arbId, combos[k]).Some? {
        var w := Listen(polls, s.pos, rxMs, Never, Window(s.pos, 0, [], false));
        var f := Encode(arbId, combos[k]).value;
        LegacySendingSpec(polls, arbId, rxMs, combos, k + 1, s.(pos := w.pos, sent := s.sent + [f]));
      }
    } else {
      assert combos[k..] == [];
    }
  }

  /**
   * The `bmw.py` page sends one frame per combination in `itertools.product`
   * order up to the first one it cannot build, and reports OK iff there was none.
   */
  lemma LegacySendsProduct(req: LegacyRequest, polls: seq<Poll>)
    ensures var out := LegacyOutcome(req, polls);
      out.Done? && PyInt16(Core(req.canId)).Some? ==>
        var all := SendBurst(PyInt16(Core(req.canId)).value, Product(Choices(Tokens(req.boxes).value.0)));
        out.sent == all.0 && (out.status == Completed <==> all.1)
  {
    var out := LegacyOutcome(req, polls);
    if out.Done? && PyInt16(Core(req.canId)).Some? {
      var combos := Product(Choices(Tokens(req.boxes).value.0));
      assert combos[0..] == combos;
      LegacySendingSpec(polls, PyInt16(Core(req.canId)).value, req.rxMs.value, combos, 0, LegacySt(0, [], false));
    }
  }
}
