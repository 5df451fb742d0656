/**
 * The UDS table page's ReadDataByIdentifier client (`_recv_until` and
 * `_uds_read_by_identifier`): it takes the first frame from the response id
 * as the answer and raises on a wrong extended address, a negative answer or
 * an unknown PCI, and it stops reassembly once the payload exceeds 128 bytes.
 */
module UdsStrict {
  import opened Wrappers
  import opened Can

  /** The extended address every answer must carry. */
  const EA_RSP := 0xF1

  /** Every receive waits one second, in ticks. */
  const RECV_TIMEOUT := 1000

  /** Payload length after which reassembly stops. */
  const MAX_PAYLOAD := 128

  /** A profile of `UDS_PROFILES`: request id, response id and the extended address put before each request. */
  datatype StrictProfile = StrictProfile(txId: int, rxId: int, eaReq: byte)

  const LINKS := StrictProfile(0x06F1, 0x0643, 0x43)
  const RECHTS := StrictProfile(0x06F2, 0x0644, 0x44)

  /** The `RuntimeError`s the client raises. */
  datatype StrictError =
    | NoValidResponse   // "Keine gueltige UDS Antwort."
    | NegativeSf        // "Negative Antwort (SF)."
    | NegativeFf        // "Negative Antwort (FF)."
    | UnexpectedPci     // "Unerwartete PCI Art."

  /** What one read returns, the frames it sent, and the index of the first poll it left unread. */
  datatype StrictExchange = StrictExchange(result: Result<seq<byte>, StrictError>, sent: seq<Frame>, next: nat)

  /** What one `_recv_until` returns and the first poll it left unread. */
  datatype Recv = Recv(data: Option<seq<byte>>, next: nat)

  /** A frame's data right-padded with zeros to 8 bytes; longer data is kept whole. */
  function Pad8(data: seq<byte>): (r: seq<byte>)
    ensures |r| == Max(8, |data|)
    ensures r[..|data|] == data
    ensures forall k :: |data| <= k < |r| ==> r[k] == 0
  {
    if |data| < 8 then data + Zeros(8 - |data|) else data
  }

  /**
   * `_recv_until(bus, id)`: the first frame from `id` within the wait opened at
   * poll `open` (padded to 8 bytes), or None when the wait runs out.
   */
  function RecvUntil(polls: seq<Poll>, id: int, open: nat, i: nat): (r: Recv)
    requires open <= i <= |polls|
    ensures i <= r.next <= |polls|
    ensures r.data.Some? ==> r.next > i && |r.data.value| >= 8
    decreases |polls| - i
  {
    if i == |polls| || !InTime(polls, open, i, RECV_TIMEOUT) then Recv(None, i)
    else if FromId(polls, i, id) then Recv(Some(Pad8(polls[i].frame.value.data)), i + 1)
    else RecvUntil(polls, id, open, i + 1)
  }

  /** `_recv_until` as written: a polling loop, opened at poll `i`. */
  method RecvUntilLoop(polls: seq<Poll>, id: int, i: nat) returns (r: Recv)
    requires i <= |polls|
    ensures r == RecvUntil(polls, id, i, i)
  {
    var j := i;
    while j < |polls| && InTime(polls, i, j, RECV_TIMEOUT)
      invariant i <= j <= |polls|
      invariant RecvUntil(polls, id, i, j) == RecvUntil(polls, id, i, i)
      decreases |polls| - j
    {
      if FromId(polls, j, id) {
        var raw := polls[j].frame.value.data;
        if |raw| < 8 {
          raw := raw + Zeros(8 - |raw|);
        }
        return Recv(Some(raw), j + 1);
      }
      j := j + 1;
    }
    return Recv(None, j);
  }

  /** The request frame `[ea_req, 0x03, 0x22, did_hi, did_lo, 0, 0, 0]`. */
  function Request(p: StrictProfile, did: int): Frame {
    Frame(p.txId, [p.eaReq, 0x03, 0x22, Hi(did), Lo(did), 0, 0, 0])
  }

  /** The flow-control frame `[ea_req, 0x30, 0, 0, 0, 0, 0, 0]`. */
  function FlowControl(p: StrictProfile): Frame {
    Frame(p.txId, [p.eaReq, 0x30, 0, 0, 0, 0, 0, 0])
  }

  /** A received (padded) frame that continues a segmented answer. */
  predicate Continues(cf: Option<seq<byte>>)
    requires cf.Some? ==> |cf.value| >= 8
  {
    cf.Some? && cf.value[0] == EA_RSP && Pci(cf.value[1]) == 0x20
  }

  /**
   * The consecutive-frame loop from poll `i` with the payload so far `acc`:
   * each receive opens its own wait; stop at a timeout, a wrong extended
   * address or a non-consecutive PCI, or after appending once the payload is
   * longer than 128 bytes.
   */
  function Consecutive(polls: seq<Poll>, rxId: int, i: nat, acc: seq<byte>): (seq<byte>, nat)
    requires i <= |polls|
    decreases |polls| - i
  {
    var cf := RecvUntil(polls, rxId, i, i);
    if !Continues(cf.data) then (acc, cf.next)
    else if |acc + cf.data.value[2..]| > MAX_PAYLOAD then (acc + cf.data.value[2..], cf.next)
    else Consecutive(polls, rxId, cf.next, acc + cf.data.value[2..])
  }

  /** `_uds_read_by_identifier`: the request, the first answer, and its single-frame or first-frame handling. */
  function ReadByIdentifier(polls: seq<Poll>, p: StrictProfile, did: int): StrictExchange {
    var req := Request(p, did);
    var r := RecvUntil(polls, p.rxId, 0, 0);
    if r.data.None? || r.data.value[0] != EA_RSP then StrictExchange(Failure(NoValidResponse), [req], r.next)
    else
      var first := r.data.value;
      if Pci(first[1]) == 0x00 then
        if first[2] != 0x62 || first[3] != Hi(did) || first[4] != Lo(did) then
          StrictExchange(Failure(NegativeSf), [req], r.next)
        else StrictExchange(Success(first[5..Min(5 + first[1] % 16, |first|)]), [req], r.next)
      else if Pci(first[1]) == 0x10 then
        if first[3] != 0x62 || first[4] != Hi(did) || first[5] != Lo(did) then
          StrictExchange(Failure(NegativeFf), [req, FlowControl(p)], r.next)
        else
          var (payload, next) := Consecutive(polls, p.rxId, r.next, first[6..]);
          StrictExchange(Success(payload), [req, FlowControl(p)], next)
      else StrictExchange(Failure(UnexpectedPci), [req], r.next)
  }

  /** `_uds_read_by_identifier` as written, with its `while True` reassembly loop. */
  method UdsReadByIdentifier(polls: seq<Poll>, p: StrictProfile, did: int) returns (e: StrictExchange)
    ensures e == ReadByIdentifier(polls, p, did)
  {
    var sent := [Request(p, did)];
    var first := RecvUntilLoop(polls, p.rxId, 0);
    if first.data.None? || first.data.value[0] != EA_RSP {
      return StrictExchange(Failure(NoValidResponse), sent, first.next);
    }
    var f := first.data.value;
    var pci := Pci(f[1]);
    if pci == 0x00 {
      if f[2] != 0x62 || f[3] != Hi(did) || f[4] != Lo(did) {
        return StrictExchange(Failure(NegativeSf), sent, first.next);
      }
      var length := f[1] % 16;
      return StrictExchange(Success(f[5..Min(5 + length, |f|)]), sent, first.next);
    }
    if pci == 0x10 {
      sent := sent + [FlowControl(p)];
      if f[3] != 0x62 || f[4] != Hi(did) || f[5] != Lo(did) {
        return StrictExchange(Failure(NegativeFf), sent, first.next);
      }
      var payload := f[6..];
      var i := first.next;
      while true
        invariant i <= |polls|
        invariant Consecutive(polls, p.rxId, i, payload) == Consecutive(polls, p.rxId, first.next, f[6..])
        decreases |polls| - i
      {
        var cf := RecvUntilLoop(polls, p.rxId, i);
        if !Continues(cf.data) {
          i := cf.next;
          break;
        }
        payload := payload + cf.data.value[2..];
        i := cf.next;
        if |payload| > MAX_PAYLOAD {
          break;
        }
      }
      return StrictExchange(Success(payload), sent, i);
    }
    return StrictExchange(Failure(UnexpectedPci), sent, first.next);
  }

  // ----- properties -----

  /**
   * `_recv_until` returns the first frame from `id` within the wait, padded to
   * 8 bytes; every poll before it was in time and carried nothing from `id`;
   * it returns None exactly when the stream ends or the wait runs out first.
   */
  lemma {:induction false} RecvUntilScan(polls: seq<Poll>, id: int, open: nat, i: nat)
    requires open <= i <= |polls|
    ensures var r := RecvUntil(polls, id, open, i);
      && (forall j :: i <= j < r.next - (if r.data.Some? then 1 else 0) ==>
            InTime(polls, open, j, RECV_TIMEOUT) && !FromId(polls, j, id))
      && (r.data.None? ==> r.next == |polls| || !InTime(polls, open, r.next, RECV_TIMEOUT))
      && (r.data.Some? ==>
            && FromId(polls, r.next - 1, id)
            && InTime(polls, open, r.next - 1, RECV_TIMEOUT)
            && r.data.value == Pad8(polls[r.next - 1].frame.value.data))
    decreases |polls| - i
  {
    if i < |polls| && InTime(polls, open, i, RECV_TIMEOUT) && !FromId(polls, i, id) {
      RecvUntilScan(polls, id, open, i + 1);
    }
  }

  /** The request always goes out first; the flow control follows exactly when the first answer is a first frame with our address. */
  lemma {:induction false} FlowControlBeforeDidCheck(polls: seq<Poll>, p: StrictProfile, did: int)
    ensures var e := ReadByIdentifier(polls, p, did);
      var r := RecvUntil(polls, p.rxId, 0, 0);
      && e.sent[0] == Request(p, did)
      && (e.sent == [Request(p, did), FlowControl(p)] <==>
            r.data.Some? && r.data.value[0] == EA_RSP && Pci(r.data.value[1]) == 0x10)
      && (e.result == Failure(NegativeFf) ==> e.sent == [Request(p, did), FlowControl(p)])
  {
  }

  /**
   * The error cases: no answer or a wrong extended address give
   * NoValidResponse, and every PCI other than single and first frame (a
   * consecutive frame 0x2N included) gives UnexpectedPci.
   */
  lemma {:induction false} StrictErrors(polls: seq<Poll>, p: StrictProfile, did: int)
    ensures var e := ReadByIdentifier(polls, p, did);
      var r := RecvUntil(polls, p.rxId, 0, 0);
      && (e.result == Failure(NoValidResponse) <==> r.data.None? || r.data.value[0] != EA_RSP)
      && (e.result == Failure(UnexpectedPci) <==>
            r.data.Some? && r.data.value[0] == EA_RSP && Pci(r.data.value[1]) != 0x00 && Pci(r.data.value[1]) != 0x10)
  {
  }

  /** A single-frame answer in a classic (at most 8-byte) frame carries at most 3 payload bytes. */
  lemma {:induction false} SingleFramePayloadBound(polls: seq<Poll>, p: StrictProfile, did: int)
    requires forall j :: 0 <= j < |polls| && polls[j].frame.Some? ==> |polls[j].frame.value.data| <= 8
    ensures var e := ReadByIdentifier(polls, p, did);
      var r := RecvUntil(polls, p.rxId, 0, 0);
      r.data.Some? && Pci(r.data.value[1]) == 0x00 && e.result.Success? ==> |e.result.value| <= 3
  {
    var r := RecvUntil(polls, p.rxId, 0, 0);
    RecvUntilScan(polls, p.rxId, 0, 0);
    if r.data.Some? {
      assert |r.data.value| == 8;
    }
  }

  /**
   * With classic 8-byte frames each consecutive frame adds 6 bytes, so the
   * reassembled payload stops at no more than 134 bytes and keeps the length
   * 2 + 6k it started with.
   */
  lemma {:induction false} ConsecutiveBound(polls: seq<Poll>, rxId: int, i: nat, acc: seq<byte>)
    requires i <= |polls|
    requires forall j :: 0 <= j < |polls| && polls[j].frame.Some? ==> |polls[j].frame.value.data| <= 8
    requires |acc| <= MAX_PAYLOAD && |acc| % 6 == 2
    ensures |Consecutive(polls, rxId, i, acc).0| <= MAX_PAYLOAD + 6
    ensures |Consecutive(polls, rxId, i, acc).0| % 6 == 2
    decreases |polls| - i
  {
    var cf := RecvUntil(polls, rxId, i, i);
    RecvUntilScan(polls, rxId, i, i);
    if Continues(cf.data) {
      assert |cf.data.value| == 8;
      var acc' := acc + cf.data.value[2..];
      if |acc'| <= MAX_PAYLOAD {
        ConsecutiveBound(polls, rxId, cf.next, acc');
      }
    }
  }

  /** A successful first-frame read over classic frames returns at most 134 bytes, 2 + 6k of them. */
  lemma {:induction false} FirstFramePayloadBound(polls: seq<Poll>, p: StrictProfile, did: int)
    requires forall j :: 0 <= j < |polls| && polls[j].frame.Some? ==> |polls[j].frame.value.data| <= 8
    ensures var e := ReadByIdentifier(polls, p, did);
      var r := RecvUntil(polls, p.rxId, 0, 0);
      r.data.Some? && Pci(r.data.value[1]) == 0x10 && e.result.Success? ==>
        |e.result.value| <= MAX_PAYLOAD + 6 && |e.result.value| % 6 == 2
  {
    var r := RecvUntil(polls, p.rxId, 0, 0);
    RecvUntilScan(polls, p.rxId, 0, 0);
    if r.data.Some? && r.data.value[0] == EA_RSP && Pci(r.data.value[1]) == 0x10 {
      assert |r.data.value| == 8;
      ConsecutiveBound(polls, p.rxId, r.next, r.data.value[6..]);
    }
  }

  // ----- reassembly, described without the loop -----

  /** The wait open when poll `j` is examined: each `_recv_until` opens at `s` or just after the last frame from `rxId`. */
  function RecvOpen(polls: seq<Poll>, rxId: int, s: nat, j: nat): (o: nat)
    requires s <= j <= |polls|
    ensures s <= o <= j
    decreases j
  {
    if j == s then s
    else if FromId(polls, j - 1, rxId) then j
    else RecvOpen(polls, rxId, s, j - 1)
  }

  /** `cf[2:]` of every (padded) frame from `rxId` among polls `lo` to `hi`, in arrival order. */
  function CfChunks(polls: seq<Poll>, rxId: int, lo: nat, hi: nat): seq<byte>
    requires lo <= hi <= |polls|
    decreases hi - lo
  {
    if lo == hi then []
    else (if FromId(polls, lo, rxId) then Pad8(polls[lo].frame.value.data)[2..] else []) + CfChunks(polls, rxId, lo + 1, hi)
  }

  /**
   * Reassembly from poll `i` with `acc` collected ends at poll `end` with
   * result `r`: the payload is `acc` followed by `cf[2:]` of every frame from
   * the response id before `end`; every poll before `end` was in time for the
   * wait opened after the previous such frame; each such frame carried our
   * address and a consecutive-frame PCI, and each but the last left the
   * payload at most 128 bytes long.  It stopped because the last append took
   * the payload past 128 bytes, or because the frame at `end` has another
   * address or PCI (it is consumed), or because the stream ended or the wait
   * ran out at `end`.
   */
  ghost predicate Reassembly(polls: seq<Poll>, rxId: int, i: nat, acc: seq<byte>, end: nat, r: (seq<byte>, nat)) {
    && i <= end <= |polls|
    && r.0 == acc + CfChunks(polls, rxId, i, end)
    && (forall j :: i <= j < end ==> InTime(polls, RecvOpen(polls, rxId, i, j), j, RECV_TIMEOUT))
    && (forall j :: i <= j < end && FromId(polls, j, rxId) ==> Continues(Some(Pad8(polls[j].frame.value.data))))
    && (forall j :: i <= j < end - 1 && FromId(polls, j, rxId) ==> |acc + CfChunks(polls, rxId, i, j + 1)| <= MAX_PAYLOAD)
    && var over := end > i && FromId(polls, end - 1, rxId) && |r.0| > MAX_PAYLOAD;
    && var stop := end < |polls| && InTime(polls, RecvOpen(polls, rxId, i, end), end, RECV_TIMEOUT)
                   && FromId(polls, end, rxId) && !Continues(Some(Pad8(polls[end].frame.value.data)));
    && (over || stop || end == |polls| || !InTime(polls, RecvOpen(polls, rxId, i, end), end, RECV_TIMEOUT))
    && r.1 == (if stop && !over then end + 1 else end)
  }

  /** Polls with no frame from `rxId` add no chunk. */
  lemma {:induction false} ChunksQuiet(polls: seq<Poll>, rxId: int, i: nat, k: nat, x: nat)
    requires i <= k <= x <= |polls|
    requires forall j :: i <= j < k ==> !FromId(polls, j, rxId)
    ensures CfChunks(polls, rxId, i, x) == CfChunks(polls, rxId, k, x)
    decreases k - i
  {
    if i < k {
      ChunksQuiet(polls, rxId, i + 1, k, x);
    }
  }

  /** While no frame from `rxId` arrived, the first wait is still open. */
  lemma {:induction false} OpenQuiet(polls: seq<Poll>, rxId: int, i: nat, j: nat)
    requires i <= j <= |polls|
    requires forall m :: i <= m < j ==> !FromId(polls, m, rxId)
    ensures RecvOpen(polls, rxId, i, j) == i
    decreases j
  {
    if j > i {
      OpenQuiet(polls, rxId, i, j - 1);
    }
  }

  /** After a frame from `rxId` at `k`, the waits are those of a reassembly started at `k + 1`. */
  lemma {:induction false} OpenAfter(polls: seq<Poll>, rxId: int, i: nat, k: nat, j: nat)
    requires i <= k < j <= |polls| && FromId(polls, k, rxId)
    ensures RecvOpen(polls, rxId, i, j) == RecvOpen(polls, rxId, k + 1, j)
    decreases j
  {
    if j > k + 1 && !FromId(polls, j - 1, rxId) {
      OpenAfter(polls, rxId, i, k, j - 1);
    }
  }

  /** The consecutive-frame loop ends as `Reassembly` says. */
  lemma {:induction false} ConsecutiveSpec(polls: seq<Poll>, rxId: int, i: nat, acc: seq<byte>) returns (end: nat)
    requires i <= |polls|
    ensures Reassembly(polls, rxId, i, acc, end, Consecutive(polls, rxId, i, acc))
    decreases |polls| - i
  {
    var cf := RecvUntil(polls, rxId, i, i);
    RecvUntilScan(polls, rxId, i, i);
    var k := if cf.data.Some? then cf.next - 1 else cf.next;
    forall j | i <= j <= k
      ensures RecvOpen(polls, rxId, i, j) == i
    {
      OpenQuiet(polls, rxId, i, j);
    }
    ChunksQuiet(polls, rxId, i, k, k);
    assert CfChunks(polls, rxId, k, k) == [];
    if !Continues(cf.data) {
      end := k;
    } else {
      var chunk := Pad8(polls[k].frame.value.data)[2..];
      ChunksQuiet(polls, rxId, i, k, k + 1);
      assert CfChunks(polls, rxId, i, k + 1) == chunk + CfChunks(polls, rxId, k + 1, k + 1);
      if |acc + chunk| > MAX_PAYLOAD {
        end := k + 1;
      } else {
        end := ConsecutiveSpec(polls, rxId, k + 1, acc + chunk);
        ConsecutiveStep(polls, rxId, i, k, acc, end, Consecutive(polls, rxId, i, acc));
      }
    }
  }

  /** A continuing frame at `k` after quiet polls, with the payload still at most 128 bytes: reassembly goes on at `k + 1`. */
  lemma ConsecutiveStep(polls: seq<Poll>, rxId: int, i: nat, k: nat, acc: seq<byte>, end: nat, r: (seq<byte>, nat))
    requires i <= k < |polls| && FromId(polls, k, rxId) && Continues(Some(Pad8(polls[k].frame.value.data)))
    requires forall j :: i <= j < k ==> !FromId(polls, j, rxId)
    requires forall j :: i <= j <= k ==> InTime(polls, i, j, RECV_TIMEOUT)
    requires var chunk := Pad8(polls[k].frame.value.data)[2..];
      |acc + chunk| <= MAX_PAYLOAD && Reassembly(polls, rxId, k + 1, acc + chunk, end, r)
    ensures Reassembly(polls, rxId, i, acc, end, r)
  {
    var chunk := Pad8(polls[k].frame.value.data)[2..];
    StepWaits(polls, rxId, i, k, k + 1, end);
    StepChunks(polls, rxId, i, k, acc, end);
    assert acc + CfChunks(polls, rxId, i, end) == (acc + chunk) + CfChunks(polls, rxId, k + 1, end);
  }

  /** The waits of a reassembly from `i` are those of one from `n`, just after `k`, once the frame at `k` has arrived. */
  lemma StepWaits(polls: seq<Poll>, rxId: int, i: nat, k: nat, n: nat, end: nat)
    requires n == k + 1 && i <= k < end <= |polls| && FromId(polls, k, rxId)
    requires forall j :: i <= j < k ==> !FromId(polls, j, rxId)
    requires forall j :: i <= j <= k ==> InTime(polls, i, j, RECV_TIMEOUT)
    requires forall j :: n <= j < end ==> InTime(polls, RecvOpen(polls, rxId, n, j), j, RECV_TIMEOUT)
    ensures forall j :: i <= j < end ==> InTime(polls, RecvOpen(polls, rxId, i, j), j, RECV_TIMEOUT)
    ensures RecvOpen(polls, rxId, i, end) == RecvOpen(polls, rxId, n, end)
  {
    forall j | i <= j <= end
      ensures RecvOpen(polls, rxId, i, j) == (if j <= k then i else RecvOpen(polls, rxId, n, j))
    {
      if j <= k {
        OpenQuiet(polls, rxId, i, j);
      } else {
        OpenAfter(polls, rxId, i, k, j);
      }
    }
  }

  /** The chunks of a reassembly from `i` are the frame at `k`'s followed by those from `k + 1`; the length bound carries over. */
  lemma StepChunks(polls: seq<Poll>, rxId: int, i: nat, k: nat, acc: seq<byte>, end: nat)
    requires i <= k < end <= |polls| && FromId(polls, k, rxId)
    requires forall j :: i <= j < k ==> !FromId(polls, j, rxId)
    requires var chunk := Pad8(polls[k].frame.value.data)[2..];
      && |acc + chunk| <= MAX_PAYLOAD
      && forall j :: k + 1 <= j < end - 1 && FromId(polls, j, rxId) ==>
           |acc + chunk + CfChunks(polls, rxId, k + 1, j + 1)| <= MAX_PAYLOAD
    ensures forall x :: k + 1 <= x <= end ==>
      CfChunks(polls, rxId, i, x) == Pad8(polls[k].frame.value.data)[2..] + CfChunks(polls, rxId, k + 1, x)
    ensures forall j :: i <= j < end - 1 && FromId(polls, j, rxId) ==> |acc + CfChunks(polls, rxId, i, j + 1)| <= MAX_PAYLOAD
  {
    var chunk := Pad8(polls[k].frame.value.data)[2..];
    forall x | k + 1 <= x <= end
      ensures CfChunks(polls, rxId, i, x) == chunk + CfChunks(polls, rxId, k + 1, x)
    {
      ChunksQuiet(polls, rxId, i, k, x);
    }
    forall j | i <= j < end - 1 && FromId(polls, j, rxId)
      ensures |acc + CfChunks(polls, rxId, i, j + 1)| <= MAX_PAYLOAD
    {
      if j > k {
        assert acc + CfChunks(polls, rxId, i, j + 1) == (acc + chunk) + CfChunks(polls, rxId, k + 1, j + 1);
      } else {
        assert j == k;
        assert CfChunks(polls, rxId, k + 1, k + 1) == [];
      }
    }
  }

  /**
   * A single-frame answer with our address: `NegativeSf` exactly when it does
   * not echo `62 did_hi did_lo`; otherwise the payload is the `L` bytes after
   * the echo (L the low nibble of the PCI byte), cut at the end of the padded
   * frame.  Only the request is sent.
   */
  lemma SingleFrameRead(polls: seq<Poll>, p: StrictProfile, did: int)
    requires var r := RecvUntil(polls, p.rxId, 0, 0);
      r.data.Some? && r.data.value[0] == EA_RSP && Pci(r.data.value[1]) == 0x00
    ensures var r := RecvUntil(polls, p.rxId, 0, 0);
      var first, e := r.data.value, ReadByIdentifier(polls, p, did);
      && e.sent == [Request(p, did)] && e.next == r.next
      && (e.result == Failure(NegativeSf) <==> first[2..5] != [0x62, Hi(did), Lo(did)])
      && (first[2..5] == [0x62, Hi(did), Lo(did)] ==>
            && e.result.Success?
            && |e.result.value| == Min(first[1] % 16, |first| - 5)
            && e.result.value == first[5..5 + |e.result.value|])
  {
    RecvUntilScan(polls, p.rxId, 0, 0);
    var first := RecvUntil(polls, p.rxId, 0, 0).data.value;
    assert first[2..5] == [first[2], first[3], first[4]];
  }

  /**
   * A first-frame answer with our address: one flow control follows the
   * request whatever the DID echo; `NegativeFf` exactly when it does not echo
   * `62 did_hi did_lo`; otherwise the payload is `first[6:]` followed by
   * `cf[2:]` of each consecutive frame, reassembled as `Reassembly` says.
   */
  lemma FirstFrameRead(polls: seq<Poll>, p: StrictProfile, did: int) returns (end: nat)
    requires var r := RecvUntil(polls, p.rxId, 0, 0);
      r.data.Some? && r.data.value[0] == EA_RSP && Pci(r.data.value[1]) == 0x10
    ensures var r := RecvUntil(polls, p.rxId, 0, 0);
      var first, e := r.data.value, ReadByIdentifier(polls, p, did);
      && e.sent == [Request(p, did), FlowControl(p)]
      && (e.result == Failure(NegativeFf) <==> first[3..6] != [0x62, Hi(did), Lo(did)])
      && (first[3..6] == [0x62, Hi(did), Lo(did)] ==>
            e.result.Success? && Reassembly(polls, p.rxId, r.next, first[6..], end, (e.result.value, e.next)))
  {
    RecvUntilScan(polls, p.rxId, 0, 0);
    var r := RecvUntil(polls, p.rxId, 0, 0);
    var first := r.data.value;
    assert first[3..6] == [first[3], first[4], first[5]];
    end := ConsecutiveSpec(polls, p.rxId, r.next, first[6..]);
  }
}
