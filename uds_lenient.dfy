/**
 * The trigger finder's UDS ReadDataByIdentifier client (`uds_read_by_id`):
 * service 0x22 of ISO 14229-1 over ISO 15765-2 segmentation with extended
 * addressing.  It skips every frame that is not an answer it recognises until
 * its wait runs out, and restarts the consecutive-frame wait after each
 * consecutive frame.
 */
module UdsLenient {
  import opened Wrappers
  import opened Can

  /** A left/right headlight profile: request id, response id and the two extended addresses. */
  datatype Profile = Profile(txId: int, rxId: int, eaReq: byte, eaRsp: int)

  const LINKS := Profile(0x06F1, 0x0643, 0x43, 0xF1)
  const RECHTS := Profile(0x06F2, 0x0644, 0x44, 0xF1)

  /** The default wait of one second, in ticks. */
  const DEFAULT_TIMEOUT := 1000

  /** `TimeoutError` raised when no answer to the request for `did` arrived in time. */
  datatype UdsError = Timeout(did: int)

  /** What one read returns, the frames it sent, and the index of the first poll it left unread. */
  datatype Exchange = Exchange(result: Result<seq<byte>, UdsError>, sent: seq<Frame>, next: nat)

  /** The single-frame request `[ea_req, 0x03, 0x22, did_h, did_l, 0, 0, 0]`. */
  function Request(p: Profile, did: int): Frame {
    Frame(p.txId, [p.eaReq, 0x03, 0x22, Hi(did), Lo(did), 0, 0, 0])
  }

  /** The flow-control frame `[ea_req, 0x30, 0, 0, 0, 0, 0, 0]` (continue to send, no block limit, no gap). */
  function FlowControl(p: Profile): Frame {
    Frame(p.txId, [p.eaReq, 0x30, 0, 0, 0, 0, 0, 0])
  }

  /** A frame the client looks at: from the response id, at least 2 bytes, addressed to us. */
  predicate Accepted(p: Profile, f: Frame) {
    f.id == p.rxId && |f.data| >= 2 && f.data[0] == p.eaRsp
  }

  /** A positive single-frame answer for `did`: `[ea_rsp, 0x0L, 0x62, did_h, did_l, ...]`. */
  predicate IsSfReply(p: Profile, did: int, f: Frame) {
    Accepted(p, f) && Pci(f.data[1]) == 0x00 && |f.data| >= 5
    && f.data[2] == 0x62 && f.data[3] == Hi(did) && f.data[4] == Lo(did)
  }

  /** A positive first-frame answer for `did`: `[ea_rsp, 0x1L, len, 0x62, did_h, did_l, ...]`. */
  predicate IsFfReply(p: Profile, did: int, f: Frame) {
    Accepted(p, f) && Pci(f.data[1]) == 0x10 && |f.data| >= 6
    && f.data[3] == 0x62 && f.data[4] == Hi(did) && f.data[5] == Lo(did)
  }

  /** A poll that ends the search for an answer. */
  predicate IsReply(p: Profile, did: int, po: Poll) {
    po.frame.Some? && (IsSfReply(p, did, po.frame.value) || IsFfReply(p, did, po.frame.value))
  }

  /** An accepted consecutive frame (PCI 0x2N). */
  predicate IsCf(p: Profile, po: Poll) {
    po.frame.Some? && Accepted(p, po.frame.value) && Pci(po.frame.value.data[1]) == 0x20
  }

  /** An accepted frame that is not a consecutive frame: it ends reassembly. */
  predicate IsStop(p: Profile, po: Poll) {
    po.frame.Some? && Accepted(p, po.frame.value) && Pci(po.frame.value.data[1]) != 0x20
  }

  /** `data[5:5+L]` with L the low nibble of `data[1]` (a Python slice, so cut at the frame's end). */
  function SfPayload(f: Frame): seq<byte>
    requires |f.data| >= 5
  {
    f.data[5..Min(5 + f.data[1] % 16, |f.data|)]
  }

  // ----- the specification of the two waits -----

  /**
   * The reassembly wait: from poll `i`, within `timeout` of poll `open`, append
   * each accepted consecutive frame's `data[2:]` (reopening the wait at the
   * poll after it) and stop at the first accepted other frame or when the wait
   * runs out.  Returns the payload and the first unread poll.
   */
  function Collect(polls: seq<Poll>, p: Profile, timeout: int, open: nat, i: nat, acc: seq<byte>): (seq<byte>, nat)
    requires open <= i <= |polls|
    decreases |polls| - i
  {
    if i == |polls| || !InTime(polls, open, i, timeout) then (acc, i)
    else if IsCf(p, polls[i]) then Collect(polls, p, timeout, i + 1, i + 1, acc + polls[i].frame.value.data[2..])
    else if IsStop(p, polls[i]) then (acc, i + 1)
    else Collect(polls, p, timeout, open, i + 1, acc)
  }

  /** The answer wait, opened at poll `start` and resumed at poll `i`. */
  function Await(polls: seq<Poll>, p: Profile, did: int, timeout: int, start: nat, i: nat): Exchange
    requires start <= i <= |polls|
    decreases |polls| - i
  {
    if i == |polls| || !InTime(polls, start, i, timeout) then Exchange(Failure(Timeout(did)), [], i)
    else if !IsReply(p, did, polls[i]) then Await(polls, p, did, timeout, start, i + 1)
    else
      var f := polls[i].frame.value;
      if IsSfReply(p, did, f) then Exchange(Success(SfPayload(f)), [], i + 1)
      else
        var (payload, next) := Collect(polls, p, timeout, i + 1, i + 1, f.data[6..]);
        Exchange(Success(payload), [FlowControl(p)], next)
  }

  /** `uds_read_by_id`: send the request, then wait for the answer from the first poll on. */
  function ReadById(polls: seq<Poll>, p: Profile, did: int, timeout: int): Exchange {
    var a := Await(polls, p, did, timeout, 0, 0);
    Exchange(a.result, [Request(p, did)] + a.sent, a.next)
  }

  // ----- calling `uds_read_by_id(api, did, **profile)` -----

  /** A keyword-argument dictionary, as `**profile` passes it. */
  type Kwargs = map<string, int>

  /** The arguments bound from the keywords: the profile and the wait in ticks. */
  datatype ReadArgs = ReadArgs(profile: Profile, timeout: int)

  /** The keyword-only parameters `uds_read_by_id` has no default for. */
  const READ_KEYWORDS: set<string> := {"tx_id", "rx_id", "ea_req", "ea_rsp"}

  /**
   * Binding `**kw` to `uds_read_by_id`'s keyword-only parameters; None is the
   * `TypeError` Python raises for an unexpected or a missing keyword.  The
   * optional `timeout` is in seconds, and `ea_req` only ever reaches a frame
   * through a ctypes byte, which keeps its low 8 bits.
   */
  function BindReadArgs(kw: Kwargs): Option<ReadArgs> {
    if READ_KEYWORDS <= kw.Keys && kw.Keys <= READ_KEYWORDS + {"timeout"} then
      Some(ReadArgs(Profile(kw["tx_id"], kw["rx_id"], kw["ea_req"] % 256, kw["ea_rsp"]),
                    if "timeout" in kw then kw["timeout"] * 1000 else DEFAULT_TIMEOUT))
    else None
  }

  /** `PROFILES` as the trigger finder writes it, with upper-case keys. */
  const PROFILES_AS_WRITTEN: map<string, Kwargs> := map[
    "links" := map["TX_ID" := 0x06F1, "RX_ID" := 0x0643, "EA_REQ" := 0x43, "EA_RSP" := 0xF1],
    "rechts" := map["TX_ID" := 0x06F2, "RX_ID" := 0x0644, "EA_REQ" := 0x44, "EA_RSP" := 0xF1]]

  /** `PROFILES` spelled with the keywords `uds_read_by_id` takes. */
  const PROFILES: map<string, Kwargs> := map[
    "links" := map["tx_id" := 0x06F1, "rx_id" := 0x0643, "ea_req" := 0x43, "ea_rsp" := 0xF1],
    "rechts" := map["tx_id" := 0x06F2, "rx_id" := 0x0644, "ea_req" := 0x44, "ea_rsp" := 0xF1]]

  /** No profile of the table as written binds: `**profile` raises `TypeError` before the request is sent. */
  lemma ProfilesAsWrittenDoNotBind(name: string)
    requires name in PROFILES_AS_WRITTEN
    ensures BindReadArgs(PROFILES_AS_WRITTEN[name]) == None
  {
    assert "TX_ID" in PROFILES_AS_WRITTEN[name];
    assert "TX_ID" !in READ_KEYWORDS + {"timeout"};
  }

  /** The table with lower-case keywords names the same profiles, and each binds to its ids and the one-second wait. */
  lemma ProfilesBind()
    ensures PROFILES.Keys == PROFILES_AS_WRITTEN.Keys
    ensures BindReadArgs(PROFILES["links"]) == Some(ReadArgs(LINKS, DEFAULT_TIMEOUT))
    ensures BindReadArgs(PROFILES["rechts"]) == Some(ReadArgs(RECHTS, DEFAULT_TIMEOUT))
  {
    assert PROFILES["links"].Keys == READ_KEYWORDS;
    assert PROFILES["rechts"].Keys == READ_KEYWORDS;
  }

  /** `uds_read_by_id` as the source writes it: two nested polling loops. */
  method UdsReadById(polls: seq<Poll>, p: Profile, did: int, timeout: int) returns (e: Exchange)
    ensures e == ReadById(polls, p, did, timeout)
  {
    var sent := [Request(p, did)];
    var i := 0;
    while i < |polls| && InTime(polls, 0, i, timeout)
      invariant 0 <= i <= |polls|
      invariant Await(polls, p, did, timeout, 0, i) == Await(polls, p, did, timeout, 0, 0)
      decreases |polls| - i
    {
      var po := polls[i];
      if po.frame.Some? && IsSfReply(p, did, po.frame.value) {
        return Exchange(Success(SfPayload(po.frame.value)), sent, i + 1);
      }
      if po.frame.Some? && IsFfReply(p, did, po.frame.value) {
        sent := sent + [FlowControl(p)];
        var payload := po.frame.value.data[6..];
        ghost var start := i + 1;
        i := i + 1;
        var open := i;
        while i < |polls| && InTime(polls, open, i, timeout)
          invariant start <= open <= i <= |polls|
          invariant Collect(polls, p, timeout, open, i, payload) == Collect(polls, p, timeout, start, start, po.frame.value.data[6..])
          decreases |polls| - i
        {
          var q := polls[i];
          i := i + 1;
          if q.frame.Some? && Accepted(p, q.frame.value) {
            if Pci(q.frame.value.data[1]) == 0x20 {
              payload := payload + q.frame.value.data[2..];
              open := i;
            } else {
              break;
            }
          }
        }
        return Exchange(Success(payload), sent, i);
      }
      i := i + 1;
    }
    return Exchange(Failure(Timeout(did)), sent, i);
  }

  // ----- properties -----

  /**
   * The answer search is a scan for the first reply: every poll before the
   * stopping poll `k` was in time and no reply; at `k` either the wait ran out
   * (Timeout, nothing more sent) or a reply arrived: a single frame answers
   * with its `data[5:5+L]`, a first frame sends one flow control and hands
   * over to reassembly starting with its `data[6:]`.
   */
  lemma {:induction false} AwaitScan(polls: seq<Poll>, p: Profile, did: int, timeout: int, start: nat, i: nat)
    returns (k: nat)
    requires start <= i <= |polls|
    ensures i <= k <= |polls|
    ensures forall j :: i <= j < k ==> InTime(polls, start, j, timeout) && !IsReply(p, did, polls[j])
    ensures var a := Await(polls, p, did, timeout, start, i);
      if k < |polls| && InTime(polls, start, k, timeout) && IsReply(p, did, polls[k]) then
        var f := polls[k].frame.value;
        if IsSfReply(p, did, f) then a == Exchange(Success(SfPayload(f)), [], k + 1)
        else
          var c := Collect(polls, p, timeout, k + 1, k + 1, f.data[6..]);
          a == Exchange(Success(c.0), [FlowControl(p)], c.1)
      else a == Exchange(Failure(Timeout(did)), [], k)
    decreases |polls| - i
  {
    if i == |polls| || !InTime(polls, start, i, timeout) || IsReply(p, did, polls[i]) {
      k := i;
    } else {
      k := AwaitScan(polls, p, did, timeout, start, i + 1);
    }
  }

  /** The request goes out first, and at most a flow control follows it, only on a successful read. */
  lemma {:induction false} ReadByIdSends(polls: seq<Poll>, p: Profile, did: int, timeout: int)
    ensures var e := ReadById(polls, p, did, timeout);
      && (e.sent == [Request(p, did)] || e.sent == [Request(p, did), FlowControl(p)])
      && (|e.sent| == 2 ==> e.result.Success?)
      && e.next <= |polls|
  {
    var k := AwaitScan(polls, p, did, timeout, 0, 0);
    if k < |polls| && InTime(polls, 0, k, timeout) && IsReply(p, did, polls[k]) {
      var f := polls[k].frame.value;
      if !IsSfReply(p, did, f) {
        CollectAdvances(polls, p, timeout, k + 1, k + 1, f.data[6..]);
      }
    }
  }

  /** Reassembly reads at least one poll beyond its start unless it stops at once, and never runs past the stream. */
  lemma {:induction false} CollectAdvances(polls: seq<Poll>, p: Profile, timeout: int, open: nat, i: nat, acc: seq<byte>)
    requires open <= i <= |polls|
    ensures i <= Collect(polls, p, timeout, open, i, acc).1 <= |polls|
    decreases |polls| - i
  {
    if i < |polls| && InTime(polls, open, i, timeout) {
      if IsCf(p, polls[i]) {
        CollectAdvances(polls, p, timeout, i + 1, i + 1, acc + polls[i].frame.value.data[2..]);
      } else if !IsStop(p, polls[i]) {
        CollectAdvances(polls, p, timeout, open, i + 1, acc);
      }
    }
  }

  // ----- reassembly, described without the loop -----

  /** The wait that is open when poll `j` is examined: it opened at `s`, or just after the last consecutive frame before `j`. */
  function LastOpen(polls: seq<Poll>, p: Profile, s: nat, j: nat): (o: nat)
    requires s <= j <= |polls|
    ensures s <= o <= j
    decreases j
  {
    if j == s then s
    else if IsCf(p, polls[j - 1]) then j
    else LastOpen(polls, p, s, j - 1)
  }

  /** The `data[2:]` of every accepted consecutive frame among polls `lo` to `hi`, in arrival order. */
  function Chunks(polls: seq<Poll>, p: Profile, lo: nat, hi: nat): seq<byte>
    requires lo <= hi <= |polls|
    decreases hi - lo
  {
    if lo == hi then []
    else (if IsCf(p, polls[lo]) then polls[lo].frame.value.data[2..] else []) + Chunks(polls, p, lo + 1, hi)
  }

  /**
   * Reassembly from poll `i` of a wait opened at `s`, with `acc` collected so
   * far, ends at a poll `end`: the payload is `acc` followed by the
   * consecutive frames' `data[2:]` before `end`; every poll before `end` was
   * within `timeout` of the poll after the latest consecutive frame (the wait
   * restarts after each one) and was no accepted non-consecutive frame; at
   * `end` the stream ended, the wait ran out, or an accepted non-consecutive
   * frame arrived (and was consumed).
   */
  ghost predicate Reassembled(polls: seq<Poll>, p: Profile, timeout: int, s: nat, i: nat, acc: seq<byte>, end: nat) {
    && s <= i <= end <= |polls|
    && var r := Collect(polls, p, timeout, LastOpen(polls, p, s, i), i, acc);
    && r.0 == acc + Chunks(polls, p, i, end)
    && (forall j :: i <= j < end ==> InTime(polls, LastOpen(polls, p, s, j), j, timeout) && !IsStop(p, polls[j]))
    && var stop := end < |polls| && InTime(polls, LastOpen(polls, p, s, end), end, timeout) && IsStop(p, polls[end]);
    && (end == |polls| || !InTime(polls, LastOpen(polls, p, s, end), end, timeout) || stop)
    && r.1 == (if stop then end + 1 else end)
  }

  /** Reassembly from any poll ends as `Reassembled` says. */
  lemma {:induction false} CollectSpec(polls: seq<Poll>, p: Profile, timeout: int, s: nat, i: nat, acc: seq<byte>)
    returns (end: nat)
    requires s <= i <= |polls|
    ensures Reassembled(polls, p, timeout, s, i, acc, end)
    decreases |polls| - i
  {
    var open := LastOpen(polls, p, s, i);
    if i == |polls| || !InTime(polls, open, i, timeout) || IsStop(p, polls[i]) {
      end := i;
    } else if IsCf(p, polls[i]) {
      var chunk := polls[i].frame.value.data[2..];
      end := CollectSpec(polls, p, timeout, s, i + 1, acc + chunk);
      CfStep(polls, p, timeout, s, i, acc, end);
    } else {
      end := CollectSpec(polls, p, timeout, s, i + 1, acc);
      OtherStep(polls, p, timeout, s, i, acc, end);
    }
  }

  /** An accepted consecutive frame in time: its `data[2:]` is collected and the wait restarts. */
  lemma CfStep(polls: seq<Poll>, p: Profile, timeout: int, s: nat, i: nat, acc: seq<byte>, end: nat)
    requires s <= i < |polls| && InTime(polls, LastOpen(polls, p, s, i), i, timeout) && IsCf(p, polls[i])
    requires Reassembled(polls, p, timeout, s, i + 1, acc + polls[i].frame.value.data[2..], end)
    ensures Reassembled(polls, p, timeout, s, i, acc, end)
  {
    var chunk := polls[i].frame.value.data[2..];
    assert LastOpen(polls, p, s, i + 1) == i + 1;
    assert Chunks(polls, p, i, end) == chunk + Chunks(polls, p, i + 1, end);
    assert acc + chunk + Chunks(polls, p, i + 1, end) == acc + (chunk + Chunks(polls, p, i + 1, end));
  }

  /** Any other poll in time that does not stop the reassembly is passed over and the wait goes on. */
  lemma OtherStep(polls: seq<Poll>, p: Profile, timeout: int, s: nat, i: nat, acc: seq<byte>, end: nat)
    requires s <= i < |polls| && InTime(polls, LastOpen(polls, p, s, i), i, timeout)
    requires !IsCf(p, polls[i]) && !IsStop(p, polls[i])
    requires Reassembled(polls, p, timeout, s, i + 1, acc, end)
    ensures Reassembled(polls, p, timeout, s, i, acc, end)
  {
    assert LastOpen(polls, p, s, i + 1) == LastOpen(polls, p, s, i);
    assert Chunks(polls, p, i, end) == Chunks(polls, p, i + 1, end);
  }

  // ----- frames that are not for us make no difference -----

  /** The stream with poll `j`'s frame replaced by nothing, at the same tick. */
  function Silence(polls: seq<Poll>, j: nat): seq<Poll>
    requires j < |polls|
  {
    polls[j := Poll(polls[j].tick, None)]
  }

  lemma {:induction false} CollectSilence(polls: seq<Poll>, p: Profile, timeout: int, j: nat, open: nat, i: nat, acc: seq<byte>)
    requires j < |polls| && polls[j].frame.Some? && !Accepted(p, polls[j].frame.value)
    requires open <= i <= |polls|
    ensures Collect(Silence(polls, j), p, timeout, open, i, acc) == Collect(polls, p, timeout, open, i, acc)
    decreases |polls| - i
  {
    var q := Silence(polls, j);
    if i < |polls| && InTime(polls, open, i, timeout) {
      assert InTime(q, open, i, timeout);
      if IsCf(p, polls[i]) {
        CollectSilence(polls, p, timeout, j, i + 1, i + 1, acc + polls[i].frame.value.data[2..]);
      } else if !IsStop(p, polls[i]) {
        CollectSilence(polls, p, timeout, j, open, i + 1, acc);
      }
    } else if i < |polls| {
      assert !InTime(q, open, i, timeout);
    }
  }

  lemma {:induction false} AwaitSilence(polls: seq<Poll>, p: Profile, did: int, timeout: int, j: nat, start: nat, i: nat)
    requires j < |polls| && polls[j].frame.Some? && !Accepted(p, polls[j].frame.value)
    requires start <= i <= |polls|
    ensures Await(Silence(polls, j), p, did, timeout, start, i) == Await(polls, p, did, timeout, start, i)
    decreases |polls| - i
  {
    var q := Silence(polls, j);
    if i < |polls| && InTime(polls, start, i, timeout) {
      assert InTime(q, start, i, timeout);
      if !IsReply(p, did, polls[i]) {
        AwaitSilence(polls, p, did, timeout, j, start, i + 1);
      } else if !IsSfReply(p, did, polls[i].frame.value) {
        CollectSilence(polls, p, timeout, j, i + 1, i + 1, polls[i].frame.value.data[6..]);
      }
    } else if i < |polls| {
      assert !InTime(q, start, i, timeout);
    }
  }

  /**
   * A frame with the wrong id, fewer than 2 bytes or another extended address
   * is skipped: the read behaves as if nothing had been received at that tick.
   */
  lemma SkippedFrameIsSilence(polls: seq<Poll>, p: Profile, did: int, timeout: int, j: nat)
    requires j < |polls| && polls[j].frame.Some? && !Accepted(p, polls[j].frame.value)
    ensures ReadById(Silence(polls, j), p, did, timeout) == ReadById(polls, p, did, timeout)
  {
    AwaitSilence(polls, p, did, timeout, j, 0, 0);
  }
}
