/**
 * The trigger finder's main loop (`TriggerFinderRunner._run`): it keeps a
 * five-second ring of received frames, reads the ground-truth detector after
 * every receive attempt, and on each rising edge of the detector's state
 * credits every frame id seen around the event and every data bit that went
 * from 0 to 1 against the frame last seen before the event.  Times are ticks
 * (milliseconds).
 */
module Correlator {
  import opened Wrappers
  import opened Can
  import opened UdsLenient
  import opened Detectors

  /** `RING_SECONDS`, `PRE_WIN` and `POST_WIN` in ticks. */
  const RING_MS := 5000
  const PRE_WIN := 300
  const POST_WIN := 50

  /** A ring entry: receive time, frame id and data (the DLC is |data|). */
  datatype Entry = Entry(ts: int, id: int, data: seq<byte>)

  /** A candidate bit: (frame id, byte index, bit number). */
  type BitKey = (int, int, int)

  // ----- the ring -----

  /** `while ring and ring[0][0] < t_cut: ring.popleft()`. */
  function Evict(ring: seq<Entry>, cut: int): seq<Entry>
    decreases |ring|
  {
    if |ring| > 0 && ring[0].ts < cut then Evict(ring[1..], cut) else ring
  }

  /** The ring is in time order (the receive clock is monotonic). */
  predicate Sorted(ring: seq<Entry>) {
    forall j, k :: 0 <= j < k < |ring| ==> ring[j].ts <= ring[k].ts
  }

  /**
   * Eviction drops a prefix: exactly the leading entries older than the cut;
   * the entry left at the front, if any, is not older.
   */
  lemma {:induction false} EvictSpec(ring: seq<Entry>, cut: int) returns (k: nat)
    ensures k <= |ring| && Evict(ring, cut) == ring[k..]
    ensures forall j :: 0 <= j < k ==> ring[j].ts < cut
    ensures k < |ring| ==> ring[k].ts >= cut
    decreases |ring|
  {
    if |ring| > 0 && ring[0].ts < cut {
      var k' := EvictSpec(ring[1..], cut);
      k := k' + 1;
      assert ring[1..][k'..] == ring[k..];
      forall j | 0 <= j < k ensures ring[j].ts < cut {
        if j > 0 {
          assert ring[j] == ring[1..][j - 1];
        }
      }
    } else {
      k := 0;
    }
  }

  /**
   * With a monotonic clock, appending a frame and evicting keeps the ring in
   * order, ends it with the new frame, and leaves exactly the frames at most
   * five seconds older than it.
   */
  lemma AppendKeepsWindow(ring: seq<Entry>, e: Entry)
    requires Sorted(ring)
    requires forall j :: 0 <= j < |ring| ==> ring[j].ts <= e.ts
    ensures var r := Evict(ring + [e], e.ts - RING_MS);
      && Sorted(r)
      && |r| > 0 && r[|r| - 1] == e
      && (forall j :: 0 <= j < |r| ==> e.ts - RING_MS <= r[j].ts <= e.ts)
      && (forall j :: 0 <= j < |ring| && ring[j].ts >= e.ts - RING_MS ==> ring[j] in r)
  {
    var full := ring + [e];
    var k := EvictSpec(full, e.ts - RING_MS);
    var r := full[k..];
    assert full[|ring|] == e;
    assert k <= |ring|;
    assert Sorted(full) by {
      forall j, l | 0 <= j < l < |full| ensures full[j].ts <= full[l].ts {
        if l < |ring| {
          assert full[j] == ring[j] && full[l] == ring[l];
        } else {
          assert full[j] == ring[j] || j == |ring|;
        }
      }
    }
    forall j | 0 <= j < |r| ensures e.ts - RING_MS <= r[j].ts <= e.ts {
      assert r[j] == full[k + j];
      assert full[k].ts <= full[k + j].ts <= full[|ring|].ts;
    }
    forall j | 0 <= j < |ring| && ring[j].ts >= e.ts - RING_MS ensures ring[j] in r {
      assert full[j] == ring[j];
      assert r[j - k] == full[j];
    }
  }

  // ----- the event analysis -----

  /** `before`: for each id, the data of the last ring frame older than `tStart`, over the first `n` entries. */
  function Before(ring: seq<Entry>, tStart: int, n: nat): map<int, seq<byte>>
    requires n <= |ring|
  {
    if n == 0 then map[]
    else
      var m := Before(ring, tStart, n - 1);
      if ring[n - 1].ts < tStart then m[ring[n - 1].id := ring[n - 1].data] else m
  }

  /** An id is in `before` iff some frame with it precedes the window, and it maps to the data of the last such frame. */
  lemma {:induction false} BeforeSpec(ring: seq<Entry>, tStart: int, n: nat, id: int)
    requires n <= |ring|
    ensures id in Before(ring, tStart, n) <==> exists k :: 0 <= k < n && ring[k].id == id && ring[k].ts < tStart
    ensures id in Before(ring, tStart, n) ==>
      exists k :: (0 <= k < n && ring[k].id == id && ring[k].ts < tStart
        && Before(ring, tStart, n)[id] == ring[k].data
        && forall j :: k < j < n ==> ring[j].id != id || ring[j].ts >= tStart)
  {
    if n > 0 {
      BeforeSpec(ring, tStart, n - 1, id);
      var e := ring[n - 1];
      if e.id == id && e.ts < tStart {
        assert Before(ring, tStart, n)[id] == ring[n - 1].data;
      } else if id in Before(ring, tStart, n - 1) {
        var k :| 0 <= k < n - 1 && ring[k].id == id && ring[k].ts < tStart
          && Before(ring, tStart, n - 1)[id] == ring[k].data
          && forall j :: k < j < n - 1 ==> ring[j].id != id || ring[j].ts >= tStart;
        assert Before(ring, tStart, n)[id] == ring[k].data;
      }
    }
  }

  /** `t_start <= ts <= t_end`. */
  predicate InWindow(e: Entry, tStart: int, tEnd: int) {
    tStart <= e.ts <= tEnd
  }

  function Pow2(b: nat): (r: nat)
    ensures r >= 1
  {
    if b == 0 then 1 else 2 * Pow2(b - 1)
  }

  /** Bit `b` of a non-negative number. */
  function Bit(x: nat, b: nat): nat {
    if b == 0 then x % 2 else Bit(x / 2, b - 1)
  }

  /** `(prev & mask) == 0 and (cur & mask) != 0` with `mask = 1 << bit`. */
  predicate Rise(prev: byte, cur: byte, bit: nat) {
    BitAnd(prev, Pow2(bit)) == 0 && BitAnd(cur, Pow2(bit)) != 0
  }

  /** `x & (1 << b)` is `1 << b` when bit `b` of `x` is set and 0 otherwise. */
  lemma {:induction false} BitAndPow2(x: nat, b: nat)
    ensures BitAnd(x, Pow2(b)) == if Bit(x, b) == 1 then Pow2(b) else 0
  {
    if b > 0 {
      BitAndPow2(x / 2, b - 1);
      assert Pow2(b) / 2 == Pow2(b - 1) && Pow2(b) % 2 == 0;
    }
  }

  /** A bit rises exactly when it is 0 before and 1 after. */
  lemma RiseBits(prev: byte, cur: byte, bit: nat)
    ensures Rise(prev, cur, bit) <==> Bit(prev, bit) == 0 && Bit(cur, bit) == 1
  {
    BitAndPow2(prev, bit);
    BitAndPow2(cur, bit);
  }

  /** The bit hits of one byte over bits `0..bits`. */
  function ByteRises(id: int, idx: int, prev: byte, cur: byte, bits: nat): multiset<BitKey> {
    if bits == 0 then multiset{}
    else
      ByteRises(id, idx, prev, cur, bits - 1)
      + (if Rise(prev, cur, bits - 1) then multiset{(id, idx, bits - 1)} else multiset{})
  }

  /** The bit hits of one frame against its `before` data over bytes `0..n`; a byte equal to before (`xor == 0`) is skipped. */
  function FrameRises(id: int, prev: seq<byte>, cur: seq<byte>, n: nat): multiset<BitKey>
    requires n <= |prev| == |cur|
  {
    if n == 0 then multiset{}
    else
      FrameRises(id, prev, cur, n - 1)
      + (if prev[n - 1] == cur[n - 1] then multiset{} else ByteRises(id, n - 1, prev[n - 1], cur[n - 1], 8))
  }

  /** A candidate of one frame: id, byte below `n`, bit below 8, rising. */
  predicate FrameRiseAt(id: int, prev: seq<byte>, cur: seq<byte>, n: nat, key: BitKey)
    requires n <= |prev| == |cur|
  {
    key.0 == id && 0 <= key.1 < n && 0 <= key.2 < 8 && Rise(prev[key.1], cur[key.1], key.2)
  }

  lemma {:induction false} ByteRisesCount(id: int, idx: int, prev: byte, cur: byte, bits: nat, key: BitKey)
    ensures ByteRises(id, idx, prev, cur, bits)[key] ==
      if key.0 == id && key.1 == idx && 0 <= key.2 < bits && Rise(prev, cur, key.2) then 1 else 0
  {
    if bits > 0 {
      ByteRisesCount(id, idx, prev, cur, bits - 1, key);
    }
  }

  /**
   * A frame credits each of its rising bits exactly once and nothing else;
   * skipping equal bytes loses nothing, since no bit of an unchanged byte rises.
   */
  lemma {:induction false} FrameRisesCount(id: int, prev: seq<byte>, cur: seq<byte>, n: nat, key: BitKey)
    requires n <= |prev| == |cur|
    ensures FrameRises(id, prev, cur, n)[key] == if FrameRiseAt(id, prev, cur, n, key) then 1 else 0
  {
    if n > 0 {
      FrameRisesCount(id, prev, cur, n - 1, key);
      LastByteCount(id, prev, cur, n - 1, key);
    }
  }

  /** What byte `i` of a frame credits: each of its rising bits once, and nothing when it is unchanged. */
  lemma LastByteCount(id: int, prev: seq<byte>, cur: seq<byte>, i: nat, key: BitKey)
    requires i < |prev| == |cur|
    ensures (if prev[i] == cur[i] then multiset{} else ByteRises(id, i, prev[i], cur[i], 8))[key]
      == if key.0 == id && key.1 == i && 0 <= key.2 < 8 && Rise(prev[i], cur[i], key.2) then 1 else 0
  {
    if prev[i] != cur[i] {
      ByteRisesCount(id, i, prev[i], cur[i], 8, key);
    } else if key.1 == i && 0 <= key.2 < 8 {
      SameByteNoRise(prev[i], key.2);
    }
  }

  /** No bit of an unchanged byte rises. */
  lemma SameByteNoRise(b: byte, bit: nat)
    ensures !Rise(b, b, bit)
  {
    RiseBits(b, b, bit);
  }

  /** Whether ring entry `e` is compared against `before`: in the window, with an earlier frame of the same length. */
  predicate Compared(e: Entry, before: map<int, seq<byte>>, tStart: int, tEnd: int) {
    InWindow(e, tStart, tEnd) && e.id in before && |before[e.id]| == |e.data|
  }

  /** The bit hits of the first `n` ring entries. */
  function WindowRises(ring: seq<Entry>, before: map<int, seq<byte>>, tStart: int, tEnd: int, n: nat): multiset<BitKey>
    requires n <= |ring|
  {
    if n == 0 then multiset{}
    else
      var e := ring[n - 1];
      WindowRises(ring, before, tStart, tEnd, n - 1)
        + (if Compared(e, before, tStart, tEnd) then FrameRises(e.id, before[e.id], e.data, |e.data|) else multiset{})
  }

  /** `seen_ids` over the first `n` ring entries. */
  function WindowIds(ring: seq<Entry>, tStart: int, tEnd: int, n: nat): set<int>
    requires n <= |ring|
  {
    if n == 0 then {}
    else WindowIds(ring, tStart, tEnd, n - 1) + (if InWindow(ring[n - 1], tStart, tEnd) then {ring[n - 1].id} else {})
  }

  /** An id is seen iff some ring frame with that id lies in the window. */
  lemma {:induction false} WindowIdsSpec(ring: seq<Entry>, tStart: int, tEnd: int, n: nat, id: int)
    requires n <= |ring|
    ensures id in WindowIds(ring, tStart, tEnd, n) <==> exists k :: 0 <= k < n && ring[k].id == id && InWindow(ring[k], tStart, tEnd)
  {
    if n > 0 {
      WindowIdsSpec(ring, tStart, tEnd, n - 1, id);
    }
  }

  /** Every credited bit belongs to a frame id seen in the window. */
  lemma {:induction false} WindowRisesSeen(ring: seq<Entry>, before: map<int, seq<byte>>, tStart: int, tEnd: int, n: nat, key: BitKey)
    requires n <= |ring|
    requires key in WindowRises(ring, before, tStart, tEnd, n)
    ensures key.0 in WindowIds(ring, tStart, tEnd, n)
  {
    var e := ring[n - 1];
    if key in WindowRises(ring, before, tStart, tEnd, n - 1) {
      WindowRisesSeen(ring, before, tStart, tEnd, n - 1, key);
    } else {
      FrameRisesCount(e.id, before[e.id], e.data, |e.data|, key);
    }
  }

  /** What an event at `t` adds: one hit per id seen in the window, and the rising bits. */
  function EventIds(ring: seq<Entry>, t: int): set<int> {
    WindowIds(ring, t - PRE_WIN, t + POST_WIN, |ring|)
  }

  function EventBits(ring: seq<Entry>, t: int): multiset<BitKey> {
    WindowRises(ring, Before(ring, t - PRE_WIN, |ring|), t - PRE_WIN, t + POST_WIN, |ring|)
  }

  /** The `before` loop. */
  method BeforeMap(ring: seq<Entry>, tStart: int) returns (m: map<int, seq<byte>>)
    ensures m == Before(ring, tStart, |ring|)
  {
    m := map[];
    var n := 0;
    while n < |ring|
      invariant n <= |ring|
      invariant m == Before(ring, tStart, n)
    {
      if ring[n].ts < tStart {
        m := m[ring[n].id := ring[n].data];
      }
      n := n + 1;
    }
  }

  /** The `xor` / `for bit in range(8)` loops for one frame. */
  method FrameBitHits(id: int, prev: seq<byte>, cur: seq<byte>) returns (hits: multiset<BitKey>)
    requires |prev| == |cur|
    ensures hits == FrameRises(id, prev, cur, |cur|)
  {
    hits := multiset{};
    var idx := 0;
    while idx < |cur|
      invariant idx <= |cur|
      invariant hits == FrameRises(id, prev, cur, idx)
    {
      var h := multiset{};
      if prev[idx] != cur[idx] {
        h := ByteBitHits(id, idx, prev[idx], cur[idx]);
      }
      assert FrameRises(id, prev, cur, idx + 1) == FrameRises(id, prev, cur, idx) + h;
      hits := hits + h;
      idx := idx + 1;
    }
  }

  /** The `for bit in range(8)` loop for byte `idx` of a frame. */
  method ByteBitHits(id: int, idx: int, prev: byte, cur: byte) returns (hits: multiset<BitKey>)
    ensures hits == ByteRises(id, idx, prev, cur, 8)
  {
    hits := multiset{};
    var bit := 0;
    while bit < 8
      invariant bit <= 8
      invariant hits == ByteRises(id, idx, prev, cur, bit)
    {
      if BitAnd(prev, Pow2(bit)) == 0 && BitAnd(cur, Pow2(bit)) != 0 {
        hits := hits + multiset{(id, idx, bit)};
      }
      bit := bit + 1;
    }
  }

  /** The loop over the ring: the ids in the window and the bits that rose against `before`. */
  method WindowHits(ring: seq<Entry>, before: map<int, seq<byte>>, tStart: int, tEnd: int)
    returns (seen: set<int>, hits: multiset<BitKey>)
    ensures seen == WindowIds(ring, tStart, tEnd, |ring|)
    ensures hits == WindowRises(ring, before, tStart, tEnd, |ring|)
  {
    seen, hits := {}, multiset{};
    var n := 0;
    while n < |ring|
      invariant n <= |ring|
      invariant seen == WindowIds(ring, tStart, tEnd, n)
      invariant hits == WindowRises(ring, before, tStart, tEnd, n)
    {
      var e := ring[n];
      if InWindow(e, tStart, tEnd) {
        seen := seen + {e.id};
        if e.id in before && |before[e.id]| == |e.data| {
          var h := FrameBitHits(e.id, before[e.id], e.data);
          hits := hits + h;
        }
      }
      n := n + 1;
    }
  }

  // ----- the whole run -----

  /** The runner's state between loop iterations, with the detector's state and the stream position. */
  datatype Finder = Finder(
    ring: seq<Entry>, idHits: multiset<int>, bitHits: multiset<BitKey>, lastState: bool,
    prev: Option<int>, last: int, pos: nat, checks: nat, sent: seq<Frame>)

  /** The ring after receive attempt `po`: a received frame is appended and old ones evicted. */
  function Received(ring: seq<Entry>, po: Poll): seq<Entry> {
    if po.frame.Some? then Evict(ring + [Entry(po.tick, po.frame.value.id, po.frame.value.data)], po.tick - RING_MS)
    else ring
  }

  /**
   * One pass of the loop from state `s`: make one receive attempt, read the
   * detector (a timeout or any other error reads as False), and on a rising
   * edge credit the event at the tick of the last poll read.
   */
  function Iterate(polls: seq<Poll>, kw: Kwargs, t: Target, s: Finder): (s': Finder)
    requires s.pos < |polls|
    ensures s.pos < s'.pos <= |polls|
  {
    var rest := polls[s.pos + 1..];
    StepNextBound(t, s.prev, s.last, rest, kw);
    Advance(polls, s, Received(s.ring, polls[s.pos]), Step(t, s.prev, s.last, rest, kw))
  }

  /** The state after a pass whose receive attempt left `ring` and whose detector reading was `rd`. */
  function Advance(polls: seq<Poll>, s: Finder, ring: seq<Entry>, rd: Reading): (s': Finder)
    requires s.pos + 1 + rd.next <= |polls|
    ensures s'.pos == s.pos + 1 + rd.next
  {
    var pos := s.pos + 1 + rd.next;
    var state := rd.result == Success(true);
    var now := polls[pos - 1].tick;
    var fire := state && !s.lastState;
    Finder(
      ring,
      if fire then s.idHits + multiset(EventIds(ring, now)) else s.idHits,
      if fire then s.bitHits + EventBits(ring, now) else s.bitHits,
      state, rd.prev, rd.last, pos, s.checks + 1, s.sent + rd.sent)
  }

  /** The loop from state `s`: it checks the stop flag before each pass; the recorded stream ending ends the run. */
  function Loop(polls: seq<Poll>, kw: Kwargs, t: Target, cancel: Cancel, s: Finder): Finder
    requires s.pos <= |polls|
    decreases |polls| - s.pos
  {
    if cancel.IsSet(s.checks) || s.pos == |polls| then s.(checks := s.checks + 1)
    else Loop(polls, kw, t, cancel, Iterate(polls, kw, t, s))
  }

  /** Every credited bit's id has been credited too. */
  predicate BitsWithinIds(s: Finder) {
    forall key :: key in s.bitHits ==> key.0 in s.idHits
  }

  /** The loop keeps every credited bit's id among the credited ids. */
  lemma {:induction false} LoopKeepsBitsWithinIds(polls: seq<Poll>, kw: Kwargs, t: Target, cancel: Cancel, s: Finder)
    requires s.pos <= |polls|
    requires BitsWithinIds(s)
    ensures BitsWithinIds(Loop(polls, kw, t, cancel, s))
    decreases |polls| - s.pos
  {
    if !(cancel.IsSet(s.checks) || s.pos == |polls|) {
      var s' := Iterate(polls, kw, t, s);
      var ring := Received(s.ring, polls[s.pos]);
      var now := polls[s'.pos - 1].tick;
      forall key | key in s'.bitHits ensures key.0 in s'.idHits {
        if key !in s.bitHits {
          WindowRisesSeen(ring, Before(ring, now - PRE_WIN, |ring|), now - PRE_WIN, now + POST_WIN, |ring|, key);
        }
      }
      LoopKeepsBitsWithinIds(polls, kw, t, cancel, s');
    }
  }

  /**
   * The state after one pass, given the ring left by the receive attempt, the
   * detector reading, and the counters credited on a rising edge, is the
   * state `Iterate` gives.
   */
  lemma PassStep(polls: seq<Poll>, kw: Kwargs, t: Target, s: Finder, ring1: seq<Entry>, rd: Reading,
                 ids: multiset<int>, bits: multiset<BitKey>)
    requires s.pos < |polls| && ring1 == Received(s.ring, polls[s.pos])
    requires rd == Step(t, s.prev, s.last, polls[s.pos + 1..], kw) && s.pos + 1 + rd.next <= |polls|
    requires var fire := rd.result == Success(true) && !s.lastState;
      var now := polls[s.pos + rd.next].tick;
      && ids == (if fire then s.idHits + multiset(EventIds(ring1, now)) else s.idHits)
      && bits == (if fire then s.bitHits + EventBits(ring1, now) else s.bitHits)
    ensures Finder(ring1, ids, bits, rd.result == Success(true), rd.prev, rd.last, s.pos + 1 + rd.next, s.checks + 1, s.sent + rd.sent)
      == Iterate(polls, kw, t, s)
  {
  }

  /** The runner's mutable state. */
  class Runner {
    var ring: seq<Entry>
    var idHits: multiset<int>
    var bitHits: multiset<BitKey>
    var lastState: bool

    constructor()
      ensures ring == [] && idHits == multiset{} && bitHits == multiset{} && !lastState
    {
      ring := [];
      idHits := multiset{};
      bitHits := multiset{};
      lastState := false;
    }

    /** `ring.append(...)` and the eviction loop. */
    method Record(e: Entry)
      modifies this
      ensures ring == Evict(old(ring) + [e], e.ts - RING_MS)
      ensures idHits == old(idHits) && bitHits == old(bitHits) && lastState == old(lastState)
    {
      ring := ring + [e];
      while |ring| > 0 && ring[0].ts < e.ts - RING_MS
        invariant Evict(ring, e.ts - RING_MS) == Evict(old(ring) + [e], e.ts - RING_MS)
        invariant idHits == old(idHits) && bitHits == old(bitHits) && lastState == old(lastState)
        decreases |ring|
      {
        ring := ring[1..];
      }
    }

    /** The event analysis at time `t`: credit the ids seen in the window and the bits that rose. */
    method OnEvent(t: int)
      modifies this
      ensures ring == old(ring) && lastState == old(lastState)
      ensures idHits == old(idHits) + multiset(EventIds(ring, t))
      ensures bitHits == old(bitHits) + EventBits(ring, t)
    {
      var tStart, tEnd := t - PRE_WIN, t + POST_WIN;
      var before := BeforeMap(ring, tStart);
      var seen, hits := WindowHits(ring, before, tStart, tEnd);
      bitHits := bitHits + hits;
      idHits := idHits + multiset(seen);
    }

    /** The receive attempt: a received frame goes into the ring. */
    method Receive(po: Poll)
      modifies this
      ensures ring == Received(old(ring), po)
      ensures idHits == old(idHits) && bitHits == old(bitHits) && lastState == old(lastState)
    {
      if po.frame.Some? {
        Record(Entry(po.tick, po.frame.value.id, po.frame.value.data));
      }
    }

    /** The state reading `state` at time `t`: on a rising edge the event is credited. */
    method Credit(state: bool, t: int)
      modifies this
      ensures ring == old(ring) && lastState == state
      ensures idHits == if state && !old(lastState) then old(idHits) + multiset(EventIds(ring, t)) else old(idHits)
      ensures bitHits == if state && !old(lastState) then old(bitHits) + EventBits(ring, t) else old(bitHits)
    {
      if state && !lastState {
        OnEvent(t);
      }
      lastState := state;
    }

    /** One pass of the loop: the receive attempt, the detector reading and, on a rising edge, the event analysis. */
    method Pass(polls: seq<Poll>, kw: Kwargs, det: Detector, pos: nat, checks: nat, sent: seq<Frame>)
      returns (pos': nat, checks': nat, sent': seq<Frame>)
      requires pos < |polls|
      modifies this, det
      ensures Finder(ring, idHits, bitHits, lastState, det.prev, det.last, pos', checks', sent')
        == Iterate(polls, kw, det.target, Finder(old(ring), old(idHits), old(bitHits), old(lastState), old(det.prev), old(det.last), pos, checks, sent))
    {
      ghost var s := Finder(ring, idHits, bitHits, lastState, det.prev, det.last, pos, checks, sent);
      Receive(polls[pos]);
      ghost var ring1 := ring;
      var rest := polls[pos + 1..];
      StepNextBound(det.target, det.prev, det.last, rest, kw);
      var r, out, next := det.ReadState(rest, kw);
      pos' := pos + 1 + next;
      Credit(r == Success(true), polls[pos' - 1].tick);
      checks' := checks + 1;
      sent' := sent + out;
      PassStep(polls, kw, det.target, s, ring1, Reading(r, out, next, det.prev, det.last), idHits, bitHits);
    }

    /**
     * The loop of `_run` with detector `det`: stops when the flag is set or the
     * recorded stream ends, and ends in the state `Loop` gives.
     */
    method Run(polls: seq<Poll>, kw: Kwargs, det: Detector, cancel: Cancel) returns (pos: nat, checks: nat, sent: seq<Frame>)
      modifies this, det
      ensures Finder(ring, idHits, bitHits, lastState, det.prev, det.last, pos, checks, sent)
        == Loop(polls, kw, det.target, cancel,
                Finder(old(ring), old(idHits), old(bitHits), old(lastState), old(det.prev), old(det.last), 0, 0, []))
    {
      pos, checks, sent := 0, 0, [];
      while !cancel.IsSet(checks) && pos < |polls|
        invariant pos <= |polls|
        invariant Loop(polls, kw, det.target, cancel, Finder(ring, idHits, bitHits, lastState, det.prev, det.last, pos, checks, sent))
          == Loop(polls, kw, det.target, cancel,
                  Finder(old(ring), old(idHits), old(bitHits), old(lastState), old(det.prev), old(det.last), 0, 0, []))
        decreases |polls| - pos
      {
        ghost var s := Finder(ring, idHits, bitHits, lastState, det.prev, det.last, pos, checks, sent);
        pos, checks, sent := Pass(polls, kw, det, pos, checks, sent);
        assert Finder(ring, idHits, bitHits, lastState, det.prev, det.last, pos, checks, sent) == Iterate(polls, kw, det.target, s);
      }
      checks := checks + 1;
    }
  }

  // ----- `_run` from the settings -----

  /**
   * How a run ends: an unknown profile or detector settings end it before
   * anything is sent.
   */
  datatype Outcome =
    | UnknownProfile
    | InitFailed(error: InitError)
    | Finished(idHits: multiset<int>, bitHits: multiset<BitKey>, sent: seq<Frame>)

  /** The state the loop starts from: an empty ring, no hits, and a freshly reset detector. */
  const START := Finder([], multiset{}, multiset{}, false, None, 0, 0, 0, [])

  /**
   * `_run` on a recorded stream with the profile table `profiles` (the source's
   * is `PROFILES_AS_WRITTEN`): look up the profile, build and reset the
   * detector, then loop from an empty ring.
   */
  function FinderOutcome(profiles: map<string, Kwargs>, profile: string, settings: Settings, polls: seq<Poll>, cancel: Cancel): Outcome {
    if profile !in profiles then UnknownProfile
    else match Instantiate(settings)
      case Failure(err) => InitFailed(err)
      case Success(t) =>
        var f := Loop(polls, profiles[profile], t, cancel, START);
        Finished(f.idHits, f.bitHits, f.sent)
  }

  method RunFinder(profiles: map<string, Kwargs>, profile: string, settings: Settings, polls: seq<Poll>, cancel: Cancel)
    returns (o: Outcome)
    ensures o == FinderOutcome(profiles, profile, settings, polls, cancel)
  {
    if profile !in profiles {
      return UnknownProfile;
    }
    var kw := profiles[profile];
    var t := Instantiate(settings);
    if t.Failure? {
      return InitFailed(t.error);
    }
    var det := new Detector(t.value);
    var runner := new Runner();
    det.Reset();
    var pos, checks, sent := runner.Run(polls, kw, det, cancel);
    return Finished(runner.idHits, runner.bitHits, sent);
  }

  /** In a finished run, every credited bit's frame id has been credited as well. */
  lemma FinishedBitsWithinIds(profiles: map<string, Kwargs>, profile: string, settings: Settings, polls: seq<Poll>, cancel: Cancel)
    ensures var o := FinderOutcome(profiles, profile, settings, polls, cancel);
      o.Finished? ==> forall key :: key in o.bitHits ==> key.0 in o.idHits
  {
    if profile in profiles && Instantiate(settings).Success? {
      LoopKeepsBitsWithinIds(polls, profiles[profile], Instantiate(settings).value, cancel, START);
    }
  }

  /** A stop requested before the first check ends the run with nothing sent and nothing credited. */
  lemma StoppedAtOnce(profiles: map<string, Kwargs>, profile: string, settings: Settings, polls: seq<Poll>)
    ensures var o := FinderOutcome(profiles, profile, settings, polls, From(0));
      o.Finished? ==> o.idHits == multiset{} && o.bitHits == multiset{} && o.sent == []
  {
  }

  /**
   * With a profile whose keywords do not bind, a UDS detector reads False at
   * every pass without sending or reading anything: the loop sends nothing,
   * credits nothing, keeps the detector's baseline, and each pass consumes
   * only its own receive attempt.
   */
  lemma {:induction false} UnboundLoopIdle(polls: seq<Poll>, kw: Kwargs, t: Target, cancel: Cancel, s: Finder)
    requires s.pos <= |polls| && !t.CanBit? && BindReadArgs(kw).None?
    ensures var f := Loop(polls, kw, t, cancel, s);
      && f.idHits == s.idHits && f.bitHits == s.bitHits && f.sent == s.sent && f.prev == s.prev
      && f.checks - s.checks == f.pos - s.pos + 1
    decreases |polls| - s.pos
  {
    if !(cancel.IsSet(s.checks) || s.pos == |polls|) {
      var s' := Iterate(polls, kw, t, s);
      StepNextBound(t, s.prev, s.last, polls[s.pos + 1..], kw);
      assert s'.pos == s.pos + 1 && s'.checks == s.checks + 1;
      UnboundLoopIdle(polls, kw, t, cancel, s');
    }
  }

  /**
   * `_run` as written: with either profile of the source's table, a
   * `LED_ANY_ON`, `AHL_MOVE`, `LWR_MOVE` or `UDS_CUSTOM` target never sends a
   * request and never credits an id or a bit, whatever the bus carries.
   */
  lemma AsWrittenUdsTargetsIdle(profile: string, settings: Settings, polls: seq<Poll>, cancel: Cancel)
    requires Instantiate(settings).Success? && !Instantiate(settings).value.CanBit?
    ensures var o := FinderOutcome(PROFILES_AS_WRITTEN, profile, settings, polls, cancel);
      o == UnknownProfile || o == Finished(multiset{}, multiset{}, [])
  {
    if profile in PROFILES_AS_WRITTEN {
      ProfilesAsWrittenDoNotBind(profile);
      UnboundLoopIdle(polls, PROFILES_AS_WRITTEN[profile], Instantiate(settings).value, cancel, START);
    }
  }

  // ----- the profile table as written, against the one `uds_read_by_id` expects -----

  /** A `LED_ANY_ON` run: every other setting left empty. */
  const LED_SETTINGS := Settings("LED_ANY_ON", None, ">", 0.0, 0, None, None, None, None)

  /** The headlight's positive single-frame answer to a read of 0xD631: one LED at 50 mA. */
  const LED_ANSWER := Frame(0x643, [0xF1, 0x04, 0x62, 0xD6, 0x31, 5, 0, 0])

  /** A bus frame with id 0x123, then the answer 10 ms later. */
  const LED_STREAM := [Poll(0, Some(Frame(0x123, [1]))), Poll(10, Some(LED_ANSWER))]

  /** The first pass over `LED_STREAM`: the frame 0x123 goes into the ring, and the read finds the LED on. */
  lemma LedStreamFirstPass(kw: Kwargs)
    requires BindReadArgs(kw) == Some(ReadArgs(LINKS, DEFAULT_TIMEOUT))
    ensures var ring := [Entry(0, 0x123, [1])];
      Iterate(LED_STREAM, kw, LedAnyOn, START)
        == Finder(ring, multiset(EventIds(ring, 10)), EventBits(ring, 10), true, None, 0, 2, 1, [Request(LINKS, DID_LED)])
  {
    var ring := [Entry(0, 0x123, [1])];
    assert Received([], LED_STREAM[0]) == ring;
    var rest := LED_STREAM[1..];
    assert rest == [Poll(10, Some(LED_ANSWER))];
    assert IsSfReply(LINKS, DID_LED, LED_ANSWER);
    assert SfPayload(LED_ANSWER) == [5, 0, 0] by {
      assert LED_ANSWER.data[1] % 16 == 4 && |LED_ANSWER.data| == 8;
      assert Min(5 + 4, 8) == 8;
      assert LED_ANSWER.data[5..8] == [5, 0, 0];
    }
    assert Await(rest, LINKS, DID_LED, DEFAULT_TIMEOUT, 0, 0) == Exchange(Success([5, 0, 0]), [], 1);
    assert LedAnyOnState([5, 0, 0]);
  }

  /** The event at tick 10 sees the frame 0x123 and no rising bit (nothing precedes its window). */
  lemma LedStreamEvent()
    ensures EventIds([Entry(0, 0x123, [1])], 10) == {0x123}
    ensures EventBits([Entry(0, 0x123, [1])], 10) == multiset{}
  {
    var ring := [Entry(0, 0x123, [1])];
    assert |ring| == 1 && InWindow(ring[0], 10 - PRE_WIN, 10 + POST_WIN);
    assert WindowIds(ring, 10 - PRE_WIN, 10 + POST_WIN, 0) == {};
    assert Before(ring, 10 - PRE_WIN, 0) == map[];
    assert Before(ring, 10 - PRE_WIN, 1) == map[];
    assert WindowRises(ring, map[], 10 - PRE_WIN, 10 + POST_WIN, 0) == multiset{};
  }

  /**
   * With the keywords `uds_read_by_id` takes, the `LED_ANY_ON` run on
   * `LED_STREAM` sends the request for 0xD631, reads the LED on and credits the
   * frame id 0x123 seen around the event.
   */
  lemma IntendedLedRunCredits()
    ensures FinderOutcome(PROFILES, "links", LED_SETTINGS, LED_STREAM, Never)
      == Finished(multiset{0x123}, multiset{}, [Request(LINKS, DID_LED)])
  {
    ProfilesBind();
    var kw := PROFILES["links"];
    assert Instantiate(LED_SETTINGS) == Success(LedAnyOn);
    LedStreamFirstPass(kw);
    LedStreamEvent();
    var ring := [Entry(0, 0x123, [1])];
    var s1 := Finder(ring, multiset{0x123}, multiset{}, true, None, 0, 2, 1, [Request(LINKS, DID_LED)]);
    assert Iterate(LED_STREAM, kw, LedAnyOn, START) == s1;
    assert Loop(LED_STREAM, kw, LedAnyOn, Never, s1) == s1.(checks := 2);
  }

  /** As written, the same run sends nothing and credits nothing. */
  lemma AsWrittenLedRunIdle()
    ensures FinderOutcome(PROFILES_AS_WRITTEN, "links", LED_SETTINGS, LED_STREAM, Never)
      == Finished(multiset{}, multiset{}, [])
  {
    assert Instantiate(LED_SETTINGS) == Success(LedAnyOn);
    AsWrittenUdsTargetsIdle("links", LED_SETTINGS, LED_STREAM, Never);
  }
}
