/**
 * The bus as the diagnostic core sees it.  Time is an integer number of
 * milliseconds ("ticks"); the transport is a finite stream of receive attempts,
 * each stamped with the tick at which it was made, and what the core sends is
 * returned as a log of frames.
 */
module Can {
  import opened Wrappers

  /** The smaller and the larger of two integers (Python's `min` and `max` on two arguments). */
  function Min(a: int, b: int): int {
    if a <= b then a else b
  }

  function Max(a: int, b: int): int {
    if a >= b then a else b
  }

  /** One data byte of a frame. */
  type byte = x: int | 0 <= x < 256

  /** A frame on the bus: arbitration id and data bytes (the DLC is |data|). */
  datatype Frame = Frame(id: int, data: seq<byte>)

  /** One receive attempt made at `tick`: the frame it returned, or None when nothing was received. */
  datatype Poll = Poll(tick: int, frame: Option<Frame>)

  /**
   * A wait of `timeout` ticks opens at poll `start` (the first poll it examines)
   * and examines poll `j` iff `j`'s tick is less than `timeout` after it; this is
   * the source's `while now - t0 < timeout` with `t0` read just before that first
   * poll.  A stream that ends early stands for silence until the deadline.
   */
  predicate InTime(polls: seq<Poll>, start: nat, j: nat, timeout: int)
    requires start <= j < |polls|
  {
    polls[j].tick - polls[start].tick < timeout
  }

  /** True iff poll `i` delivered a frame with arbitration id `id`. */
  predicate FromId(polls: seq<Poll>, i: nat, id: int)
    requires i < |polls|
  {
    polls[i].frame.Some? && polls[i].frame.value.id == id
  }

  /** The frames received by the polls `ps`, in order. */
  function FramesOf(ps: seq<Poll>): seq<Frame> {
    if ps == [] then []
    else (if ps[0].frame.Some? then [ps[0].frame.value] else []) + FramesOf(ps[1..])
  }

  /**
   * A cooperative cancellation flag (a `threading.Event` or an `_abort` field):
   * the user sets it at some moment and it then stays set, so it reads true from
   * the `check`th time it is looked at (counting from 0) on, or never.
   */
  datatype Cancel = Never | From(check: nat) {
    predicate IsSet(checks: nat) {
      From? && check <= checks
    }
  }

  /** The high nibble of a PCI byte, as the source's `b & 0xF0`. */
  function Pci(b: byte): byte {
    (b / 16) * 16
  }

  /** `(did >> 8) & 0xFF` on Python integers (floor shift, two's-complement mask). */
  function Hi(did: int): byte {
    (did / 256) % 256
  }

  /** `did & 0xFF` on Python integers. */
  function Lo(did: int): byte {
    did % 256
  }

  /** `n` zero bytes. */
  function Zeros(n: nat): (z: seq<byte>)
    ensures |z| == n && forall k :: 0 <= k < n ==> z[k] == 0
  {
    seq(n, _ => 0)
  }
}
