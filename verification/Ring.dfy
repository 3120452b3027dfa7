/** The scrollback ring of one session (pkg/ptysession/ring.go). */
module Ring {
  import opened Bytes

  /** Go's built-in copy into the slice `dst[at..limit]`: as much of `src` as fits, as if all of it were read first. */
  method Copy(dst: array<byte>, at: nat, limit: nat, src: seq<byte>) returns (n: nat)
    requires at <= limit <= dst.Length
    modifies dst
    ensures n == if |src| <= limit - at then |src| else limit - at
    ensures forall i :: at <= i < at + n ==> dst[i] == src[i - at]
    ensures forall i :: (0 <= i < at || at + n <= i < dst.Length) ==> dst[i] == old(dst[i])
  {
    n := 0;
    while n < |src| && n < limit - at
      invariant n <= |src| && n <= limit - at
      invariant forall i :: at <= i < at + n ==> dst[i] == src[i - at]
      invariant forall i :: (0 <= i < at || at + n <= i < dst.Length) ==> dst[i] == old(dst[i])
    {
      dst[at + n] := src[n];
      n := n + 1;
    }
  }

  /** How many bytes of a ring of `len` bytes are older than the one in slot `k` when the oldest is at `pos`. */
  function Rank(pos: nat, len: nat, k: nat): (i: nat)
    requires pos <= len && k < len
    ensures i < len
  {
    if k >= pos then k - pos else k - pos + len
  }

  function Advance(pos: nat, count: nat, max: nat): (q: nat)
    requires pos < max && count < max
    ensures q == if pos + count < max then pos + count else pos + count - max
  {
    (pos + count) % max
  }

  /** Keeps the most recent `max` bytes: grows by appending until it holds `max`, then writes in a circle. */
  class RingBuffer {
    // The slice buf is the first `len` elements of its backing array.
    var data: array<byte>
    var len: nat
    const max: nat
    var pos: nat
    var full: bool

    ghost var history: seq<byte>  // everything ever appended

    ghost predicate Valid()
      reads this, data
    {
      && len <= data.Length && len <= |history|
      && (full ==> len == max && (pos < max || pos == max == 0))
      && (!full ==> pos == 0 && len == |history| && (len < max || len == 0))
      && Newest()
    }

    /** Slot by slot, the ring holds the last `len` bytes of the history. */
    ghost predicate Newest()
      reads this, data
      requires pos <= len <= data.Length && len <= |history|
    {
      forall k :: 0 <= k < len ==> data[k] == history[|history| - len + Rank(pos, len, k)]
    }

    constructor (max: nat)
      ensures Valid() && fresh(data)
      ensures this.max == max && history == []
    {
      this.max := max;
      data := new byte[0];
      len, pos, full := 0, 0, false;
      history := [];
    }

    method Append(p: seq<byte>)
      requires Valid()
      modifies this, data
      ensures Valid()
      ensures data == old(data) || fresh(data)
      ensures history == old(history) + p
    {
      if full {
        AppendCircular(p);
        return;
      }
      Extend(p);
      if len >= max {
        if len > max {
          Compact();
        }
        full := true;
        pos := 0;
      }
    }

    /** Go's append: in place when the backing array has room, otherwise into a larger one. */
    method Extend(p: seq<byte>)
      requires Valid() && !full
      modifies `data, `len, `history, data
      ensures data == old(data) || fresh(data)
      ensures history == old(history) + p
      ensures len == |history| <= data.Length
      ensures forall i :: 0 <= i < len ==> data[i] == history[i]
    {
      if len + |p| <= data.Length {
        var _ := Copy(data, len, data.Length, p);
      } else {
        var capacity :| capacity >= len + |p|;
        var bigger := new byte[capacity];
        var _ := Copy(bigger, 0, capacity, data[..len]);
        var _ := Copy(bigger, len, capacity, p);
        data := bigger;
      }
      len := len + |p|;
      history := history + p;
    }

    /** Moves the newest `max` bytes to the front and cuts the slice there. */
    method Compact()
      requires max < len == |history| <= data.Length
      requires forall i :: 0 <= i < len ==> data[i] == history[i]
      modifies `len, data
      ensures len == max
      ensures forall k :: 0 <= k < len ==> data[k] == history[|history| - len + k]
    {
      var _ := Copy(data, 0, len, data[len - max..len]);
      len := max;
    }

    method AppendCircular(p: seq<byte>)
      requires Valid() && full
      modifies `pos, `history, data
      ensures Valid()
      ensures history == old(history) + p
    {
      if |p| >= max {
        var _ := Copy(data, 0, len, p[|p| - max..]);
        history := history + p;
        pos := 0;
      } else {
        WriteAround(p);
        pos := Advance(pos, |p|, max);
      }
    }

    /** The write from `pos` to the end that goes on from the front. */
    method WriteAround(p: seq<byte>)
      requires Valid() && full && |p| < max
      modifies `history, data
      ensures history == old(history) + p
      ensures forall k :: 0 <= k < len ==>
                data[k] == history[|history| - len + Rank(Advance(pos, |p|, max), len, k)]
    {
      var n := Copy(data, pos, len, p);
      if n < |p| {
        var _ := Copy(data, 0, len, p[n..]);
      }
      history := history + p;
    }

    method Snapshot() returns (out: seq<byte>)
      requires Valid()
      ensures out == Last(history, max)
    {
      if !full {
        var copied := new byte[len];
        var _ := Copy(copied, 0, len, data[..len]);
        return copied[..];
      }
      out := Unrolled();
    }

    /** The full ring from its oldest byte on. */
    method Unrolled() returns (out: seq<byte>)
      requires Valid() && full
      ensures out == Last(history, max)
    {
      var joined := new byte[max];
      ghost var oldest := |history| - max;
      var n := Copy(joined, 0, max, data[pos..len]);
      assert forall k :: 0 <= k < n ==> joined[k] == history[oldest + k];
      var _ := Copy(joined, n, max, data[..pos]);
      assert forall k :: 0 <= k < max ==> joined[k] == history[oldest + k];
      assert joined[..] == history[oldest..];
      out := joined[..];
    }
  }
}
