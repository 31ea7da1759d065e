/** The single-producer single-consumer byte ring of src/stream/ring_buffer.rs.
    `RingLayout` is the arithmetic of a ring, `RingBuffer` the object used by one caller at a time;
    `RingSteps` (RingSteps.dfy) takes the same operations apart into their atomic steps. */
module RingLayout {
  import opened Bits

  /** The slot of an absolute position in a ring of `cap` slots. */
  function SlotOf(pos: nat, cap: nat): (s: nat)
    requires cap > 0
    ensures s < cap
  {
    if pos < cap then pos else SlotOf(pos - cap, cap)
  }

  lemma {:induction false} SlotIsRemainder(pos: nat, cap: nat)
    requires cap > 0
    ensures SlotOf(pos, cap) == pos % cap
    decreases pos
  {
    if pos >= cap {
      SlotIsRemainder(pos - cap, cap);
      var q := (pos - cap) / cap;
      assert pos == cap * (q + 1) + (pos - cap) % cap;
      ModUnique(pos, cap, q + 1, (pos - cap) % cap);
    }
  }

  /** With a power-of-two capacity the slot is the position masked by `capacity - 1`. */
  lemma {:induction false} MaskIsSlot(pos: nat, order: nat)
    ensures And(pos, Pow2(order) - 1) == SlotOf(pos, Pow2(order))
  {
    MaskIsMod(pos, order);
    SlotIsRemainder(pos, Pow2(order));
  }

  /** How many places slot `s` lies ahead of the slot of `pos`. */
  function Ahead(pos: nat, s: nat, cap: nat): (d: nat)
    requires s < cap
    ensures d < cap
  {
    if s >= SlotOf(pos, cap) then s - SlotOf(pos, cap) else s + cap - SlotOf(pos, cap)
  }

  lemma {:induction false} SlotAdd(pos: nat, j: nat, cap: nat)
    requires j < cap
    ensures var s := SlotOf(pos, cap) + j; SlotOf(pos + j, cap) == if s < cap then s else s - cap
    ensures Ahead(pos, SlotOf(pos + j, cap), cap) == j
    decreases pos
  {
    if pos >= cap { SlotAdd(pos - cap, j, cap); }
  }

  lemma {:induction false} AheadSlot(pos: nat, s: nat, cap: nat)
    requires s < cap
    ensures SlotOf(pos + Ahead(pos, s, cap), cap) == s
  {
    SlotAdd(pos, Ahead(pos, s, cap), cap);
  }

  lemma {:induction false} DistinctSlots(p: nat, q: nat, cap: nat)
    requires cap > 0 && p < q < p + cap
    ensures SlotOf(p, cap) != SlotOf(q, cap)
  {
    SlotAdd(p, q - p, cap);
  }

  /** The `n` bytes that start at absolute position `from` of a ring stored in `buf`. */
  function Window(buf: seq<byte>, from: nat, n: nat): (w: seq<byte>)
    requires |buf| > 0
    ensures |w| == n
    ensures forall i {:trigger w[i]} :: 0 <= i < n ==> w[i] == buf[SlotOf(from + i, |buf|)]
  {
    seq(n, (i: nat) => buf[SlotOf(from + i, |buf|)])
  }

  /** The ring after `data` was written at absolute position `pos`. */
  function Overwrite(buf: seq<byte>, pos: nat, data: seq<byte>): (r: seq<byte>)
    requires |buf| > 0
    ensures |r| == |buf|
    ensures forall s {:trigger r[s]} :: 0 <= s < |buf| ==>
              r[s] == if Ahead(pos, s, |buf|) < |data| then data[Ahead(pos, s, |buf|)] else buf[s]
  {
    seq(|buf|, (s: nat) requires s < |buf| =>
          if Ahead(pos, s, |buf|) < |data| then data[Ahead(pos, s, |buf|)] else buf[s])
  }

  /** Writing after the unread bytes, within the capacity, appends to the window and keeps what was there. */
  lemma OverwriteAppends(buf: seq<byte>, read: nat, write: nat, data: seq<byte>)
    requires |buf| > 0 && read <= write && write - read + |data| <= |buf|
    ensures Window(Overwrite(buf, write, data), read, write - read + |data|)
         == Window(buf, read, write - read) + data
  {
    var cap, r := |buf|, Overwrite(buf, write, data);
    var n := write - read;
    forall i | 0 <= i < n + |data|
      ensures Window(r, read, n + |data|)[i] == (Window(buf, read, n) + data)[i]
    {
      var s := SlotOf(read + i, cap);
      if i < n {
        var d := Ahead(write, s, cap);
        AheadSlot(write, s, cap);
        if d < |data| { DistinctSlots(read + i, write + d, cap); }
      } else {
        SlotAdd(write, i - n, cap);
      }
    }
  }

  lemma WindowDrops(buf: seq<byte>, read: nat, n: nat, k: nat)
    requires |buf| > 0 && k <= n
    ensures Window(buf, read + k, n - k) == Window(buf, read, n)[k..]
  {
    forall i | 0 <= i < n - k ensures Window(buf, read + k, n - k)[i] == Window(buf, read, n)[k..][i] {
      assert read + k + i == read + (k + i);
    }
  }

  /** The least exponent whose power of two is at least `n`. */
  function NextPow2(n: nat): (k: nat)
    ensures Pow2(k) >= n && (k > 0 ==> Pow2(k - 1) < n)
    ensures n > 1 ==> Pow2(k) < 2 * n
  {
    if n <= 1 then 0 else
      var k := NextPow2((n + 1) / 2);
      k + 1
  }

  /** The exponent of the capacity chosen for a request: at least 4. */
  function Order(requested: nat): (k: nat) {
    Max(NextPow2(requested), 4)
  }

  /** The chosen capacity is the least power of two that holds the request and is at least 16; a 32-bit credit
      counter can hold it exactly for requests of at most 2^31. */
  lemma {:induction false} OrderIsLeast(requested: nat)
    ensures Pow2(Order(requested)) == Max(Pow2(NextPow2(requested)), 16)
    ensures requested <= Pow2(Order(requested))
    ensures forall j :: 4 <= j && requested <= Pow2(j) ==> Pow2(Order(requested)) <= Pow2(j)
    ensures Pow2(Order(requested)) < U32 <==> requested <= 0x8000_0000
  {
    var k := NextPow2(requested);
    Pow2Values();
    hide Pow2;
    PowMonotone(Min(k, 4), Max(k, 4));
    forall j | 4 <= j && requested <= Pow2(j) ensures Pow2(Order(requested)) <= Pow2(j) { LeastOrder(requested, j); }
    if Order(requested) >= 32 { PowMonotone(32, Order(requested)); } else { PowMonotone(Order(requested), 31); }
  }

  lemma {:induction false} LeastOrder(requested: nat, j: nat)
    requires 4 <= j && requested <= Pow2(j)
    ensures Pow2(Order(requested)) <= Pow2(j)
  {
    hide Pow2;
    var k := NextPow2(requested);
    PowMonotone(4, j);
    if j < k { PowMonotone(j, k - 1); } else { PowMonotone(k, j); }
  }

  lemma Pow2Values()
    ensures Pow2(4) == 16 && Pow2(31) == 0x8000_0000 && Pow2(32) == U32
  {
    assert Pow2(4) == 16 && Pow2(8) == 16 * Pow2(4) && Pow2(12) == 16 * Pow2(8) && Pow2(16) == 16 * Pow2(12);
    assert Pow2(20) == 16 * Pow2(16) && Pow2(24) == 16 * Pow2(20) && Pow2(28) == 16 * Pow2(24);
  }
}

module RingBuffer {
  import opened Bits
  import opened Errors
  import opened RingLayout

  class StreamRingBuffer {
    const buffer: array<byte>
    var writePos: nat
    var readPos: nat
    const capacity: nat
    const mask: nat
    /** Credit of the backpressure signal. */
    var available: nat
    ghost const order: nat
    /** The unread bytes, oldest first. */
    ghost var contents: seq<byte>

    ghost predicate Valid()
      reads this, buffer
    {
      && capacity == Pow2(order) == buffer.Length < U32
      && mask == capacity - 1
      && readPos <= writePos
      && |contents| == writePos - readPos
      && available + |contents| == capacity
      && contents == Window(buffer[..], readPos, |contents|)
    }

    constructor (requested: nat)
      ensures fresh(buffer) && contents == [] && writePos == 0
      // beyond this the credit counter, a u32, does not hold the capacity
      ensures Valid() <==> requested <= 0x8000_0000
      ensures available == capacity % 0x1_0000_0000
      ensures capacity >= 16 && capacity >= requested
      ensures forall k :: 4 <= k && requested <= Pow2(k) ==> capacity <= Pow2(k)
    {
      hide Pow2, NextPow2, SlotOf;
      var size := Max(Pow2(NextPow2(requested)), 16);
      OrderIsLeast(requested);
      order := Order(requested);
      capacity, mask := size, size - 1;
      buffer := new byte[size](_ => 0);
      writePos, readPos := 0, 0;
      available := size % 0x1_0000_0000;
      contents := [];
    }

    method Len() returns (n: nat)
      requires Valid()
      ensures n == |contents|
    {
      n := writePos - readPos;
    }

    method AvailableSpace() returns (n: nat)
      requires Valid()
      ensures n == capacity - |contents| == available
    {
      var used := Len();
      n := capacity - used;
    }

    /** With no other thread between load and exchange the retry loop runs once. */
    method TryReserve(amount: nat) returns (ok: bool)
      modifies this`available
      ensures ok == (amount <= old(available))
      ensures available == if ok then old(available) - amount else old(available)
    {
      if available < amount { return false; }
      available := available - amount;
      return true;
    }

    method Release(amount: nat)
      modifies this`available
      ensures available == old(available) + amount
    {
      available := available + amount;
    }

    /** The slot of an absolute position, by masking. */
    function Slot(pos: nat): (s: nat)
      reads this
      requires capacity == Pow2(order) && mask == capacity - 1
      ensures s == SlotOf(pos, capacity)
    {
      MaskIsSlot(pos, order);
      And(pos, mask)
    }

    /** Stores `data` from the write position on, in one or two blocks. */
    method CopyIn(data: seq<byte>)
      requires capacity == Pow2(order) == buffer.Length && mask == capacity - 1
      requires |data| <= capacity
      modifies buffer
      ensures buffer[..] == Overwrite(old(buffer[..]), writePos, data)
    {
      ghost var was := buffer[..];
      var start := Slot(writePos);
      if start + |data| <= capacity {
        forall i | 0 <= i < |data| { buffer[start + i] := data[i]; }
      } else {
        var first := capacity - start;
        forall i | 0 <= i < first { buffer[start + i] := data[i]; }
        forall i | 0 <= i < |data| - first { buffer[i] := data[first + i]; }
      }
      assert forall s :: 0 <= s < capacity ==> buffer[s] == Overwrite(was, writePos, data)[s];
    }

    method Push(data: seq<byte>) returns (r: Result<(), DcpError>)
      requires Valid()
      requires writePos + |data| < U64
      modifies this`writePos, this`available, this`contents, buffer
      ensures Valid()
      ensures r == if |data| > capacity then Err(OutOfBounds)
                   else if |data| > capacity - |old(contents)| then Err(Backpressure)
                   else Ok(())
      ensures contents == if r.Ok? then old(contents) + data else old(contents)
      ensures writePos == if r.Ok? then old(writePos) + |data| else old(writePos)
    {
      if |data| > capacity { return Err(OutOfBounds); }
      var reserved := TryReserve(|data| % 0x1_0000_0000);
      if !reserved { return Err(Backpressure); }
      ghost var was := buffer[..];
      CopyIn(data);
      OverwriteAppends(was, readPos, writePos, data);
      writePos := writePos + |data|;
      contents := contents + data;
      return Ok(());
    }

    /** Copies `n` unread bytes into `out` in one or two blocks. */
    method CopyOut(out: array<byte>, n: nat)
      requires Valid() && out != buffer
      requires n <= out.Length && n <= |contents|
      modifies out
      ensures out[..n] == contents[..n] && out[n..] == old(out[n..])
    {
      var start := Slot(readPos);
      if start + n <= capacity {
        forall i | 0 <= i < n { out[i] := buffer[start + i]; }
      } else {
        var first := capacity - start;
        forall i | 0 <= i < first { out[i] := buffer[start + i]; }
        forall i | first <= i < n { out[i] := buffer[i - first]; }
      }
      forall i | 0 <= i < n ensures out[i] == contents[i] {
        SlotAdd(readPos, i, capacity);
      }
    }

    method Pop(out: array<byte>) returns (n: nat)
      requires Valid() && out != buffer
      modifies this`readPos, this`available, this`contents, out
      ensures Valid()
      ensures n == Min(out.Length, |old(contents)|)
      ensures out[..n] == old(contents)[..n] && out[n..] == old(out[n..])
      ensures contents == old(contents)[n..]
    {
      var unread := Len();
      n := Min(out.Length, unread);
      if n == 0 { return; }
      CopyOut(out, n);
      WindowDrops(buffer[..], readPos, writePos - readPos, n);
      readPos := readPos + n;
      contents := contents[n..];
      Release(n % 0x1_0000_0000);
    }

    method Peek(out: array<byte>) returns (n: nat)
      requires Valid() && out != buffer
      modifies out
      ensures n == Min(out.Length, |contents|)
      ensures out[..n] == contents[..n] && out[n..] == old(out[n..])
    {
      var unread := Len();
      n := Min(out.Length, unread);
      if n == 0 { return; }
      CopyOut(out, n);
    }

    method Clear()
      requires Valid()
      modifies this`readPos, this`available, this`contents
      ensures Valid()
      ensures contents == [] && available == capacity
    {
      var consumed := (writePos - readPos) % 0x1_0000_0000;
      readPos := writePos;
      contents := [];
      Release(consumed);
    }
  }
}
