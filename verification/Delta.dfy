/** The XOR delta with run-length encoding of src/sync/delta.rs. The hash is any function from byte strings;
    only the size results look at the encoding itself. */
module DeltaSpec {
  import opened Bits
  import opened Errors

  /** The length of the run of `data[from]` that starts at `from`, at most `limit`. */
  function RunLength(data: seq<byte>, from: nat, limit: nat): (n: nat)
    requires from < |data| && limit >= 1
    ensures 1 <= n <= limit && from + n <= |data|
    ensures forall i :: from <= i < from + n ==> data[i] == data[from]
    ensures n < limit && from + n < |data| ==> data[from + n] != data[from]
    decreases limit
  {
    if limit == 1 || from + 1 == |data| || data[from + 1] != data[from] then 1
    else 1 + RunLength(data, from + 1, limit - 1)
  }

  function Compress(data: seq<byte>): (p: seq<byte>)
    ensures |p| == 2 * Pairs(data)
  {
    if data == [] then [] else
      var n := RunLength(data, 0, 255);
      [n, data[0]] + Compress(data[n..])
  }

  /** The number of pairs the greedy encoder emits. */
  function Pairs(data: seq<byte>): nat {
    if data == [] then 0 else 1 + Pairs(data[RunLength(data, 0, 255)..])
  }

  function Repeat(v: byte, n: nat): (s: seq<byte>)
    ensures |s| == n && forall i :: 0 <= i < n ==> s[i] == v
  {
    seq(n, _ => v)
  }

  /** Any byte string decodes: counts may be zero and an odd last byte is ignored. */
  function Decompress(p: seq<byte>): seq<byte> {
    if |p| < 2 then [] else Repeat(p[1], p[0]) + Decompress(p[2..])
  }

  lemma {:induction false} DecompressCompress(data: seq<byte>)
    ensures Decompress(Compress(data)) == data
    decreases |data|
  {
    if data != [] {
      var n := RunLength(data, 0, 255);
      DecompressCompress(data[n..]);
      assert Compress(data)[2..] == Compress(data[n..]);
      assert data == Repeat(data[0], n) + data[n..];
    }
  }

  // ---- the greedy encoder is optimal ----

  lemma {:induction false} PairsStep(data: seq<byte>)
    ensures Pairs(data) == if data == [] then 0 else 1 + Pairs(data[RunLength(data, 0, 255)..])
  {
    hide RunLength;
  }

  /** Dropping a prefix never needs more pairs. */
  lemma {:induction false} SuffixNeedsNoMore(s: seq<byte>, j: nat)
    requires j <= |s|
    ensures Pairs(s[j..]) <= Pairs(s)
    decreases |s|, 0
  {
    hide Pairs, RunLength;
    if j == 0 {
      assert s[0..] == s;
    } else if j == |s| {
      assert s[j..] == [];
      PairsStep(s[j..]);
    } else {
      PairsStep(s);
      var n := RunLength(s, 0, 255);
      var tail := s[n..];
      if j >= n {
        SuffixNeedsNoMore(tail, j - n);
        assert tail[j - n..] == s[j..];
      } else {
        RunInFrontAddsOne(s[0], n - j, tail);
        assert s[j..] == Repeat(s[0], n - j) + tail;
      }
    }
  }

  /** A run of at most 255 equal bytes in front costs at most one more pair. */
  lemma {:induction false} RunInFrontAddsOne(v: byte, c: nat, rest: seq<byte>)
    requires 1 <= c <= 255
    ensures Pairs(Repeat(v, c) + rest) <= 1 + Pairs(rest)
    decreases |rest|, 1
  {
    hide Pairs, RunLength;
    var data := Repeat(v, c) + rest;
    PairsStep(data);
    var n := RunLength(data, 0, 255);
    assert forall i :: 0 <= i < c ==> data[i] == v;
    assert n >= c;
    SuffixNeedsNoMore(rest, n - c);
    assert data[n..] == rest[n - c..];
  }

  /** No encoding of `data` in this format is shorter than the greedy one. */
  lemma {:induction false} CompressIsOptimal(p: seq<byte>, data: seq<byte>)
    requires Decompress(p) == data
    ensures |Compress(data)| <= |p|
    decreases |p|
  {
    if |p| >= 2 {
      var rest := Decompress(p[2..]);
      CompressIsOptimal(p[2..], rest);
      if p[0] == 0 {
        assert data == rest;
      } else {
        RunInFrontAddsOne(p[1], p[0], rest);
      }
    }
  }

  // ---- size ----

  function NonZeros(s: seq<byte>): nat {
    if s == [] then 0 else (if s[0] != 0 then 1 else 0) + NonZeros(s[1..])
  }

  lemma {:induction false} ZerosNeed(z: nat)
    ensures Pairs(Repeat(0, z)) <= (z + 254) / 255
    decreases z
  {
    if z > 0 {
      var c := Min(z, 255);
      ZerosNeed(z - c);
      RunInFrontAddsOne(0, c, Repeat(0, z - c));
      assert Repeat(0, z) == Repeat(0, c) + Repeat(0, z - c);
    } else {
      assert Repeat(0, 0) == [];
    }
  }

  lemma RepeatSplit(v: byte, c: nat, z: nat, rest: seq<byte>)
    requires c <= z
    ensures Repeat(v, z) + rest == Repeat(v, c) + (Repeat(v, z - c) + rest)
  {
  }

  lemma ChunkAdds(z: nat, c: nat)
    requires z > 0 && c == Min(z, 255)
    ensures (z - c + 254) / 255 + 1 == (z + 254) / 255
  {
  }

  lemma {:induction false} ZerosInFrontAdd(z: nat, rest: seq<byte>)
    ensures Pairs(Repeat(0, z) + rest) <= (z + 254) / 255 + Pairs(rest)
    decreases z
  {
    hide Pairs, Repeat;
    if z > 0 {
      var c := Min(z, 255);
      ZerosInFrontAdd(z - c, rest);
      RunInFrontAddsOne(0, c, Repeat(0, z - c) + rest);
      RepeatSplit(0, c, z, rest);
      ChunkAdds(z, c);
    } else {
      assert Repeat(0, 0) + rest == rest;
    }
  }

  function LeadingZeros(s: seq<byte>): (z: nat)
    ensures z <= |s| && s[..z] == Repeat(0, z) && (z < |s| ==> s[z] != 0)
    ensures NonZeros(s) == NonZeros(s[z..])
  {
    if s == [] || s[0] != 0 then
      assert s[0..] == s;
      0
    else
      var z := 1 + LeadingZeros(s[1..]);
      assert s[z..] == s[1..][z - 1..];
      assert s[..z] == [s[0]] + s[1..][..z - 1];
      z
  }

  /** A string with `k` bytes that are not zero takes at most `2k + 1 + n/255` pairs. */
  lemma {:induction false} SparseIsSmall(s: seq<byte>)
    ensures Pairs(s) <= 2 * NonZeros(s) + 1 + |s| / 255
    decreases |s|
  {
    var z := LeadingZeros(s);
    if z == |s| {
      ZerosNeed(z);
      assert s == Repeat(0, z);
    } else {
      var rest := s[z + 1..];
      SparseIsSmall(rest);
      RunInFrontAddsOne(s[z], 1, rest);
      ZerosInFrontAdd(z, Repeat(s[z], 1) + rest);
      AtFirstNonZero(s, z);
      assert (z + 254) / 255 + |rest| / 255 <= 1 + |s| / 255;
    }
  }

  lemma {:induction false} AtFirstNonZero(s: seq<byte>, z: nat)
    requires z < |s| && s[z] != 0 && s[..z] == Repeat(0, z) && NonZeros(s) == NonZeros(s[z..])
    ensures s == Repeat(0, z) + (Repeat(s[z], 1) + s[z + 1..])
    ensures NonZeros(s) == 1 + NonZeros(s[z + 1..])
  {
    assert s[z..][1..] == s[z + 1..];
    assert Repeat(s[z], 1) == [s[z]];
  }

  // ---- the delta ----

  /** Bytes past the end of a state count as zero. */
  function ByteAt(s: seq<byte>, i: nat): byte {
    if i < |s| then s[i] else 0
  }

  function XorUpTo(a: seq<byte>, b: seq<byte>, n: nat): (x: seq<byte>)
    ensures |x| == n && forall i :: 0 <= i < n ==> x[i] == XorByte(ByteAt(a, i), ByteAt(b, i))
  {
    seq(n, (i: nat) => XorByte(ByteAt(a, i), ByteAt(b, i)))
  }

  datatype Delta<D> = Delta(prevHash: D, newHash: D, patch: seq<byte>, newLen: nat)

  function Compute<D>(hash: seq<byte> -> D, prev: seq<byte>, next: seq<byte>): Delta<D> {
    Delta(hash(prev), hash(next), Compress(XorUpTo(prev, next, Max(|prev|, |next|))), |next|)
  }

  function Apply<D(==)>(hash: seq<byte> -> D, d: Delta<D>, state: seq<byte>): Result<seq<byte>, DcpError> {
    if hash(state) != d.prevHash then Err(HashMismatch)
    else
      var r := XorUpTo(state, Decompress(d.patch), d.newLen);
      if hash(r) != d.newHash then Err(HashMismatch) else Ok(r)
  }

  /** Exactly when applying a delta yields `r`: both hashes agree, `r` has the announced length, and it differs from the
      state by the decoded patch, byte by byte. Everything else is refused. */
  lemma ApplyIsChecked<D>(hash: seq<byte> -> D, d: Delta<D>, state: seq<byte>, r: seq<byte>)
    ensures Apply(hash, d, state) == Ok(r) <==>
      && hash(state) == d.prevHash && hash(r) == d.newHash && |r| == d.newLen
      && forall i :: 0 <= i < |r| ==> XorByte(ByteAt(state, i), r[i]) == ByteAt(Decompress(d.patch), i)
    ensures Apply(hash, d, state).Err? ==> Apply(hash, d, state) == Err(HashMismatch)
  {
    var p := Decompress(d.patch);
    hide Decompress;
    var x := XorUpTo(state, p, d.newLen);
    forall i | 0 <= i < d.newLen ensures XorByte(ByteAt(state, i), x[i]) == ByteAt(p, i) {
      XorInverse(ByteAt(state, i), ByteAt(p, i));
    }
    if |r| == d.newLen && forall i :: 0 <= i < |r| ==> XorByte(ByteAt(state, i), r[i]) == ByteAt(p, i) {
      forall i | 0 <= i < d.newLen ensures r[i] == x[i] {
        XorInverse(ByteAt(state, i), r[i]);
      }
      assert r == x;
    }
  }

  /** Behind the end of the state the patch is copied, behind that of the patch the state, and behind both are zeros. */
  lemma ApplyCopies<D>(hash: seq<byte> -> D, d: Delta<D>, state: seq<byte>, i: nat)
    requires Apply(hash, d, state).Ok? && i < d.newLen
    ensures var r, p := Apply(hash, d, state).value, Decompress(d.patch);
      && i < |r|
      && (i >= |state| ==> r[i] == if i < |p| then p[i] else 0)
      && (i >= |p| ==> r[i] == if i < |state| then state[i] else 0)
  {
    hide Decompress;
  }

  /** A delta applied to the state it was computed from yields the new state, for any lengths and any hash. */
  lemma ApplyCompute<D>(hash: seq<byte> -> D, prev: seq<byte>, next: seq<byte>)
    ensures Apply(hash, Compute(hash, prev, next), prev) == Ok(next)
  {
    var n := Max(|prev|, |next|);
    var x := XorUpTo(prev, next, n);
    DecompressCompress(x);
    var r := XorUpTo(prev, x, |next|);
    forall i | 0 <= i < |next| ensures r[i] == next[i] {
      XorInverse(ByteAt(prev, i), ByteAt(next, i));
    }
    assert r == next;
  }

  function Differences(a: seq<byte>, b: seq<byte>, n: nat): nat {
    if n == 0 then 0 else Differences(a, b, n - 1) + if ByteAt(a, n - 1) != ByteAt(b, n - 1) then 1 else 0
  }

  lemma {:induction false} NonZerosSnoc(s: seq<byte>, v: byte)
    ensures NonZeros(s + [v]) == NonZeros(s) + if v != 0 then 1 else 0
  {
    if s == [] {
      assert (s + [v])[1..] == [];
    } else {
      NonZerosSnoc(s[1..], v);
      assert (s + [v])[1..] == s[1..] + [v];
    }
  }

  lemma {:induction false} XorCountsDifferences(a: seq<byte>, b: seq<byte>, n: nat)
    ensures NonZeros(XorUpTo(a, b, n)) == Differences(a, b, n)
    decreases n
  {
    if n > 0 {
      XorCountsDifferences(a, b, n - 1);
      XorZero(ByteAt(a, n - 1), ByteAt(b, n - 1));
      var v := XorByte(ByteAt(a, n - 1), ByteAt(b, n - 1));
      NonZerosSnoc(XorUpTo(a, b, n - 1), v);
      assert XorUpTo(a, b, n) == XorUpTo(a, b, n - 1) + [v];
    }
  }

  /** The patch between states that differ in `k` of `n` bytes is at most `2 * (2k + 1 + n/255)` bytes long,
      and no other patch decoding to the same difference is shorter. */
  lemma {:induction false} PatchIsSmall<D>(hash: seq<byte> -> D, prev: seq<byte>, next: seq<byte>, p: seq<byte>)
    ensures var n := Max(|prev|, |next|);
      |Compute(hash, prev, next).patch| <= 2 * (2 * Differences(prev, next, n) + 1 + n / 255)
    ensures Decompress(p) == Decompress(Compute(hash, prev, next).patch) ==>
      |Compute(hash, prev, next).patch| <= |p|
  {
    var n := Max(|prev|, |next|);
    var x := XorUpTo(prev, next, n);
    XorCountsDifferences(prev, next, n);
    SparseIsSmall(x);
    DecompressCompress(x);
    if Decompress(p) == x { CompressIsOptimal(p, x); }
  }
}

module Delta {
  import opened Bits
  import opened Errors
  import opened DeltaSpec

  method RleCompress(data: seq<byte>) returns (result: seq<byte>)
    ensures result == Compress(data)
  {
    hide Compress, RunLength;
    CompressNothing();
    if data == [] { return []; }
    result := [];
    var i := 0;
    ghost var left := data;
    while i < |data|
      invariant i <= |data| && left == data[i..]
      invariant result + Compress(left) == Compress(data)
    {
      var count := CountRun(data, i);
      CompressStep(result, left, count);
      result := result + [count];
      result := result + [data[i]];
      i := i + count;
      left := left[count..];
    }
  }

  /** The inner loop of the encoder. */
  method CountRun(data: seq<byte>, i: nat) returns (count: nat)
    requires i < |data|
    ensures count == RunLength(data[i..], 0, 255)
  {
    var value := data[i];
    count := 1;
    while i + count < |data| && data[i + count] == value && count < 255
      invariant 1 <= count <= 255 && i + count <= |data|
      invariant forall k :: i <= k < i + count ==> data[k] == value
    {
      count := count + 1;
    }
    RunLengthIs(data, i, count);
  }

  lemma {:induction false} CompressStep(result: seq<byte>, left: seq<byte>, count: nat)
    requires left != [] && count == RunLength(left, 0, 255)
    ensures result + [count] + [left[0]] + Compress(left[count..]) == result + Compress(left)
  {
    CompressUnfolds(left);
    hide Compress, RunLength, Pairs;
    PairInFront(result, count, left[0], Compress(left[count..]));
  }

  lemma PairInFront(result: seq<byte>, count: byte, value: byte, rest: seq<byte>)
    ensures result + [count] + [value] + rest == result + ([count, value] + rest)
  {
  }

  lemma CompressNothing()
    ensures Compress([]) == []
  {
  }

  lemma {:induction false} CompressUnfolds(data: seq<byte>)
    requires data != []
    ensures var n := RunLength(data, 0, 255); Compress(data) == [n, data[0]] + Compress(data[n..])
  {
    hide RunLength, Pairs;
  }

  /** The inner loop stops exactly at the length of the run. */
  lemma RunLengthIs(data: seq<byte>, i: nat, count: nat)
    requires 1 <= count <= 255 && i + count <= |data|
    requires forall k :: i <= k < i + count ==> data[k] == data[i]
    requires i + count == |data| || data[i + count] != data[i] || count == 255
    ensures RunLength(data[i..], 0, 255) == count
  {
    var s := data[i..];
    var n := RunLength(s, 0, 255);
    assert forall k :: i <= k < |data| ==> data[k] == s[k - i];
    assert forall k :: 0 <= k < count ==> s[k] == data[i + k];
    assert count <= n;
    assert count < |s| ==> s[count] == data[i + count];
  }

  method RleDecompress(data: seq<byte>) returns (result: seq<byte>)
    ensures result == Decompress(data)
  {
    result := [];
    var i := 0;
    while i + 1 < |data|
      invariant i <= |data|
      invariant result + Decompress(data[i..]) == Decompress(data)
      decreases |data| - i
    {
      hide Decompress;
      DecompressUnfolds(data[i..]);
      var count, value := data[i], data[i + 1];
      ghost var before := result;
      for k := 0 to count
        invariant result == before + Repeat(value, k)
      {
        result := result + [value];
      }
      assert data[i..][2..] == data[i + 2..];
      ConcatAssoc(before, Repeat(value, count), Decompress(data[i + 2..]));
      i := i + 2;
    }
    assert |data[i..]| < 2;
  }

  lemma {:induction false} DecompressUnfolds(p: seq<byte>)
    requires |p| >= 2
    ensures Decompress(p) == Repeat(p[1], p[0]) + Decompress(p[2..])
  {
    hide Repeat;
  }

  method XorBytes(a: seq<byte>, b: seq<byte>, n: nat) returns (x: seq<byte>)
    ensures x == XorUpTo(a, b, n)
  {
    x := [];
    for i := 0 to n
      invariant |x| == i && forall k :: 0 <= k < i ==> x[k] == XorByte(ByteAt(a, k), ByteAt(b, k))
    {
      var aByte := if i < |a| then a[i] else 0;
      var bByte := if i < |b| then b[i] else 0;
      x := x + [XorByte(aByte, bByte)];
    }
  }

  method ComputeDelta<D(==)>(hash: seq<byte> -> D, prev: seq<byte>, next: seq<byte>) returns (d: Delta<D>)
    ensures d == Compute(hash, prev, next)
  {
    var x := XorBytes(prev, next, Max(|prev|, |next|));
    var patch := RleCompress(x);
    return Delta(hash(prev), hash(next), patch, |next|);
  }

  method ApplyDelta<D(==)>(hash: seq<byte> -> D, d: Delta<D>, state: seq<byte>) returns (r: Result<seq<byte>, DcpError>)
    ensures r == Apply(hash, d, state)
  {
    if hash(state) != d.prevHash { return Err(HashMismatch); }
    var x := RleDecompress(d.patch);
    var next := XorBytes(state, x, d.newLen);
    if hash(next) != d.newHash { return Err(HashMismatch); }
    return Ok(next);
  }
}
