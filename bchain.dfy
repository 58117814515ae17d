/**
 * The block chain: an ordered list of fixed-size physical blocks presented
 * as one logical byte range over a read-only device.
 */
module BlockChain {
  import opened Bytes

  type Pos = n: nat | n > 0 witness 1

  /**
   * The device image. A read call returns at most `chunk` bytes, so short
   * reads are possible; it returns nothing only at end of file.
   */
  datatype Device = Device(data: seq<byte>, chunk: Pos) {

    /** `f.seek(at); f.read(k)`. */
    function ReadAt(at: nat, k: nat): (b: seq<byte>)
      ensures |b| <= k
      ensures b == [] <==> k == 0 || at >= |data|
      ensures b != [] ==> at + |b| <= |data| && b == data[at..at + |b|]
    {
      if at >= |data| then [] else data[at..at + Min(Min(k, chunk), |data| - at)]
    }
  }

  /**
   * Why a chain read fails: the position lies outside the chain (Python's
   * ZeroDivisionError or IndexError), or the device ended inside a block
   * (the IOError naming the block number and the byte within it).
   */
  datatype IoError = OutOfChain(pos: nat) | Eof(block: nat, byte: nat)

  /** Prepends `p` to a successful result. */
  function Prefixed<E>(p: seq<byte>, r: Result<seq<byte>, E>): Result<seq<byte>, E>
  {
    match r
    case Ok(s) => Ok(p + s)
    case Err(e) => Err(e)
  }

  lemma PrefixedTwice<E>(p: seq<byte>, q: seq<byte>, r: Result<seq<byte>, E>)
    ensures Prefixed(p, Prefixed(q, r)) == Prefixed(p + q, r)
  {
    if r.Ok? {
      assert p + (q + r.value) == (p + q) + r.value;
    }
  }

  lemma DivModUnique(x: nat, d: nat, q: nat, r: nat)
    requires 0 <= r < d && x == q * d + r
    ensures x / d == q && x % d == r
  {
    var q', r' := x / d, x % d;
    assert x == q' * d + r';
    if q' < q {
      assert q * d == q' * d + (q - q') * d;
      MulAtLeast(q - q', d);
    } else if q < q' {
      assert q' * d == q * d + (q' - q) * d;
      MulAtLeast(q' - q, d);
    }
  }

  lemma MulAtLeast(a: nat, d: nat)
    requires a >= 1
    ensures a * d >= d
  {
    assert a * d == (a - 1) * d + d;
  }

  lemma MulMono(a: nat, b: nat, d: nat)
    requires a <= b
    ensures a * d <= b * d
  {
    assert b * d == a * d + (b - a) * d;
  }

  /** A position's block index is below `count` exactly when the position is below `count` blocks. */
  lemma BlockIndexBound(pos: nat, d: nat, count: nat)
    requires d > 0
    ensures pos / d < count <==> pos < count * d
  {
    var n, p := pos / d, pos % d;
    assert pos == n * d + p;
    if n < count {
      MulMono(n + 1, count, d);
      assert (n + 1) * d == n * d + d;
    } else {
      MulMono(count, n, d);
    }
  }

  class BChain {
    const f: Device
    const blist: seq<nat>
    const bsize: nat
    const boffs: nat

    constructor (f: Device, blist: seq<nat>, bsize: nat, boffs: nat)
      ensures this.f == f && this.blist == blist && this.bsize == bsize && this.boffs == boffs
    {
      this.f := f;
      this.blist := blist;
      this.bsize := bsize;
      this.boffs := boffs;
    }

    /** `len(chain)`. */
    function Length(): nat
    {
      |blist| * bsize
    }

    /** The block index of `pos` exists (Python would divide by zero or index past blist). */
    predicate InChain(pos: nat)
    {
      bsize > 0 && pos / bsize < |blist|
    }

    lemma InChainIff(pos: nat)
      ensures InChain(pos) <==> pos < Length()
    {
      if bsize > 0 {
        BlockIndexBound(pos, bsize, |blist|);
      }
    }

    /** `offs(pos)`: the device offset of logical byte `pos`; it lies inside block blist[pos / bsize]. */
    function Offs(pos: nat): nat
      requires InChain(pos)
    {
      boffs + blist[pos / bsize] * bsize + pos % bsize
    }

    /** Device byte offs(pos) lies inside physical block blist[pos / bsize]. */
    lemma OffsInBlock(pos: nat)
      requires InChain(pos)
      ensures var start := boffs + blist[pos / bsize] * bsize;
        start <= Offs(pos) < start + bsize
    {
    }

    /** The logical byte `pos` exists in the chain and on the device. */
    predicate Backed(pos: nat)
    {
      InChain(pos) && Offs(pos) < |f.data|
    }

    /** Logical bytes in one block sit at consecutive device offsets. */
    lemma OffsWithinBlock(pos: nat, j: nat)
      requires InChain(pos) && pos % bsize + j < bsize
      ensures InChain(pos + j) && (pos + j) / bsize == pos / bsize
      ensures Offs(pos + j) == Offs(pos) + j
    {
      var n, p := pos / bsize, pos % bsize;
      assert pos + j == n * bsize + (p + j);
      DivModUnique(pos + j, bsize, n, p + j);
    }

    /** How many bytes `_read(pos, size)` asks for: the request clipped to the end of the block. */
    function PartLen(pos: nat, size: nat): nat
      requires bsize > 0
    {
      Min(size, bsize - pos % bsize)
    }

    /** What `_read(pos, size)` returns or raises. */
    function ReadPartSpec(pos: nat, size: nat): (r: Result<seq<byte>, IoError>)
      ensures r.Ok? ==> InChain(pos) && |r.value| == PartLen(pos, size)
    {
      if !InChain(pos) then Err(OutOfChain(pos))
      else
        var o := Offs(pos);
        var k := PartLen(pos, size);
        var avail := if o <= |f.data| then |f.data| - o else 0;
        if k == 0 then Ok([])
        else if k <= avail then Ok(f.data[o..o + k])
        else Err(Eof(blist[pos / bsize], pos % bsize + avail))
    }

    /**
     * The read loop of `_read`: from device offset `o`, call read until `want`
     * bytes have arrived or a read returns nothing. It yields exactly the
     * device bytes of [o, o + want) that exist.
     */
    method ReadRun(o: nat, want: nat) returns (buf: seq<byte>)
      ensures buf == f.data[Min(o, |f.data|)..Min(o + want, |f.data|)]
    {
      var at := o;
      buf := [];
      while |buf| < want
        invariant |buf| <= want && at == o + |buf|
        invariant buf != [] ==> at <= |f.data| && buf == f.data[o..at]
        decreases want - |buf|
      {
        var b := f.ReadAt(at, want - |buf|);
        if b == [] {
          return;
        }
        buf := buf + b;
        at := at + |b|;
      }
    }

    /**
     * `_read`: seek to offs(pos), clip the request to the end of the block,
     * and read until it is complete or the device ends.
     */
    method ReadPart(pos: nat, size: nat) returns (r: Result<seq<byte>, IoError>)
      ensures r == ReadPartSpec(pos, size)
    {
      if bsize == 0 || pos / bsize >= |blist| {
        return Err(OutOfChain(pos));
      }
      var n, p := pos / bsize, pos % bsize;
      var o := boffs + blist[n] * bsize + p;
      assert o == Offs(pos);
      var want := size;
      if p + want > bsize {
        want := bsize - p;
      }
      assert want == PartLen(pos, size);
      var buf := ReadRun(o, want);
      if |buf| < want {
        return Err(Eof(blist[n], p + |buf|));
      }
      return Ok(buf);
    }

    /**
     * `_read` stays in one block: it succeeds exactly when the position is in
     * the chain and the last requested byte is on the device.
     */
    lemma ReadPartOk(pos: nat, size: nat)
      requires size > 0
      ensures ReadPartSpec(pos, size).Ok? <==>
        InChain(pos) && Backed(pos + PartLen(pos, size) - 1)
    {
      if InChain(pos) {
        OffsWithinBlock(pos, PartLen(pos, size) - 1);
      }
    }

    /** Byte j of what `_read(pos, size)` returns is the device byte at offs(pos + j). */
    lemma ReadPartBytes(pos: nat, size: nat, j: nat)
      requires ReadPartSpec(pos, size).Ok? && j < |ReadPartSpec(pos, size).value|
      ensures Backed(pos + j) && ReadPartSpec(pos, size).value[j] == f.data[Offs(pos + j)]
    {
      OffsWithinBlock(pos, j);
    }

    /** What `read(pos, size)` returns or raises. */
    function ReadSpec(pos: nat, size: nat): (r: Result<seq<byte>, IoError>)
      ensures r.Ok? ==> |r.value| == size
      decreases size
    {
      if size == 0 then Ok([])
      else
        match ReadPartSpec(pos, size)
        case Err(e) => Err(e)
        case Ok(b) => Prefixed(b, ReadSpec(pos + |b|, size - |b|))
    }

    lemma ReadAdvance(pos: nat, size: nat, buf: seq<byte>, b: seq<byte>)
      requires |buf| < size && ReadPartSpec(pos + |buf|, size - |buf|) == Ok(b)
      requires ReadSpec(pos, size) == Prefixed(buf, ReadSpec(pos + |buf|, size - |buf|))
      ensures 0 < |b| && |buf + b| <= size
      ensures ReadSpec(pos, size) == Prefixed(buf + b, ReadSpec(pos + |buf + b|, size - |buf + b|))
    {
      PrefixedTwice(buf, b, ReadSpec(pos + |buf| + |b|, size - |buf| - |b|));
    }

    /** `read`: concatenate block-clipped reads until `size` bytes are assembled. */
    method Read(pos: nat, size: nat) returns (r: Result<seq<byte>, IoError>)
      ensures r == ReadSpec(pos, size)
    {
      var buf: seq<byte> := [];
      assert ReadSpec(pos, size) == Prefixed(buf, ReadSpec(pos, size)) by {
        if ReadSpec(pos, size).Ok? {
          assert buf + ReadSpec(pos, size).value == ReadSpec(pos, size).value;
        }
      }
      while |buf| < size
        invariant |buf| <= size
        invariant ReadSpec(pos, size) == Prefixed(buf, ReadSpec(pos + |buf|, size - |buf|))
        decreases size - |buf|
      {
        var part := ReadPart(pos + |buf|, size - |buf|);
        if part.Err? {
          return Err(part.error);
        }
        ReadAdvance(pos, size, buf, part.value);
        buf := buf + part.value;
      }
      assert ReadSpec(pos + |buf|, 0) == Ok([]) && buf + [] == buf;
      return Ok(buf);
    }

    /**
     * `read(pos, size)` succeeds exactly when every logical byte of
     * [pos, pos+size) is in the chain and on the device.
     */
    lemma {:induction false} ReadOk(pos: nat, size: nat)
      ensures ReadSpec(pos, size).Ok? <==> forall q :: pos <= q < pos + size ==> Backed(q)
      decreases size
    {
      if size > 0 {
        ReadPartOk(pos, size);
        var part := ReadPartSpec(pos, size);
        if part.Ok? {
          var n := |part.value|;
          ReadOk(pos + n, size - n);
          forall q | pos <= q < pos + n ensures Backed(q) {
            ReadPartBytes(pos, size, q - pos);
          }
        } else if InChain(pos) {
          assert !Backed(pos + PartLen(pos, size) - 1);
        } else {
          assert !Backed(pos);
        }
      }
    }

    /** Byte k of what `read(pos, size)` returns is the device byte at offs(pos + k). */
    lemma {:induction false} ReadBytes(pos: nat, size: nat, k: nat)
      requires ReadSpec(pos, size).Ok? && k < size
      ensures Backed(pos + k) && ReadSpec(pos, size).value[k] == f.data[Offs(pos + k)]
      decreases size
    {
      var b := ReadPartSpec(pos, size).value;
      if k < |b| {
        ReadPartBytes(pos, size, k);
      } else {
        ReadBytes(pos + |b|, size - |b|, k - |b|);
        assert pos + k == (pos + |b|) + (k - |b|);
      }
    }

    /**
     * `read` correctness: for pos + size <= len(chain) with every block on the
     * device, it returns exactly `size` bytes, byte k being the device byte at
     * offs(pos + k).
     */
    lemma ReadCorrect(pos: nat, size: nat)
      requires pos + size <= Length()
      requires forall q :: pos <= q < pos + size ==> InChain(q) && Offs(q) < |f.data|
      ensures ReadSpec(pos, size).Ok? && |ReadSpec(pos, size).value| == size
      ensures forall k :: 0 <= k < size ==> ReadSpec(pos, size).value[k] == f.data[Offs(pos + k)]
    {
      ReadOk(pos, size);
      forall k | 0 <= k < size
        ensures ReadSpec(pos, size).value[k] == f.data[Offs(pos + k)]
      {
        ReadBytes(pos, size, k);
      }
    }

    /**
     * Reading 600 bytes at logical offset 400 of the chain [3, 7, 9] with
     * 512-byte blocks takes two block-clipped reads: the tail of block 3 and
     * the first 488 bytes of block 7.
     */
    lemma SpanningReadExample()
      requires blist == [3, 7, 9] && bsize == 512 && boffs == 0 && |f.data| >= 8 * 512
      ensures ReadPartSpec(400, 600) == Ok(f.data[3 * 512 + 400..4 * 512])
      ensures ReadPartSpec(512, 488) == Ok(f.data[7 * 512..7 * 512 + 488])
      ensures ReadSpec(400, 600) == Ok(f.data[3 * 512 + 400..4 * 512] + f.data[7 * 512..7 * 512 + 488])
    {
      assert Offs(400) == 3 * 512 + 400;
      assert Offs(512) == 7 * 512;
      assert ReadSpec(1000, 0) == Ok([]);
      assert ReadSpec(512, 488) == Prefixed(f.data[7 * 512..7 * 512 + 488], ReadSpec(1000, 0));
      assert f.data[7 * 512..7 * 512 + 488] + [] == f.data[7 * 512..7 * 512 + 488];
    }
  }
}
