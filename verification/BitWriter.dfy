/** The output bit buffer of deps/zlib/trees.c. */
module BitWriter {
  import opened Bits

  const BUF_SIZE: nat := 16

  /** Whole bytes that have left the 16-bit buffer after so many bits, if they
      were sent by send_bits() alone: two at a time, as late as possible. */
  function BytesOut(bits: nat): nat { if bits == 0 then 0 else (bits - 1) / 16 * 2 }

  /** Buffer, pending bytes in it, and all bytes ever written. */
  datatype SinkState = SinkState(mem: seq<byte>, count: nat, written: seq<byte>)

  /** What sending changes: the buffer is written in order, the rest of it stays. */
  predicate Grown(a: SinkState, b: SinkState)
  {
    && |a.mem| == |b.mem| && a.count <= b.count && a.written <= b.written
    && forall k :: b.count <= k < |b.mem| ==> b.mem[k] == a.mem[k]
  }

  lemma GrownSelf(a: SinkState)
    ensures Grown(a, a)
  {
  }

  lemma GrownTrans(a: SinkState, b: SinkState, c: SinkState)
    requires Grown(a, b) && Grown(b, c)
    ensures Grown(a, c)
  {
  }

  /** bi_buf, bi_valid and the pending output of a deflate stream. The bytes of buf
      from out on are pending; those before have been handed out. */
  class BitSink {
    const buf: array<byte>
    var count: nat
    var out: nat
    var biBuf: nat
    var biValid: nat
    ghost var written: seq<byte>

    ghost predicate Valid()
      reads this, buf
    {
      && biValid <= BUF_SIZE && biBuf < Pow2(biValid)
      && out + count <= buf.Length && count <= |written| && buf[out..out + count] == written[|written| - count..]
      && (if out > 0 then biValid < 8 && count > 0 else 8 * count + biValid <= 8 * buf.Length)
    }

    /** Nothing has been handed out of what is pending: put_byte() may be used. */
    ghost predicate Open()
      reads this, buf
    {
      Valid() && out == 0
    }

    /** All bits sent so far. */
    ghost function Stream(): seq<bool>
      reads `written, `biBuf, `biValid
    {
      BytesBits(written) + ToBits(biBuf, biValid)
    }

    /** How long the stream can become before the buffer is full. */
    ghost function Limit(): int
      reads `written, `count
    {
      8 * (|written| - count + buf.Length)
    }

    /** Bits in both buffers. */
    function Bits(): nat
      reads `count, `biValid
    {
      8 * count + biValid
    }

    /** Only send_bits() has been used since the buffer was empty. */
    ghost predicate Paced()
      reads `count, `biValid
    {
      count == BytesOut(Bits())
    }

    ghost function St(): SinkState
      reads this, buf
    {
      SinkState(buf[..], count, written)
    }

    constructor (size: nat)
      ensures Open() && Stream() == [] && written == [] && count == 0 && biValid == 0 && buf.Length == size && fresh(buf)
    {
      buf := new byte[size];
      count, out, biBuf, biValid, written := 0, 0, 0, 0, [];
    }

    /** put_byte() */
    method PutByte(c: byte)
      requires out == 0 && count < buf.Length && count <= |written| && buf[..count] == written[|written| - count..]
      modifies `count, `written, buf
      ensures count == old(count) + 1 && written == old(written) + [c] && buf[..count] == written[|written| - count..]
      ensures forall k :: count <= k < buf.Length ==> buf[k] == old(buf[k])
    {
      buf[count] := c;
      count := count + 1;
      written := written + [c];
      assert buf[..count] == old(buf[..count]) + [c];
    }

    /** Low byte first. */
    method PutShort(w: nat)
      requires w < 0x10000 && out == 0 && count + 2 <= buf.Length && count <= |written| && buf[..count] == written[|written| - count..]
      modifies `count, `written, buf
      ensures count == old(count) + 2 && |written| == |old(written)| + 2 && buf[..count] == written[|written| - count..]
      ensures BytesBits(written) == BytesBits(old(written)) + ToBits(w, 16) && old(written) <= written
      ensures forall k :: count <= k < buf.Length ==> buf[k] == old(buf[k])
    {
      hide BytesBits, ToBits, Low, Shr;
      ShortBytes(w);
      PutByte(Low(w, 8));
      PutByte(Shr(w, 8));
      BytesBitsConcat(old(written), [Low(w, 8), Shr(w, 8)]);
      assert old(written) + [Low(w, 8)] + [Shr(w, 8)] == old(written) + [Low(w, 8), Shr(w, 8)];
    }

    /** Send the length low bits of value. */
    method SendBits(value: nat, length: nat)
      requires Open() && 1 <= length <= 16 && value < Pow2(length) && |Stream()| + length <= Limit()
      modifies this, buf
      ensures Open() && Limit() == old(Limit()) && Grown(old(St()), St())
      ensures Stream() == old(Stream()) + ToBits(value, length) && (old(Paced()) ==> Paced())
    {
      hide Or, Shl, Shr, Low, ToBits, Pow2, BytesBits, BytesOut;
      PacedStep(count, biValid, length);
      if biValid > BUF_SIZE - length {
        Spill(value, length);
      } else {
        OrDisjoint(biBuf, value, biValid);
        RoomFits(biBuf, biValid, value, length);
        Regroup(BytesBits(written), ToBits(biBuf, biValid), ToBits(value, length));
        biBuf := Low(Or(biBuf, Shl(value, biValid)), 16);
        biValid := biValid + length;
      }
    }

    /** The bits do not fit: write out sixteen. */
    method Spill(value: nat, length: nat)
      requires Open() && 1 <= length <= 16 && value < Pow2(length) && biValid > BUF_SIZE - length && |Stream()| + length <= Limit()
      modifies this, buf
      ensures Open() && Limit() == old(Limit()) && Grown(old(St()), St())
      ensures Stream() == old(Stream()) + ToBits(value, length)
      ensures count == old(count) + 2 && biValid == old(biValid) + length - BUF_SIZE
    {
      hide Or, Shl, Shr, Low, ToBits, Pow2, BytesBits;
      OrDisjoint(biBuf, value, biValid);
      SpillSplit(biBuf, biValid, value, length);
      Regroup(BytesBits(written), ToBits(biBuf, biValid), ToBits(value, length));
      ghost var lower := Low(biBuf + Shl(value, biValid), 16);
      Regroup(BytesBits(written), ToBits(lower, 16), ToBits(Shr(value, BUF_SIZE - biValid), biValid + length - BUF_SIZE));
      biBuf := Low(Or(biBuf, Shl(value, biValid)), 16);
      PutShort(biBuf);
      biBuf := Shr(value, BUF_SIZE - biValid);
      biValid := biValid + length - BUF_SIZE;
    }

    /** Write out whole bytes of the buffer. */
    method BiFlush()
      requires Valid()
      modifies this, buf
      ensures Valid() && Stream() == old(Stream()) && biValid < 8 && Limit() == old(Limit())
      ensures old(count) <= count && old(written) <= written && out == old(out)
      ensures old(biValid) < 8 ==> count == old(count) && written == old(written) && biValid == old(biValid)
    {
      hide Low, Shr, ToBits, BytesBits, Pow2;
      EmptyBits();
      if biValid == 16 {
        Pow2Values();
        PutShort(biBuf);
        biBuf := 0;
        biValid := 0;
      } else if biValid >= 8 {
        FlushByte(biBuf, biValid, written);
        PutByte(Low(biBuf, 8));
        biBuf := Shr(biBuf, 8);
        biValid := biValid - 8;
      }
    }

    /** Write out the buffer, filling the last byte with zero bits. */
    method BiWindup()
      requires Open()
      modifies this, buf
      ensures Open() && Limit() == old(Limit()) && Grown(old(St()), St())
      ensures biValid == 0 && Stream() == BytesBits(written)
      ensures Stream() == Aligned(old(Stream()))
    {
      hide BytesBits, ToBits, Aligned;
      WindupPads(written, biBuf, biValid);
      EmptyBits();
      if biValid > 8 {
        PutShort(biBuf);
      } else if biValid > 0 {
        WindupByte(written, biBuf);
        PutByte(biBuf);
      }
      biBuf := 0;
      biValid := 0;
    }

    /** Copy a stored block with its length and the complement of that. */
    method CopyBlock(data: seq<byte>)
      requires Open() && |data| <= 0xFFFF && |Aligned(Stream())| + 32 + 8 * |data| <= Limit()
      modifies this, buf
      ensures Open() && Limit() == old(Limit()) && Grown(old(St()), St())
      ensures biValid == 0
      ensures Stream() == Aligned(old(Stream())) + ToBits(|data|, 16) + ToBits(0xFFFF - |data|, 16) + BytesBits(data)
    {
      hide BytesBits, Aligned, ToBits;
      BiWindup();
      PutShort(|data|);
      PutShort(0xFFFF - |data|);
      BytesBitsConcat(written, data);
      NoBitsLeft(written);
      NoBitsLeft(written + data);
      CopyBytes(data);
    }

    /** while (len--) put_byte(s, *buf++) */
    method CopyBytes(data: seq<byte>)
      requires Open() && biValid == 0 && biBuf == 0 && count + |data| <= buf.Length
      modifies `count, `written, buf
      ensures Open() && Limit() == old(Limit()) && Grown(old(St()), St())
      ensures written == old(written) + data
    {
      for i := 0 to |data|
        invariant written == old(written) + data[..i] && Open() && Limit() == old(Limit()) && Grown(old(St()), St()) && count == old(count) + i
      {
        PutByte(data[i]);
      }
      assert data[..|data|] == data;
    }

    /** What flush_pending() hands out when there is room for avail bytes. */
    method TakePending(avail: nat) returns (bytes: seq<byte>)
      requires Valid() && biValid < 8
      modifies `count, `out
      ensures Valid() && |bytes| == (if old(count) > avail then avail else old(count)) && count == old(count) - |bytes|
      ensures bytes == written[|written| - old(count)..|written| - count] && (count == 0 ==> out == 0)
    {
      hide BytesBits, Pow2;
      var len := if count > avail then avail else count;
      bytes := buf[out..out + len];
      Taken(buf[..], written, out, count, len);
      out := if count == len then 0 else out + len;
      count := count - len;
    }
  }

  lemma Taken(buf: seq<byte>, written: seq<byte>, out: nat, count: nat, len: nat)
    requires out + count <= |buf| && len <= count <= |written| && buf[out..out + count] == written[|written| - count..]
    ensures buf[out..out + len] == written[|written| - count..|written| - (count - len)]
    ensures buf[out + len..out + count] == written[|written| - (count - len)..]
  {
    assert buf[out..out + count][..len] == buf[out..out + len];
    assert buf[out..out + count][len..] == buf[out + len..out + count];
  }

  lemma Regroup(a: seq<bool>, b: seq<bool>, c: seq<bool>)
    ensures a + b + c == a + (b + c)
  {
  }

  lemma NoBitsLeft(w: seq<byte>)
    ensures BytesBits(w) + ToBits(0, 0) == BytesBits(w)
  {
  }

  /** Two bytes leave when more than sixteen bits would have to be kept. */
  lemma PacedStep(count: nat, valid: nat, length: nat)
    requires valid <= BUF_SIZE && 1 <= length <= 16
    ensures count == BytesOut(8 * count + valid) ==>
              BytesOut(8 * count + valid + length) == if valid > BUF_SIZE - length then count + 2 else count
  {
  }

  /** Zero bits up to the next byte boundary. */
  function Padding(n: nat): seq<bool>
  {
    seq((8 - n % 8) % 8, i => false)
  }

  function Aligned(b: seq<bool>): (r: seq<bool>)
    ensures |r| % 8 == 0 && b <= r && |r| < |b| + 8
  {
    b + Padding(|b|)
  }

  // ---------- shifts inside the buffer ----------

  lemma EmptyBits()
    ensures ToBits(0, 0) == [] && Pow2(0) == 1
  {
  }

  lemma ShortBytes(w: nat)
    requires w < 0x10000
    ensures Low(w, 8) < 256 && Shr(w, 8) < 256
    ensures BytesBits([Low(w, 8), Shr(w, 8)]) == ToBits(w, 16)
  {
    LowShr(w, 8);
    Pow2Values();
    ShrBound(w, 8, 8);
    ToSplit(w, 8, 8);
    ToLow(w, 8);
    var lo, hi := Low(w, 8), Shr(w, 8);
    assert [lo, hi][1..] == [hi] && [hi][1..] == [];
    assert ToBits(hi, 8) + [] == ToBits(hi, 8);
  }

  lemma SpillSplit(buf: nat, valid: nat, value: nat, length: nat)
    requires valid <= 16 && 1 <= length <= 16 && valid > 16 - length
    requires buf < Pow2(valid) && value < Pow2(length)
    ensures var x := buf + Shl(value, valid);
            && Low(x, 16) < 0x10000 && Shr(value, 16 - valid) < Pow2(valid + length - 16)
            && ToBits(buf, valid) + ToBits(value, length) ==
                 ToBits(Low(x, 16), 16) + ToBits(Shr(value, 16 - valid), valid + length - 16)
  {
    hide ToBits, Low, Shr, Shl, Pow2;
    var x := buf + Shl(value, valid);
    ToConcat(buf, valid, value, length);
    ToSplit(x, 16, valid + length - 16);
    ToLow(x, 16);
    LowShr(x, 16);
    Pow2Values();
    ShrShr(x, valid, 16 - valid);
    LowShrUnique(buf, value, valid);
    ShrBound(value, 16 - valid, valid + length - 16);
  }

  lemma RoomFits(buf: nat, valid: nat, value: nat, length: nat)
    requires valid + length <= 16 && buf < Pow2(valid) && value < Pow2(length)
    ensures var x := buf + Shl(value, valid);
            && Low(x, 16) == x && x < Pow2(valid + length)
            && ToBits(x, valid + length) == ToBits(buf, valid) + ToBits(value, length)
  {
    hide Low, ToBits, Shl, Pow2;
    ToConcat(buf, valid, value, length);
    SumFits(buf, valid, value, length);
    Pow2Mono(valid + length, 16);
    LowSmall(buf + Shl(value, valid), 16);
  }

  lemma FlushByte(buf: nat, valid: nat, pending: seq<byte>)
    requires 8 <= valid <= 16 && buf < Pow2(valid)
    ensures Low(buf, 8) < 256 && Shr(buf, 8) < Pow2(valid - 8)
    ensures BytesBits(pending + [Low(buf, 8)]) + ToBits(Shr(buf, 8), valid - 8) ==
            BytesBits(pending) + ToBits(buf, valid)
  {
    hide Low, Shr, ToBits, BytesBits, Shl;
    LowShr(buf, 8);
    Pow2Values();
    ShrBound(buf, 8, valid - 8);
    ToSplit(buf, 8, valid - 8);
    ToLow(buf, 8);
    OneByte(pending, Low(buf, 8));
    assert BytesBits(pending) + (ToBits(Low(buf, 8), 8) + ToBits(Shr(buf, 8), valid - 8)) ==
           (BytesBits(pending) + ToBits(Low(buf, 8), 8)) + ToBits(Shr(buf, 8), valid - 8);
  }

  lemma OneByte(pending: seq<byte>, c: byte)
    ensures BytesBits(pending + [c]) == BytesBits(pending) + ToBits(c, 8)
  {
    BytesBitsConcat(pending, [c]);
    assert [c][1..] == [];
    assert ToBits(c, 8) + [] == ToBits(c, 8);
  }

  lemma WindupByte(pending: seq<byte>, buf: nat)
    requires buf < Pow2(8)
    ensures buf < 256 && BytesBits(pending + [buf]) == BytesBits(pending) + ToBits(buf, 8)
  {
    Pow2Values();
    OneByte(pending, buf);
  }

  /** Bits above the valid ones are zero, so writing whole bytes pads with zeros. */
  lemma WindupPads(pending: seq<byte>, buf: nat, valid: nat)
    requires valid <= 16 && buf < Pow2(valid)
    ensures buf < 0x10000 && (valid <= 8 ==> buf < Pow2(8))
    ensures var n := if valid > 8 then 16 else if valid > 0 then 8 else 0;
            BytesBits(pending) + ToBits(buf, n) == Aligned(BytesBits(pending) + ToBits(buf, valid))
    ensures BytesBits(pending) + ToBits(0, 0) == BytesBits(pending)
  {
    hide ToBits, BytesBits, Pow2;
    Pow2Mono(valid, 16);
    Pow2Values();
    EmptyBits();
    if valid <= 8 { Pow2Mono(valid, 8); }
    PadTo(BytesBits(pending), buf, valid, if valid > 8 then 16 else if valid > 0 then 8 else 0);
  }

  lemma PadCount(m: nat, valid: nat, n: nat)
    requires m % 8 == 0 && valid <= n < valid + 8 && n % 8 == 0
    ensures (8 - (m + valid) % 8) % 8 == n - valid
  {
    var p := n - valid;
    assert (m + valid + p) % 8 == 0;
  }

  lemma PadTo(b: seq<bool>, buf: nat, valid: nat, n: nat)
    requires |b| % 8 == 0 && buf < Pow2(valid) && valid <= n < valid + 8 && n % 8 == 0
    ensures b + ToBits(buf, n) == Aligned(b + ToBits(buf, valid))
  {
    hide ToBits, Shr, Low;
    ToSplit(buf, valid, n - valid);
    LowSmall(buf, valid);
    ZeroBits(n - valid);
    PadCount(|b|, valid, n);
    assert b + (ToBits(buf, valid) + ToBits(0, n - valid)) == (b + ToBits(buf, valid)) + ToBits(0, n - valid);
  }

  lemma {:induction false} ZeroBits(n: nat)
    ensures ToBits(0, n) == seq(n, i => false)
  {
    if n > 0 { ZeroBits(n - 1); }
  }

  /** Bytes already written stay what they are when bits are appended. */
  lemma {:induction false} BytesStay(a: seq<byte>, x: seq<bool>, b: seq<byte>, y: seq<bool>)
    requires BytesBits(a) + x <= BytesBits(b) + y && |a| <= |b|
    ensures a <= b
    decreases |a|
  {
    hide ToBits, BytesBits;
    if a != [] {
      FirstByteBits(a, x);
      FirstByteBits(b, y);
      var p, q := BytesBits(a) + x, BytesBits(b) + y;
      assert p[..8] == q[..8] && p[8..] <= q[8..];
      FromTo(a[0], 8);
      FromTo(b[0], 8);
      Pow2Values();
      LowSmall(a[0], 8);
      LowSmall(b[0], 8);
      BytesStay(a[1..], x, b[1..], y);
    }
  }

  lemma FirstByteBits(a: seq<byte>, x: seq<bool>)
    requires a != []
    ensures |BytesBits(a) + x| >= 8 && (BytesBits(a) + x)[..8] == ToBits(a[0], 8)
    ensures (BytesBits(a) + x)[8..] == BytesBits(a[1..]) + x
  {
    hide ToBits;
    FirstPart(ToBits(a[0], 8), BytesBits(a[1..]), x);
  }

  lemma FirstPart(t: seq<bool>, r: seq<bool>, x: seq<bool>)
    ensures (t + r + x)[..|t|] == t && (t + r + x)[|t|..] == r + x
  {
  }
}
