/** Compressor and decompressor together: whatever blocks were sent, inflating
    the bytes gives back what they mean, in however many calls. */
module RoundTrip {
  import opened Bits
  import opened Tokens
  import opened InflateSpec
  import opened InflateProps
  import opened BitWriter
  import opened BlockTrees
  import opened BlockStream
  import opened BlockCoder
  import opened BlockFormat
  import opened TokenSender
  import opened Overlay
  import opened StaticTables
  import opened InflateHistory
  import opened InflateState
  import opened Inflate
  import opened DeflateHistory
  import Deflate

  /** A decoder that has been fed a finished stream and cannot go on is done, with
      the meaning of the blocks as output, if it accepts all trees; otherwise it
      has failed, with the meaning of the blocks before the first it refused. */
  lemma Decompresses(bs: seq<Block>, bytes: seq<byte>, m: Machine, p: seq<bool>)
    requires Stream(bs) && BytesBits(bytes) == Aligned(SendAll([], bs))
    requires Fed(bytes, m, p) && Step(m, p) == Stuck
    ensures (forall i :: 0 <= i < |bs| ==> Acceptable(bs[i])) <==> m.mode == DONE
    ensures m.mode == DONE ==> m.out == MeaningAll([], bs) && p == []
    ensures m.mode != DONE ==> m.mode == BAD && m.out <= MeaningAll([], bs)
  {
    hide Reaches, Step, BytesBits, Sendable, Acceptable, SendAll, MeaningAll, AllRefer, Aligned, Open, AllSendable;
    var b := BytesBits(bytes);
    var b1 :| Reaches(InflateSpec.Start(), b, m, b1) && (m.mode == BAD || b1 == p);
    BadIsStuck(m, b1);
    assert b + [] == b;
    if forall i :: 0 <= i < |bs| ==> Acceptable(bs[i]) {
      StreamDecodes(bs, []);
      var d :| Reaches(InflateSpec.Start(), b + [], d, []) && d.mode == DONE && d.out == MeaningAll([], bs);
      DoneIsStuck(d, []);
      StuckUnique(InflateSpec.Start(), b, m, b1, d, []);
    } else {
      var k := FirstRefused(bs, 0);
      StreamRefused(bs, k, []);
      var d, b2 :| Reaches(InflateSpec.Start(), b + [], d, b2) && d.mode == BAD && d.out == MeaningAll([], bs[..k]);
      BadIsStuck(d, b2);
      StuckUnique(InflateSpec.Start(), b, m, b1, d, b2);
      SplitAt([], [], bs, k);
    }
  }

  lemma DoneIsStuck(m: Machine, b: seq<bool>)
    ensures m.mode == DONE ==> Step(m, b) == Stuck
  {
  }

  lemma FirstRefused(bs: seq<Block>, n: nat) returns (k: nat)
    requires n <= |bs| && (forall i :: 0 <= i < n ==> Acceptable(bs[i])) && exists i :: 0 <= i < |bs| && !Acceptable(bs[i])
    ensures k < |bs| && (forall i :: 0 <= i < k ==> Acceptable(bs[i])) && !Acceptable(bs[k])
    decreases |bs| - n
  {
    hide Acceptable;
    if Acceptable(bs[n]) { k := FirstRefused(bs, n + 1); } else { k := n; }
  }

  /** A decoder that was offered all of total, in whatever calls, and can go no
      further: it has finished or failed, or it has taken everything and needs more. */
  ghost predicate Through(z: InflateStream, total: seq<byte>)
    reads z, z.window
  {
    z.Idle() && z.fed <= total && (Halted(z.m) || (z.fed == total && Step(z.m, Pend(z.St())) == Stuck))
  }

  /** Bytes that were not taken would have made no difference. */
  lemma AllOffered(z: InflateStream, total: seq<byte>) returns (p: seq<bool>)
    requires Through(z, total)
    ensures Fed(total, z.m, p) && Step(z.m, p) == Stuck
  {
    hide Fed, Step;
    if Halted(z.m) {
      assert z.fed + total[|z.fed|..] == total;
      p := FedMore(z.fed, total[|z.fed|..], z.m, Pend(z.St()));
    } else {
      p := Pend(z.St());
    }
  }

  /** All that a finished coder wrote, offered to a decoder. */
  lemma InflateOfDeflate(c: Coder, z: InflateStream)
    requires c.Wrote() && c.finished && AllRefer(c.sent, []) && Through(z, c.sink.written)
    ensures (forall i :: 0 <= i < |c.sent| ==> Acceptable(c.sent[i])) <==> z.m.mode == DONE
    ensures z.m.mode == DONE ==> z.m.out == MeaningAll([], c.sent)
  {
    hide Fed, Step, Sendable, Acceptable, SendAll, MeaningAll, AllRefer, Aligned, Through;
    var p := AllOffered(z, c.sink.written);
    Decompresses(c.sent, c.sink.written, z.m, p);
  }

  /** Losslessness of whole runs: all that a finished compressor was ever given,
      in whatever calls and with whatever flushes, tuning and window slides, is
      what a decompressor recovers from what was handed out, in whatever calls. */
  lemma Lossless(d: Deflate.DeflateStream, z: InflateStream)
    requires d.Session() && d.finishing && d.put == d.coder.sink.written
    requires Through(z, d.put)
    ensures (forall i :: 0 <= i < |d.coder.sent| ==> Acceptable(d.coder.sent[i])) <==> z.m.mode == DONE
    ensures z.m.mode == DONE ==> z.m.out == d.hist
  {
    hide Fed, Step, Sendable, Acceptable, SendAll, MeaningAll, AllRefer, Aligned, ExpandAll, ValidTokens, Through;
    d.coder.NoTokens();
    NoTokensExpand(MeaningAll([], d.coder.sent));
    assert d.hist[..|d.hist|] == d.hist;
    InflateOfDeflate(d.coder, z);
  }

  /** A compressor only loses its way in a block that begins with more than eight
      bits for each byte before the tokens, or of which some prefix of the tokens
      takes more than sixteen bits a token. */
  lemma LostIsDense(d: Deflate.DeflateStream)
    requires d.Lost()
    ensures !d.culprit.StoredBlock? && Dense(d.culprit, d.coder.litBufsize, d.culpritBits)
  {
    hide Intact, PrefixBits, AllCodable, TreesBits, FixedLengths, FixedDists;
    var b, size, bits := d.culprit, d.coder.litBufsize, d.culpritBits;
    if !Dense(b, size, bits) {
      if b.StaticBlock? {
        AverageIntact(FixedLengths(), FixedDists(), b.ts, size, bits + 3);
      } else if b.DynamicBlock? {
        AverageIntact(b.tr.ll, b.tr.dl, b.ts, size, bits + 3 + |TreesBits(b.tr.ll, b.tr.dl, b.tr.bl, b.tr.blcodes)|);
      }
    }
  }

  ghost predicate Dense(b: Block, litBufsize: nat, bits: nat)
    requires Sendable(b)
  {
    match b
    case StoredBlock(_, _) => false
    case StaticBlock(_, ts) =>
      bits + 3 > 8 * litBufsize || exists i :: 0 <= i < |ts| && PrefixBits(FixedLengths(), FixedDists(), ts, i) > 16 * i
    case DynamicBlock(_, ts, tr) =>
      bits + 3 + |TreesBits(tr.ll, tr.dl, tr.bl, tr.blcodes)| > 8 * litBufsize ||
      exists i :: 0 <= i < |ts| && PrefixBits(tr.ll, tr.dl, ts, i) > 16 * i
  }

  /** Two decoders that were offered the same input agree in everything that decoding
      depends on, however their calls divided input and output and however much of
      the input they had looked at when they finished or failed. */
  lemma SplitsAgree(y: InflateStream, z: InflateStream, total: seq<byte>)
    requires Through(y, total) && Through(z, total)
    ensures y.m == z.m
  {
    hide Fed, Step, Through;
    var p := AllOffered(y, total);
    var q := AllOffered(z, total);
    SameInput(total, y.m, p, z.m, q);
  }
}
