/** Whole deflate streams: what a sequence of blocks looks like in bits, what it
    means, and that the decoder recovers exactly that. */
module BlockStream {
  import opened Bits
  import opened HuffmanCode
  import opened TableTheory
  import opened InflateTable
  import opened Tokens
  import opened InflateSpec
  import opened InflateProps
  import opened BlockFormat
  import opened BitWriter
  import opened BlockTrees
  import opened InflateHistory

  datatype Block = StoredBlock(last: bool, data: seq<byte>)
                 | StaticBlock(last: bool, ts: seq<Token>)
                 | DynamicBlock(last: bool, ts: seq<Token>, tr: Trees)

  /** A block that the compressor may send. */
  ghost predicate Sendable(b: Block)
  {
    match b
    case StoredBlock(_, data) => |data| <= 0xFFFF
    case StaticBlock(_, ts) => AllCodable(FixedLengths(), FixedDists(), ts) && Used(FixedLengths(), END_BLOCK)
    case DynamicBlock(_, ts, tr) => TreesFor(tr, ts)
  }

  /** The stream s with block b appended. */
  ghost function Send(s: seq<bool>, b: Block): (r: seq<bool>)
    requires Sendable(b)
    ensures s <= r
  {
    match b
    case StoredBlock(last, data) =>
      Aligned(s + HeaderBits(STORED_BLOCK, last)) + ToBits(|data|, 16) + ToBits(0xFFFF - |data|, 16) + BytesBits(data)
    case StaticBlock(last, ts) => s + StaticBits(last, ts)
    case DynamicBlock(last, ts, tr) => s + DynamicBits(last, tr.ll, tr.dl, tr.bl, tr.blcodes, ts)
  }

  /** The tokens of a block only refer to output that exists. */
  predicate Refers(b: Block, out: nat) { b.StoredBlock? || ValidTokens(b.ts, out) }

  /** The output after a block. */
  function Meaning(out: seq<byte>, b: Block): (r: seq<byte>)
    requires Refers(b, |out|)
    ensures out <= r
  {
    if b.StoredBlock? then out + b.data else ExpandAll(out, b.ts)
  }

  /** The decoder accepts the trees of the block. */
  ghost predicate Acceptable(b: Block) { b.DynamicBlock? ==> BothFit(b.tr.ll, b.tr.dl) }

  ghost predicate AllSendable(bs: seq<Block>) { forall i :: 0 <= i < |bs| ==> Sendable(bs[i]) }

  ghost function SendAll(s: seq<bool>, bs: seq<Block>): (r: seq<bool>)
    requires AllSendable(bs)
    ensures s <= r
    decreases |bs|
  {
    if bs == [] then s else SendAll(Send(s, bs[0]), bs[1..])
  }

  predicate AllRefer(bs: seq<Block>, out: seq<byte>)
    decreases |bs|
  {
    bs == [] || (Refers(bs[0], |out|) && AllRefer(bs[1..], Meaning(out, bs[0])))
  }

  function MeaningAll(out: seq<byte>, bs: seq<Block>): (r: seq<byte>)
    requires AllRefer(bs, out)
    ensures out <= r
    decreases |bs|
  {
    if bs == [] then out else MeaningAll(Meaning(out, bs[0]), bs[1..])
  }

  /** No block is marked as the last one. */
  predicate Open(bs: seq<Block>) { forall i :: 0 <= i < |bs| ==> !bs[i].last }

  lemma {:induction false} SendAllPush(s: seq<bool>, bs: seq<Block>, b: Block)
    requires AllSendable(bs) && Sendable(b)
    ensures AllSendable(bs + [b]) && SendAll(s, bs + [b]) == Send(SendAll(s, bs), b)
    decreases |bs|
  {
    hide Send, Sendable;
    if bs == [] {
      assert bs + [b] == [b] && [b][1..] == [];
    } else {
      assert (bs + [b])[1..] == bs[1..] + [b];
      SendAllPush(Send(s, bs[0]), bs[1..], b);
    }
  }

  // ---------- decoding ----------

  /** What follows the bits s in the stream all. */
  function After(s: seq<bool>, all: seq<bool>): seq<bool>
    requires s <= all
  {
    all[|s|..]
  }

  lemma AfterParts(s: seq<bool>, x: seq<bool>, rest: seq<bool>)
    ensures s <= s + x + rest && After(s, s + x + rest) == x + rest && After(s + x, s + x + rest) == rest
  {
    assert s + x + rest == s + (x + rest);
    assert (s + (x + rest))[|s|..] == x + rest;
  }

  lemma StoredParts(s: seq<bool>, last: bool, data: seq<byte>, rest: seq<bool>) returns (pad: seq<bool>)
    requires |data| <= 0xFFFF && |Send(s, StoredBlock(last, data)) + rest| % 8 == 0
    ensures |pad| < 8 && |rest| % 8 == 0 && Send(s, StoredBlock(last, data)) == s + StoredBits(last, pad, data)
  {
    hide ToBits, BytesBits, Aligned, HeaderBits;
    var h := HeaderBits(STORED_BLOCK, last);
    var x, y, z := ToBits(|data|, 16), ToBits(0xFFFF - |data|, 16), BytesBits(data);
    pad := PadOf(s + h);
    Whole(|s + h + pad|, |data|, |rest|);
    Regrouped(s, h, pad, x, y, z);
  }

  lemma PadOf(s: seq<bool>) returns (pad: seq<bool>)
    ensures Aligned(s) == s + pad && |pad| < 8 && |s + pad| % 8 == 0
  {
    pad := Aligned(s)[|s|..];
  }

  lemma Regrouped(s: seq<bool>, h: seq<bool>, pad: seq<bool>, x: seq<bool>, y: seq<bool>, z: seq<bool>)
    ensures s + h + pad + x + y + z == s + (h + (pad + x + y + z))
  {
  }

  lemma Whole(a: nat, n: nat, r: nat)
    requires a % 8 == 0 && (a + 16 + 16 + 8 * n + r) % 8 == 0
    ensures r % 8 == 0
  {
    var k := a / 8 + 4 + n;
    assert a + 16 + 16 + 8 * n + r == 8 * k + r;
  }

  lemma StoredDecodes(m: Machine, s: seq<bool>, last: bool, data: seq<byte>, rest: seq<bool>) returns (m': Machine)
    requires Sound(m) && m.mode == TYPE && !m.last && |data| <= 0xFFFF && |Send(s, StoredBlock(last, data)) + rest| % 8 == 0
    ensures Reaches(m, After(s, Send(s, StoredBlock(last, data)) + rest), m', rest)
    ensures Sound(m') && m'.mode == TYPE && m'.last == last && m'.out == m.out + data
  {
    hide Reaches, Sound, Send, StoredBits;
    var pad := StoredParts(s, last, data, rest);
    AfterParts(s, StoredBits(last, pad, data), rest);
    m' := StoredRoundTrip(m, last, pad, data, rest);
  }

  /** Decoding one block of a stream of whole bytes. */
  lemma BlockDecodes(m: Machine, s: seq<bool>, b: Block, rest: seq<bool>) returns (m': Machine, b': seq<bool>)
    requires Sound(m) && m.mode == TYPE && !m.last && Sendable(b) && Refers(b, |m.out|)
    requires |Send(s, b) + rest| % 8 == 0
    ensures Reaches(m, After(s, Send(s, b) + rest), m', b')
    ensures Acceptable(b) ==> Sound(m') && m'.mode == TYPE && m'.last == b.last && m'.out == Meaning(m.out, b) && b' == rest
    ensures !Acceptable(b) ==> m'.mode == BAD && m'.out == m.out
  {
    hide Reaches, Sound, ToBits, BytesBits, Aligned, HeaderBits, StaticBits, DynamicBits, AllCodable, Used, BothFit, ExpandAll,
         FixedLengths, FixedDists, Partial, ItemsCodable, Fits, InRange;
    match b
    case StoredBlock(last, data) =>
      m' := StoredDecodes(m, s, last, data, rest);
      b' := rest;
    case StaticBlock(last, ts) =>
      AfterParts(s, StaticBits(last, ts), rest);
      m' := StaticRoundTrip(m, last, ts, rest);
      b' := rest;
    case DynamicBlock(last, ts, tr) =>
      AfterParts(s, DynamicBits(last, tr.ll, tr.dl, tr.bl, tr.blcodes, ts), rest);
      m', b' := DynamicRoundTrip(m, last, tr.ll, tr.dl, tr.bl, tr.blcodes, ts, rest);
  }

  /** Decoding acceptable blocks, only the last of which may be marked as such. */
  lemma {:induction false} BlocksDecode(m: Machine, s: seq<bool>, bs: seq<Block>, rest: seq<bool>) returns (m': Machine)
    requires Sound(m) && m.mode == TYPE && !m.last && AllSendable(bs) && AllRefer(bs, m.out)
    requires bs != [] ==> Open(bs[..|bs| - 1])
    requires forall i :: 0 <= i < |bs| ==> Acceptable(bs[i])
    requires |SendAll(s, bs) + rest| % 8 == 0
    ensures Reaches(m, After(s, SendAll(s, bs) + rest), m', rest)
    ensures Sound(m') && m'.mode == TYPE && m'.out == MeaningAll(m.out, bs) && m'.last == (bs != [] && bs[|bs| - 1].last)
    decreases |bs|
  {
    hide Reaches, Sound, Send, Sendable, Meaning, Refers, Acceptable;
    if bs == [] {
      m' := m;
      AfterParts(s, [], rest);
      assert s + [] == s && [] + rest == rest;
      ReachesSelf(m, rest);
    } else {
      var s1 := Send(s, bs[0]);
      var all := SendAll(s1, bs[1..]) + rest;
      var more := After(s1, all);
      assert all == s1 + more;
      var m1, b1 := BlockDecodes(m, s, bs[0], more);
      if |bs| > 1 {
        assert bs[..|bs| - 1][0] == bs[0];
        assert bs[1..][..|bs[1..]| - 1] == bs[..|bs| - 1][1..];
        m' := BlocksDecode(m1, s1, bs[1..], rest);
        ReachesTrans(m, After(s, all), m1, more, m', rest);
      } else {
        m' := m1;
        AfterParts(s1, [], rest);
        assert bs[1..] == [] && s1 + [] == s1 && [] + rest == rest;
      }
    }
  }

  /** A finished stream: blocks of which exactly the last is marked, each
      referring only to what came before. */
  ghost predicate Stream(bs: seq<Block>)
  {
    && bs != [] && AllSendable(bs) && AllRefer(bs, []) && Open(bs[..|bs| - 1]) && bs[|bs| - 1].last
  }

  /** Decoding a whole stream, padded to whole bytes and followed by whatever,
      gives back what its blocks mean and stops exactly at its end. */
  lemma StreamDecodes(bs: seq<Block>, rest: seq<bool>)
    requires Stream(bs) && (forall i :: 0 <= i < |bs| ==> Acceptable(bs[i])) && |rest| % 8 == 0
    ensures exists m :: Reaches(InflateSpec.Start(), Aligned(SendAll([], bs)) + rest, m, rest) && m.mode == DONE && m.out == MeaningAll([], bs)
  {
    hide Reaches, Sound, Sendable, Meaning, Refers, Acceptable, SendAll, MeaningAll;
    var b := SendAll([], bs);
    var pad := Padding(|b|);
    StartSound();
    WholeBytes(b, pad, rest);
    var m := BlocksDecode(InflateSpec.Start(), [], bs, pad + rest);
    assert After([], b + (pad + rest)) == b + (pad + rest) == Aligned(b) + rest;
    RunEnd(m, pad, rest);
    ReachesTrans(InflateSpec.Start(), Aligned(b) + rest, m, pad + rest, m.(mode := DONE), rest);
  }

  lemma WholeBytes(b: seq<bool>, pad: seq<bool>, rest: seq<bool>)
    requires pad == Padding(|b|) && |rest| % 8 == 0
    ensures |b + (pad + rest)| % 8 == 0 && |pad| < 8
  {
    assert |Aligned(b)| == |b| + |pad|;
  }

  /** A stream is refused exactly when one of its dynamic blocks has trees that
      the decoder has no room for; the output then is what came before. */
  lemma StreamRefused(bs: seq<Block>, k: nat, rest: seq<bool>)
    requires Stream(bs) && k < |bs| && (forall i :: 0 <= i < k ==> Acceptable(bs[i])) && !Acceptable(bs[k]) && |rest| % 8 == 0
    ensures AllSendable(bs[..k]) && AllRefer(bs[..k], [])
    ensures exists m, b :: Reaches(InflateSpec.Start(), Aligned(SendAll([], bs)) + rest, m, b) && m.mode == BAD && m.out == MeaningAll([], bs[..k])
  {
    hide Reaches, Sound, Sendable, Meaning, Refers, Acceptable, SendAll, MeaningAll, Send, AllRefer, Aligned, Open, After, AllSendable;
    var all := Aligned(SendAll([], bs)) + rest;
    SplitAt([], [], bs, k);
    AllParts(bs, k);
    var s := SendAll([], bs[..k]);
    Parts(bs, k);
    FirstOf(s, MeaningAll([], bs[..k]), bs[k..]);
    var s1 := Send(s, bs[k]);
    Prefixes(s, s1, SendAll([], bs), Aligned(SendAll([], bs)), rest);
    var m1 := DecodesFirst(bs[..k], s, all);
    var m2, b2 := BlockDecodes(m1, s, bs[k], After(s1, all));
    ReachesTrans(InflateSpec.Start(), all, m1, After(s, all), m2, b2);
  }

  lemma DecodesFirst(bs: seq<Block>, s: seq<bool>, all: seq<bool>) returns (m: Machine)
    requires AllSendable(bs) && AllRefer(bs, []) && Open(bs) && s == SendAll([], bs) && s <= all && |all| % 8 == 0
    requires forall i :: 0 <= i < |bs| ==> Acceptable(bs[i])
    ensures Reaches(InflateSpec.Start(), all, m, After(s, all))
    ensures Sound(m) && m.mode == TYPE && m.out == MeaningAll([], bs) && !m.last
  {
    hide Reaches, Sound, Sendable, Meaning, Refers, Acceptable, SendAll, MeaningAll, Send, AllRefer;
    StartSound();
    Prefixes([], [], s, s, After(s, all));
    assert s + After(s, all) == all;
    m := BlocksDecode(InflateSpec.Start(), [], bs, After(s, all));
  }

  lemma Parts(bs: seq<Block>, k: nat)
    requires k < |bs| && Open(bs[..|bs| - 1])
    ensures bs[k..][0] == bs[k] && Open(bs[..k])
    ensures forall i :: 0 <= i < k ==> bs[..k][i] == bs[i]
  {
    assert forall i :: 0 <= i < k ==> bs[..|bs| - 1][i] == bs[i];
    assert forall i :: 0 <= i < k ==> bs[..k][i] == bs[i];
  }

  lemma Prefixes(s: seq<bool>, s1: seq<bool>, b: seq<bool>, a: seq<bool>, rest: seq<bool>)
    requires s <= s1 <= b <= a
    ensures var all := a + rest;
            && s <= all && s1 <= all && s1 + After(s1, all) == all && s + After(s, all) == all && After([], all) == all
  {
    var all := a + rest;
    assert s1 <= all && s <= all;
  }

  lemma AllParts(bs: seq<Block>, k: nat)
    requires AllSendable(bs) && k < |bs|
    ensures AllSendable(bs[..k]) && AllSendable(bs[k..]) && Sendable(bs[k])
  {
    hide Sendable;
  }

  lemma FirstOf(s: seq<bool>, out: seq<byte>, bs: seq<Block>)
    requires bs != [] && AllSendable(bs) && AllRefer(bs, out)
    ensures Sendable(bs[0]) && Refers(bs[0], |out|) && Send(s, bs[0]) <= SendAll(s, bs)
  {
    hide Send, Sendable, Refers, Meaning;
  }

  lemma {:induction false} SplitAt(s: seq<bool>, out: seq<byte>, bs: seq<Block>, k: nat)
    requires AllSendable(bs) && AllRefer(bs, out) && k <= |bs|
    ensures AllSendable(bs[..k]) && AllSendable(bs[k..]) && AllRefer(bs[..k], out) && AllRefer(bs[k..], MeaningAll(out, bs[..k]))
    ensures SendAll(s, bs) == SendAll(SendAll(s, bs[..k]), bs[k..])
    ensures MeaningAll(out, bs) == MeaningAll(MeaningAll(out, bs[..k]), bs[k..])
    decreases k
  {
    hide Send, Sendable, Refers, Meaning;
    if k == 0 {
      assert bs[..0] == [] && bs[0..] == bs;
    } else {
      assert bs[..k][0] == bs[0] && bs[..k][1..] == bs[1..][..k - 1] && bs[k..] == bs[1..][k - 1..];
      SplitAt(Send(s, bs[0]), Meaning(out, bs[0]), bs[1..], k - 1);
    }
  }
}
