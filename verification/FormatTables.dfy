/** The tables of sections 3.2.5 to 3.2.7 of RFC 1951, number by number: what
    the definitions shared by deflate (trees.c) and inflate (inflate.c,
    inftrees.c) come to. */
module FormatTables {
  import opened Bits
  import opened HuffmanCode
  import opened TableTheory
  import opened Tokens
  import opened InflateSpec
  import opened InflateProps
  import opened CodeLengths
  import opened BlockFormat

  /** The order in which the lengths of the code length code are sent. */
  lemma OrderTable(i: nat)
    requires i < 19
    ensures Order(i) == [16, 17, 18, 0, 8, 7, 9, 6, 10, 5, 11, 4, 12, 3, 13, 2, 14, 1, 15][i]
  {
  }

  /** Bases and extra bits of the length codes from 257 on. */
  lemma LengthTable(c: nat)
    requires c < 29
    ensures Val(LENS, 257 + c) == [3, 4, 5, 6, 7, 8, 9, 10, 11, 13, 15, 17, 19, 23, 27, 31, 35, 43, 51, 59, 67, 83, 99, 115,
                                   131, 163, 195, 227, 258][c]
    ensures ExtraLBits(c) == [0, 0, 0, 0, 0, 0, 0, 0, 1, 1, 1, 1, 2, 2, 2, 2, 3, 3, 3, 3, 4, 4, 4, 4, 5, 5, 5, 5, 0][c]
    ensures Op(LENS, 257 + c) == 16 + ExtraLBits(c)
  {
  }

  /** Bases and extra bits of the distance codes. */
  lemma DistTable(c: nat)
    requires c < 30
    ensures Val(DISTS, c) == [1, 2, 3, 4, 5, 7, 9, 13, 17, 25, 33, 49, 65, 97, 129, 193, 257, 385, 513, 769, 1025, 1537,
                              2049, 3073, 4097, 6145, 8193, 12289, 16385, 24577][c]
    ensures ExtraDBits(c) == [0, 0, 0, 0, 1, 1, 2, 2, 3, 3, 4, 4, 5, 5, 6, 6, 7, 7, 8, 8, 9, 9, 10, 10, 11, 11, 12, 12,
                              13, 13][c]
    ensures Op(DISTS, c) == 16 + ExtraDBits(c)
  {
  }

  /** The fixed codes: from 00110000, 110010000, 0000000 and 11000000 on, and the
      distances in five bits. */
  lemma FixedTable(s: nat)
    requires s < 288
    ensures var f := FixedLengths();
            && Used(f, s)
            && f[s] == (if s < 144 then 8 else if s < 256 then 9 else if s < 280 then 7 else 8)
            && Code(f, s) == (if s < 144 then 0x30 + s else if s < 256 then 0x190 + (s - 144)
                              else if s < 280 then s - 256 else 0xC0 + (s - 280))
    ensures s < 32 ==> Used(FixedDists(), s) && FixedDists()[s] == 5 && Code(FixedDists(), s) == s
  {
    hide Count, Total;
    var f := FixedLengths();
    FixedStarts();
    CountNone(f);
    var l := f[s];
    if s < 144 {
      CountRun(f, 0, s, 8, l);
    } else {
      CountRun(f, 0, 144, 8, l);
      if s < 256 {
        CountRun(f, 144, s, 9, l);
      } else {
        CountRun(f, 144, 256, 9, l);
        CountRun(f, 256, if s < 280 then s else 280, 7, l);
        if s >= 280 { CountRun(f, 280, s, 8, l); }
      }
    }
    if s < 32 {
      CountNone(FixedDists());
      CountRun(FixedDists(), 0, s, 5, 5);
    }
  }

  /** The first code of each length. */
  lemma FixedStarts()
    ensures FirstCode(FixedLengths(), 7) == 0 && FirstCode(FixedLengths(), 8) == 0x30
    ensures FirstCode(FixedLengths(), 9) == 0x190 && FirstCode(FixedDists(), 5) == 0
  {
    hide FixedLengths, FixedDists, Total;
    var f, d := FixedLengths(), FixedDists();
    forall l: nat
      ensures Total(f, l) == (if l == 7 then 24 else if l == 8 then 152 else if l == 9 then 112 else 0)
      ensures Total(d, l) == (if l == 5 then 32 else 0)
    {
      FixedTotals(l);
    }
    assert FirstCode(f, 7) == 0 && FirstCode(d, 5) == 0;
    assert FirstCode(f, 8) == 48;
    assert FirstCode(f, 9) == 400;
  }
}
