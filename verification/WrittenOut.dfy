/** The numbers of the stored formats written out: small values with the bytes the formats give them (the Roaring
    bitmap format specification, the FSST code stream of include/nanolance/fsst.hpp, the LZ4 block format). */
module WrittenOut {
  import opened Options
  import Bytes
  import Roaring
  import Treemap
  import Fsst
  import Lz4

  // ---- roaring bitmaps -----------------------------------------------------------------------------

  lemma Numbers(v: nat)
    requires v < 256
    ensures Roaring.Put16(v) == [Bytes.Byte(v), 0]
  {
    hide Bytes.Byte;
    assert v % 256 == v && v / 256 == 0;
    ZeroByte();
  }

  lemma ZeroByte()
    ensures Bytes.Byte(0) == 0
  {
    hide Bytes.Byte;
    Bytes.DigitsBack(false, false, false, false, false, false, false, false);
  }

  lemma SmallBytes()
    ensures Bytes.Byte(1) == 1 && Bytes.Byte(2) == 2 && Bytes.Byte(3) == 3
  {
    hide Bytes.Byte;
    Bytes.DigitsBack(true, false, false, false, false, false, false, false);
    Bytes.DigitsBack(false, true, false, false, false, false, false, false);
    Bytes.DigitsBack(true, true, false, false, false, false, false, false);
  }

  lemma LargerBytes()
    ensures Bytes.Byte(5) == 5 && Bytes.Byte(16) == 16
  {
    hide Bytes.Byte;
    Bytes.DigitsBack(true, false, true, false, false, false, false, false);
    Bytes.DigitsBack(false, false, false, false, true, false, false, false);
  }

  lemma CookieBytes()
    ensures Bytes.Byte(0x3A) == 0x3A && Bytes.Byte(0x30) == 0x30
  {
    hide Bytes.Byte;
    Bytes.DigitsBack(false, true, false, true, true, true, false, false);
    Bytes.DigitsBack(false, false, false, false, true, true, false, false);
  }

  lemma SmallNumbers()
    ensures Roaring.Put16(0) == [0, 0] && Roaring.Put16(1) == [1, 0] && Roaring.Put16(3) == [3, 0]
    ensures Roaring.Put16(16) == [16, 0] && Roaring.Put16(0x201) == [1, 2] && Roaring.Put16(0x303A) == [0x3A, 0x30]
    ensures Roaring.Put16(5) == [5, 0]
  {
    hide Bytes.Byte;
    ZeroByte();
    SmallBytes();
    LargerBytes();
    CookieBytes();
    Numbers(0);
    Numbers(1);
    Numbers(3);
    Numbers(5);
    Numbers(16);
    assert 0x201 % 256 == 1 && 0x201 / 256 % 256 == 2 && 0x303A % 256 == 0x3A && 0x303A / 256 % 256 == 0x30;
  }

  lemma OneContainer(high: nat, low: nat)
    requires low < Roaring.U16
    ensures var id := high * Roaring.U16 + low;
            Roaring.Containers([id], Roaring.U16) == [Roaring.Container(high, [low])]
  {
    var id := high * Roaring.U16 + low;
    Roaring.HighOf(high, low);
    assert [id][..1] == [id] && [id][1..] == [];
    assert Roaring.Lows([id], Roaring.U16) == [low];
  }

  /** The id 0x00030201: the cookie 12346, one container, its key 3 and one value, its offset 16, the value 0x0201. */
  lemma RoaringBytes()
    ensures Roaring.Encoded([0x30201])
         == [0x3A, 0x30, 0, 0] + [1, 0, 0, 0] + [3, 0, 0, 0] + [16, 0, 0, 0] + [1, 2]
  {
    hide Roaring.Put16, Roaring.Containers;
    SmallNumbers();
    OneContainer(3, 0x201);
    var cs := [Roaring.Container(3, [0x201])];
    assert Roaring.Containers([0x30201], Roaring.U16) == cs;
    OneBody(cs[0]);
    assert cs[1..] == [];
    assert Roaring.HeaderBytes(cs) == Roaring.Put16(3) + Roaring.Put16(0) + [];
    assert Roaring.OffsetBytes(cs, 16) == Roaring.Put32(16) + [];
    assert Roaring.BodyBytes(cs) == [1, 2] + [];
  }

  lemma OneBody(c: Roaring.Container)
    requires c.lows == [0x201]
    ensures Roaring.Below(c.lows, Roaring.U16) && Roaring.Body(c) == [1, 2]
  {
    hide Roaring.Put16;
    SmallNumbers();
    assert c.lows[1..] == [];
  }

  /** Up to 4096 values a container is their list, two bytes each; beyond that it is 65536 bits. */
  lemma RoaringSizes(c: Roaring.Container)
    requires Roaring.Below(c.lows, 65536)
    ensures |Roaring.Body(c)| == if |c.lows| <= 4096 then 2 * |c.lows| else 8192
  {
  }

  /** The address of row 0x30201 of fragment 5: one bitmap, its key 5, and the bitmap of the row. */
  lemma TreemapBytes()
    ensures Treemap.Encoded64([5 * 0x1_0000_0000 + 0x30201])
         == [1, 0, 0, 0, 0, 0, 0, 0] + [5, 0, 0, 0] + Roaring.Encoded([0x30201])
  {
    hide Roaring.Put16, Roaring.Encoded;
    var id := 5 * 0x1_0000_0000 + 0x30201;
    SmallNumbers();
    assert id / 0x1_0000_0000 == 5 && id % 0x1_0000_0000 == 0x30201;
    assert [id][..1] == [id] && [id][1..] == [];
    assert Roaring.Lows([id], Roaring.U32) == [0x30201];
    var gs := [Roaring.Container(5, [0x30201])];
    assert Roaring.Containers([id], Roaring.U32) == gs;
    assert gs[1..] == [] && Treemap.KeyBytes([]) == [];
    assert Treemap.KeyBytes(gs) == Roaring.Put32(5) + Roaring.Encoded([0x30201]) + [];
  }

  // ---- FSST ----------------------------------------------------------------------------------------

  /** The code 0 is the first symbol, and 255 says that a byte follows as it is. */
  lemma FsstBytes(symbols: seq<seq<Bytes.byte>>, x: Bytes.byte)
    requires |symbols| >= 1
    ensures Fsst.Decode(symbols, [0, 255, x]) == Some(symbols[0] + [x])
  {
    var codes: seq<Bytes.byte> := [0, 255, x];
    var rest: seq<Bytes.byte> := [255, x];
    assert codes[1..] == rest && rest[2..] == [];
    assert Fsst.Decode(symbols, rest) == Some([x] + []);
    assert [x] + [] == [x];
  }

  // ---- LZ4 -----------------------------------------------------------------------------------------

  /** Three literals, a match three bytes back of four and five bytes, and five literals to end with. */
  lemma Lz4Bytes()
    ensures Lz4.Decode([0x35, 97, 98, 99, 3, 0, 0x50, 118, 119, 120, 121, 122], [], Some(17))
         == Some([97, 98, 99, 97, 98, 99, 97, 98, 99, 97, 98, 99, 118, 119, 120, 121, 122])
  {
    hide Lz4.Decode, Lz4.CopyMatch;
    var abc, last := [97, 98, 99], [118, 119, 120, 121, 122];
    var b := [0x35, 97, 98, 99, 3, 0, 0x50, 118, 119, 120, 121, 122];
    assert b == Lz4.Sequence(abc, 3, 5) + Lz4.LastSequence(last);
    Lz4.ReadsSequence(abc, 3, 5, [], Lz4.LastSequence(last), Some(17));
    Lz4.ReadsLast(last, Lz4.CopyMatch([] + abc, 3, 9), Some(17));
    assert [] + abc == abc;
    Copied();
    assert [97, 98, 99, 97, 98, 99, 97, 98, 99, 97, 98, 99] + last
        == [97, 98, 99, 97, 98, 99, 97, 98, 99, 97, 98, 99, 118, 119, 120, 121, 122];
  }

  lemma Copied()
    ensures Lz4.CopyMatch([97, 98, 99], 3, 9) == [97, 98, 99, 97, 98, 99, 97, 98, 99, 97, 98, 99]
  {
    hide Lz4.CopyMatch;
    var data := [97, 98, 99, 97, 98, 99, 97, 98, 99, 97, 98, 99];
    assert data[..3] == [97, 98, 99] && data[3..12] == data[0..9] && data[..12] == data;
    Lz4.CopiesAhead(data, 3, 0, 9);
  }

  /** A match starts twelve bytes before the end or earlier, and ends five before it. */
  lemma Lz4Rules(start: nat, n: nat, total: nat)
    ensures Lz4.MatchAllowed(start, n, total) <==> start + 12 <= total && start + n + 5 <= total
  {
  }
}
