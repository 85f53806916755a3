/**
  The CRC-8 the sensor appends to the angle bytes (Src/nagi_mt6835.c, the
  256-entry table and the table-driven loop): polynomial x^8 + x^2 + x + 1
  (0x07), initial value 0, no reflection, no final xor.

  The table is the C table, laid out as sixteen rows of sixteen. It is
  proved equal, entry by entry, to the bitwise definition `FeedByte`, and
  the table-driven loop is proved to compute the bitwise CRC `Crc`.
 */
module Crc8 {

  /** The generator polynomial without its x^8 term. */
  const Poly: bv8 := 0x07

  /** `crc8_table`, row `hi` holding the entries 16*hi .. 16*hi + 15. */
  const Table: seq<seq<bv8>> := [
    [0x00, 0x07, 0x0e, 0x09, 0x1c, 0x1b, 0x12, 0x15, 0x38, 0x3f, 0x36, 0x31, 0x24, 0x23, 0x2a, 0x2d],
    [0x70, 0x77, 0x7e, 0x79, 0x6c, 0x6b, 0x62, 0x65, 0x48, 0x4f, 0x46, 0x41, 0x54, 0x53, 0x5a, 0x5d],
    [0xe0, 0xe7, 0xee, 0xe9, 0xfc, 0xfb, 0xf2, 0xf5, 0xd8, 0xdf, 0xd6, 0xd1, 0xc4, 0xc3, 0xca, 0xcd],
    [0x90, 0x97, 0x9e, 0x99, 0x8c, 0x8b, 0x82, 0x85, 0xa8, 0xaf, 0xa6, 0xa1, 0xb4, 0xb3, 0xba, 0xbd],
    [0xc7, 0xc0, 0xc9, 0xce, 0xdb, 0xdc, 0xd5, 0xd2, 0xff, 0xf8, 0xf1, 0xf6, 0xe3, 0xe4, 0xed, 0xea],
    [0xb7, 0xb0, 0xb9, 0xbe, 0xab, 0xac, 0xa5, 0xa2, 0x8f, 0x88, 0x81, 0x86, 0x93, 0x94, 0x9d, 0x9a],
    [0x27, 0x20, 0x29, 0x2e, 0x3b, 0x3c, 0x35, 0x32, 0x1f, 0x18, 0x11, 0x16, 0x03, 0x04, 0x0d, 0x0a],
    [0x57, 0x50, 0x59, 0x5e, 0x4b, 0x4c, 0x45, 0x42, 0x6f, 0x68, 0x61, 0x66, 0x73, 0x74, 0x7d, 0x7a],
    [0x89, 0x8e, 0x87, 0x80, 0x95, 0x92, 0x9b, 0x9c, 0xb1, 0xb6, 0xbf, 0xb8, 0xad, 0xaa, 0xa3, 0xa4],
    [0xf9, 0xfe, 0xf7, 0xf0, 0xe5, 0xe2, 0xeb, 0xec, 0xc1, 0xc6, 0xcf, 0xc8, 0xdd, 0xda, 0xd3, 0xd4],
    [0x69, 0x6e, 0x67, 0x60, 0x75, 0x72, 0x7b, 0x7c, 0x51, 0x56, 0x5f, 0x58, 0x4d, 0x4a, 0x43, 0x44],
    [0x19, 0x1e, 0x17, 0x10, 0x05, 0x02, 0x0b, 0x0c, 0x21, 0x26, 0x2f, 0x28, 0x3d, 0x3a, 0x33, 0x34],
    [0x4e, 0x49, 0x40, 0x47, 0x52, 0x55, 0x5c, 0x5b, 0x76, 0x71, 0x78, 0x7f, 0x6a, 0x6d, 0x64, 0x63],
    [0x3e, 0x39, 0x30, 0x37, 0x22, 0x25, 0x2c, 0x2b, 0x06, 0x01, 0x08, 0x0f, 0x1a, 0x1d, 0x14, 0x13],
    [0xae, 0xa9, 0xa0, 0xa7, 0xb2, 0xb5, 0xbc, 0xbb, 0x96, 0x91, 0x98, 0x9f, 0x8a, 0x8d, 0x84, 0x83],
    [0xde, 0xd9, 0xd0, 0xd7, 0xc2, 0xc5, 0xcc, 0xcb, 0xe6, 0xe1, 0xe8, 0xef, 0xfa, 0xfd, 0xf4, 0xf3]
  ]

  /** The table lookup `crc8_table[i]`. */
  function Lookup(i: bv8): bv8 {
    Table[i >> 4][i & 0xF]
  }

  /** One shift of the CRC register with a zero message bit: the register
      moves left and the polynomial is subtracted when a one leaves it. */
  function Step(x: bv8): bv8 {
    if x & 0x80 != 0 then (x << 1) ^ Poly else x << 1
  }

  /** `n` shifts of the register. */
  function Shift(x: bv8, n: nat): bv8
    decreases n
  {
    if n == 0 then x else Shift(Step(x), n - 1)
  }

  /** The bitwise algorithm for one message byte: xor the byte into the
      register, then shift eight times. This is the reference the table is
      checked against. */
  function FeedByte(crc: bv8, b: bv8): bv8 {
    Shift(crc ^ b, 8)
  }

  /** Eight shifts written out, for evaluating table entries. */
  function Shift8(x: bv8): bv8 {
    Step(Step(Step(Step(Step(Step(Step(Step(x))))))))
  }

  lemma Shift8IsShift(x: bv8)
    ensures Shift8(x) == Shift(x, 8)
  {
    var x1 := Step(x);
    var x2 := Step(x1);
    var x3 := Step(x2);
    var x4 := Step(x3);
    var x5 := Step(x4);
    var x6 := Step(x5);
    var x7 := Step(x6);
    assert Shift(x7, 1) == Step(x7);
    assert Shift(x6, 2) == Shift(x7, 1);
    assert Shift(x5, 3) == Shift(x6, 2);
    assert Shift(x4, 4) == Shift(x5, 3);
    assert Shift(x3, 5) == Shift(x4, 4);
    assert Shift(x2, 6) == Shift(x3, 5);
    assert Shift(x1, 7) == Shift(x2, 6);
  }

  /** Row `hi` of the table holds the bitwise CRC of the bytes `hi`0 .. `hi`F. */
  ghost predicate RowAgrees(row: seq<bv8>, hi: bv8)
    requires hi < 16
  {
    |row| == 16 && forall lo: bv8 {:trigger row[lo]} :: lo < 16 ==> row[lo] == Shift8((hi << 4) | lo)
  }

  /** Lifts sixteen entry facts about one row to the quantified row property;
      each requires is a single literal computation. */
  lemma RowFromEntries(row: seq<bv8>, hi: bv8)
    requires hi < 16 && |row| == 16
    requires row[0] == Shift8((hi << 4) | 0)
    requires row[1] == Shift8((hi << 4) | 1)
    requires row[2] == Shift8((hi << 4) | 2)
    requires row[3] == Shift8((hi << 4) | 3)
    requires row[4] == Shift8((hi << 4) | 4)
    requires row[5] == Shift8((hi << 4) | 5)
    requires row[6] == Shift8((hi << 4) | 6)
    requires row[7] == Shift8((hi << 4) | 7)
    requires row[8] == Shift8((hi << 4) | 8)
    requires row[9] == Shift8((hi << 4) | 9)
    requires row[10] == Shift8((hi << 4) | 10)
    requires row[11] == Shift8((hi << 4) | 11)
    requires row[12] == Shift8((hi << 4) | 12)
    requires row[13] == Shift8((hi << 4) | 13)
    requires row[14] == Shift8((hi << 4) | 14)
    requires row[15] == Shift8((hi << 4) | 15)
    ensures RowAgrees(row, hi)
  {
    forall lo: bv8 | lo < 16 ensures row[lo] == Shift8((hi << 4) | lo) {
      if lo < 8 {
        if lo < 4 {
          if lo < 2 {
            if lo < 1 {
              assert lo == 0;
            } else {
              assert lo == 1;
            }
          } else {
            if lo < 3 {
              assert lo == 2;
            } else {
              assert lo == 3;
            }
          }
        } else {
          if lo < 6 {
            if lo < 5 {
              assert lo == 4;
            } else {
              assert lo == 5;
            }
          } else {
            if lo < 7 {
              assert lo == 6;
            } else {
              assert lo == 7;
            }
          }
        }
      } else {
        if lo < 12 {
          if lo < 10 {
            if lo < 9 {
              assert lo == 8;
            } else {
              assert lo == 9;
            }
          } else {
            if lo < 11 {
              assert lo == 10;
            } else {
              assert lo == 11;
            }
          }
        } else {
          if lo < 14 {
            if lo < 13 {
              assert lo == 12;
            } else {
              assert lo == 13;
            }
          } else {
            if lo < 15 {
              assert lo == 14;
            } else {
              assert lo == 15;
            }
          }
        }
      }
    }
  }
  // One instance of the lifting per row of the table.
  lemma Row0Agrees() ensures RowAgrees(Table[0], 0) { RowFromEntries(Table[0], 0); }
  lemma Row1Agrees() ensures RowAgrees(Table[1], 1) { RowFromEntries(Table[1], 1); }
  lemma Row2Agrees() ensures RowAgrees(Table[2], 2) { RowFromEntries(Table[2], 2); }
  lemma Row3Agrees() ensures RowAgrees(Table[3], 3) { RowFromEntries(Table[3], 3); }
  lemma Row4Agrees() ensures RowAgrees(Table[4], 4) { RowFromEntries(Table[4], 4); }
  lemma Row5Agrees() ensures RowAgrees(Table[5], 5) { RowFromEntries(Table[5], 5); }
  lemma Row6Agrees() ensures RowAgrees(Table[6], 6) { RowFromEntries(Table[6], 6); }
  lemma Row7Agrees() ensures RowAgrees(Table[7], 7) { RowFromEntries(Table[7], 7); }
  lemma Row8Agrees() ensures RowAgrees(Table[8], 8) { RowFromEntries(Table[8], 8); }
  lemma Row9Agrees() ensures RowAgrees(Table[9], 9) { RowFromEntries(Table[9], 9); }
  lemma RowAAgrees() ensures RowAgrees(Table[10], 10) { RowFromEntries(Table[10], 10); }
  lemma RowBAgrees() ensures RowAgrees(Table[11], 11) { RowFromEntries(Table[11], 11); }
  lemma RowCAgrees() ensures RowAgrees(Table[12], 12) { RowFromEntries(Table[12], 12); }
  lemma RowDAgrees() ensures RowAgrees(Table[13], 13) { RowFromEntries(Table[13], 13); }
  lemma RowEAgrees() ensures RowAgrees(Table[14], 14) { RowFromEntries(Table[14], 14); }
  lemma RowFAgrees() ensures RowAgrees(Table[15], 15) { RowFromEntries(Table[15], 15); }

  /** Every entry of the table is the bitwise CRC of its index. */
  lemma TableMatchesBitwise(i: bv8)
    ensures Lookup(i) == FeedByte(0, i)
  {
    Shift8IsShift(i);
    Row0Agrees();
    Row1Agrees();
    Row2Agrees();
    Row3Agrees();
    Row4Agrees();
    Row5Agrees();
    Row6Agrees();
    Row7Agrees();
    Row8Agrees();
    Row9Agrees();
    RowAAgrees();
    RowBAgrees();
    RowCAgrees();
    RowDAgrees();
    RowEAgrees();
    RowFAgrees();
    assert i == ((i >> 4) << 4) | (i & 0xF);
  }

  /** A shift loses no information. */
  lemma StepInjective(x: bv8, y: bv8)
    ensures Step(x) == Step(y) ==> x == y
  {
  }

  lemma {:induction false} ShiftInjective(x: bv8, y: bv8, n: nat)
    ensures Shift(x, n) == Shift(y, n) ==> x == y
    decreases n
  {
    if n > 0 {
      ShiftInjective(Step(x), Step(y), n - 1);
      StepInjective(x, y);
    }
  }

  /** Feeding a byte depends only on the register xor the byte, and does so
      injectively: so a changed byte always changes the register. */
  lemma FeedByteInjective(c1: bv8, b1: bv8, c2: bv8, b2: bv8)
    ensures FeedByte(c1, b1) == FeedByte(c2, b2) <==> c1 ^ b1 == c2 ^ b2
  {
    ShiftInjective(c1 ^ b1, c2 ^ b2, 8);
  }

  /** One table step is one bitwise byte step. */
  lemma LookupFeeds(c: bv8, b: bv8)
    ensures Lookup(c ^ b) == FeedByte(c, b)
  {
    TableMatchesBitwise(c ^ b);
  }

  /** The CRC register after feeding `data`, starting from `init`. */
  function CrcFrom(init: bv8, data: seq<bv8>): bv8
    decreases |data|
  {
    if |data| == 0 then init else FeedByte(CrcFrom(init, data[..|data| - 1]), data[|data| - 1])
  }

  /** The CRC-8 of a message. */
  function Crc(data: seq<bv8>): bv8 {
    CrcFrom(0, data)
  }

  /** The table-driven computation: xor the byte into the register, then
      replace the register by its table entry. */
  function TableCrc(data: seq<bv8>): (c: bv8)
    ensures c == Crc(data)
    decreases |data|
  {
    if |data| == 0 then 0
    else
      var prev := TableCrc(data[..|data| - 1]);
      LookupFeeds(prev, data[|data| - 1]);
      Lookup(prev ^ data[|data| - 1])
  }

  /** `crc_table(data, len)`: the loop over the first `len` bytes, with the
      8-bit length of the C signature. */
  method CrcOfPrefix(data: seq<bv8>, len: bv8) returns (crc: bv8)
    requires len as int <= |data|
    ensures crc == Crc(data[..len])
  {
    crc := 0x00;
    var i := 0;
    while i < len as int
      invariant 0 <= i <= len as int
      invariant crc == Crc(data[..i])
    {
      LookupFeeds(crc, data[i]);
      CrcSnoc(data[..i], data[i]);
      assert data[..i + 1] == data[..i] + [data[i]];
      crc := crc ^ data[i];
      crc := Lookup(crc);
      i := i + 1;
    }
  }

  /** The CRC can be computed incrementally: the register after a message
      is the starting register for the rest. */
  lemma {:induction false} CrcFromAppend(init: bv8, a: seq<bv8>, b: seq<bv8>)
    ensures CrcFrom(init, a + b) == CrcFrom(CrcFrom(init, a), b)
    decreases |b|
  {
    if |b| == 0 {
      assert a + b == a;
    } else {
      var b' := b[..|b| - 1];
      assert (a + b)[..|a + b| - 1] == a + b';
      CrcFromAppend(init, a, b');
    }
  }

  /** Feeding one more byte. */
  lemma CrcSnoc(a: seq<bv8>, b: bv8)
    ensures Crc(a + [b]) == FeedByte(Crc(a), b)
  {
    assert (a + [b])[..|a|] == a;
  }

  /** The standard check value of CRC-8/SMBUS: the CRC of the ASCII digits
      "123456789" is 0xF4. */
  lemma CheckValue()
    ensures Crc([0x31, 0x32, 0x33, 0x34, 0x35, 0x36, 0x37, 0x38, 0x39]) == 0xF4
  {
    var m0: seq<bv8> := [];
    var m1 := m0 + [0x31];
    CrcSnoc(m0, 0x31);
    assert Crc(m1) == 0x97;
    var m2 := m1 + [0x32];
    CrcSnoc(m1, 0x32);
    assert Crc(m2) == 0x72;
    var m3 := m2 + [0x33];
    CrcSnoc(m2, 0x33);
    assert Crc(m3) == 0xC0;
    var m4 := m3 + [0x34];
    CrcSnoc(m3, 0x34);
    assert Crc(m4) == 0xC2;
    var m5 := m4 + [0x35];
    CrcSnoc(m4, 0x35);
    assert Crc(m5) == 0xCB;
    var m6 := m5 + [0x36];
    CrcSnoc(m5, 0x36);
    Shift8IsShift(0xCB ^ 0x36);
    assert Crc(m6) == 0xFD;
    var m7 := m6 + [0x37];
    CrcSnoc(m6, 0x37);
    assert Crc(m7) == 0x78;
    var m8 := m7 + [0x38];
    CrcSnoc(m7, 0x38);
    assert Crc(m8) == 0xC7;
    var m9 := m8 + [0x39];
    CrcSnoc(m8, 0x39);
    assert Crc(m9) == 0xF4;
    assert m9 == [0x31, 0x32, 0x33, 0x34, 0x35, 0x36, 0x37, 0x38, 0x39];
  }

  /** Any change to a single byte of a message, in particular any flipped
      bit, changes the CRC. */
  lemma {:induction false} CrcDetectsByteError(data: seq<bv8>, k: nat, v: bv8)
    requires k < |data| && v != data[k]
    ensures Crc(data[k := v]) != Crc(data)
    decreases |data|
  {
    var n := |data| - 1;
    var prefix := data[..n];
    assert data == prefix + [data[n]];
    if k == n {
      assert data[k := v] == prefix + [v];
      DetectLast(prefix, data[n], v);
    } else {
      assert data[k := v] == prefix[k := v] + [data[n]];
      CrcDetectsByteError(prefix, k, v);
      DetectInner(prefix[k := v], prefix, data[n]);
    }
  }

  /** Messages that differ only in their last byte have different CRCs. */
  lemma DetectLast(prefix: seq<bv8>, d: bv8, v: bv8)
    requires d != v
    ensures Crc(prefix + [v]) != Crc(prefix + [d])
  {
    CrcSnoc(prefix, d);
    CrcSnoc(prefix, v);
    FeedByteInjective(Crc(prefix), v, Crc(prefix), d);
  }

  /** Appending the same byte keeps two different CRCs different. */
  lemma DetectInner(a: seq<bv8>, b: seq<bv8>, d: bv8)
    requires Crc(a) != Crc(b)
    ensures Crc(a + [d]) != Crc(b + [d])
  {
    CrcSnoc(a, d);
    CrcSnoc(b, d);
    FeedByteInjective(Crc(a), d, Crc(b), d);
  }
}
