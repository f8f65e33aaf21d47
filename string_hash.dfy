/** The 4-lane Pearson name hash of string_hash.c. Each input byte c drives
  * four independent byte lanes through four fixed 256-entry substitution
  * tables (lane i becomes Table_i[c XOR lane i]); the four lanes are packed
  * lane 0 first into the 32-bit result. */
module StringHash {

  /** A 256-entry substitution table, held as 16 rows of 16 entries: entry x
    * sits in row x >> 4, column x & 0xF. */
  datatype Row = Row(c0: bv8, c1: bv8, c2: bv8, c3: bv8, c4: bv8, c5: bv8, c6: bv8, c7: bv8,
                     c8: bv8, c9: bv8, cA: bv8, cB: bv8, cC: bv8, cD: bv8, cE: bv8, cF: bv8)

  datatype Table = Table(r0: Row, r1: Row, r2: Row, r3: Row, r4: Row, r5: Row, r6: Row, r7: Row,
                         r8: Row, r9: Row, rA: Row, rB: Row, rC: Row, rD: Row, rE: Row, rF: Row)

  function Column(r: Row, i: bv8): bv8
  {
    if i < 8 then
      if i < 4 then
        if i < 2 then (if i < 1 then r.c0 else r.c1) else (if i < 3 then r.c2 else r.c3)
      else
        if i < 6 then (if i < 5 then r.c4 else r.c5) else (if i < 7 then r.c6 else r.c7)
    else
      if i < 12 then
        if i < 10 then (if i < 9 then r.c8 else r.c9) else (if i < 11 then r.cA else r.cB)
      else
        if i < 14 then (if i < 13 then r.cC else r.cD) else (if i < 15 then r.cE else r.cF)
  }

  function RowOf(t: Table, i: bv8): Row
  {
    if i < 8 then
      if i < 4 then
        if i < 2 then (if i < 1 then t.r0 else t.r1) else (if i < 3 then t.r2 else t.r3)
      else
        if i < 6 then (if i < 5 then t.r4 else t.r5) else (if i < 7 then t.r6 else t.r7)
    else
      if i < 12 then
        if i < 10 then (if i < 9 then t.r8 else t.r9) else (if i < 11 then t.rA else t.rB)
      else
        if i < 14 then (if i < 13 then t.rC else t.rD) else (if i < 15 then t.rE else t.rF)
  }

  /** Entry x of table t (HASH_TABLE_i[x] in the C source). */
  function Lookup(t: Table, x: bv8): bv8
  {
    Column(RowOf(t, x >> 4), x & 0xF)
  }

  /** The four tables, copied from the Python twin (scrape_bc.py), whose
    * values the known hashes below pin down. */
  const Table0 := Table(
      Row(0x1D, 0x50, 0x7E, 0x03, 0x94, 0xCE, 0x97, 0x7F, 0x2A, 0x6B, 0xF1, 0x01, 0x27, 0x6D, 0x8B, 0x13),
      Row(0x9A, 0xFE, 0x90, 0x33, 0x81, 0xD1, 0x1E, 0x48, 0xDD, 0xC3, 0x9B, 0x85, 0x8E, 0x9D, 0x37, 0x18),
      Row(0x36, 0x42, 0x07, 0x78, 0xB5, 0xD6, 0x82, 0x74, 0xD9, 0xAB, 0x10, 0x8A, 0xE2, 0x21, 0x61, 0xC0),
      Row(0x58, 0x72, 0xF7, 0x88, 0x57, 0xED, 0x32, 0x16, 0x5A, 0xF9, 0x79, 0xA1, 0xBA, 0xFC, 0xAC, 0x30),
      Row(0xBC, 0xB4, 0x76, 0x26, 0xBF, 0xCA, 0x6A, 0xA4, 0x2C, 0xF3, 0x38, 0x25, 0xB8, 0xB0, 0x66, 0x5D),
      Row(0x1B, 0x40, 0x96, 0xC1, 0xBE, 0x15, 0x9C, 0x39, 0xEC, 0xB6, 0x1A, 0xA5, 0xA0, 0x4A, 0x54, 0xCC),
      Row(0x5C, 0xDC, 0x5F, 0xB7, 0xA7, 0x22, 0xD5, 0x4C, 0xDF, 0x6E, 0x9E, 0xDA, 0x0B, 0x06, 0x4B, 0x44),
      Row(0xAF, 0x2B, 0x75, 0x86, 0x64, 0xA8, 0x53, 0x65, 0x83, 0xD7, 0xAA, 0x92, 0x95, 0x47, 0xFF, 0x08),
      Row(0xCD, 0xB1, 0xD4, 0x35, 0x8F, 0x3D, 0x0F, 0x00, 0xC5, 0x19, 0x43, 0xC6, 0xC2, 0x84, 0x04, 0x24),
      Row(0xAD, 0x71, 0xEB, 0x69, 0xE8, 0x7A, 0xE1, 0x0D, 0x60, 0x4D, 0x4F, 0x31, 0xCB, 0xC9, 0xC8, 0x8C),
      Row(0x5E, 0xFD, 0x17, 0xCF, 0x09, 0x52, 0xE3, 0x3B, 0x29, 0x0A, 0x73, 0x56, 0x68, 0xF2, 0xD0, 0x3E),
      Row(0x0C, 0x91, 0xE4, 0x49, 0x14, 0x9F, 0x67, 0x63, 0xA6, 0xE6, 0xBB, 0x3C, 0xD2, 0x89, 0xFA, 0xEA),
      Row(0xAE, 0x77, 0x20, 0x6F, 0x8D, 0x05, 0x12, 0x2D, 0x5B, 0x93, 0x99, 0xA3, 0xE5, 0xEE, 0xBD, 0xC4),
      Row(0xF6, 0x59, 0x23, 0x7D, 0xD8, 0x4E, 0xE0, 0xD3, 0xA9, 0x6C, 0xB2, 0x1C, 0x55, 0x2E, 0x11, 0x46),
      Row(0x3F, 0x70, 0xF5, 0x98, 0xEF, 0xE9, 0x0E, 0x62, 0xF4, 0xF0, 0x80, 0x1F, 0x02, 0x34, 0x7B, 0xE7),
      Row(0xDE, 0xDB, 0x45, 0x51, 0xB9, 0x2F, 0xC7, 0xF8, 0x7C, 0x41, 0x28, 0x3A, 0xA2, 0x87, 0xB3, 0xFB))
  const Table1 := Table(
      Row(0x9F, 0x8F, 0xDF, 0xB9, 0xD9, 0x1D, 0x45, 0x44, 0xE1, 0x76, 0xB2, 0xDC, 0x77, 0xE7, 0x0F, 0xC9),
      Row(0x72, 0xC3, 0x2A, 0xB4, 0x06, 0x13, 0x3F, 0x7E, 0x8A, 0x7B, 0xE0, 0xC8, 0x31, 0xDB, 0x64, 0x0D),
      Row(0x3C, 0x80, 0x2E, 0x5C, 0xF5, 0xCA, 0x97, 0x5F, 0x79, 0x49, 0xA6, 0xF0, 0xBD, 0x61, 0x08, 0x75),
      Row(0x4E, 0x99, 0x0E, 0x2C, 0xA5, 0x5D, 0x40, 0x55, 0xF4, 0xAE, 0x90, 0x05, 0x0A, 0x33, 0xA7, 0x5E),
      Row(0x57, 0xE6, 0x9B, 0xB5, 0x6C, 0x6A, 0x54, 0x8B, 0xAF, 0x69, 0xCE, 0x7A, 0xCF, 0xE3, 0x9C, 0x7F),
      Row(0x59, 0x9A, 0x88, 0xC4, 0x98, 0xA8, 0x21, 0x37, 0xFA, 0x03, 0x5A, 0x82, 0x26, 0xAB, 0x93, 0xB7),
      Row(0x1F, 0x41, 0xFF, 0x78, 0xEB, 0xD0, 0xA3, 0xBC, 0xDD, 0x73, 0xF8, 0xD3, 0xA0, 0xAD, 0xEE, 0x94),
      Row(0x0C, 0x20, 0xC2, 0x6D, 0x0B, 0xB3, 0x02, 0xC5, 0x34, 0x56, 0xF3, 0x6F, 0x81, 0xE4, 0xBA, 0x3B),
      Row(0xF2, 0x12, 0xCB, 0x58, 0xD6, 0x1C, 0xED, 0x7D, 0xBB, 0x67, 0x8D, 0x2B, 0x1A, 0x04, 0xAC, 0xFE),
      Row(0x25, 0x51, 0x23, 0x46, 0x60, 0x27, 0xA9, 0x36, 0xA2, 0x63, 0x18, 0x39, 0xD2, 0xB1, 0x7C, 0x00),
      Row(0xC1, 0x71, 0x8E, 0x62, 0x5B, 0xDE, 0xB6, 0xB8, 0xF1, 0x9E, 0x10, 0x84, 0x11, 0xF9, 0x17, 0xB0),
      Row(0xAA, 0xC7, 0x15, 0xD7, 0x8C, 0x3E, 0x38, 0x29, 0x24, 0x09, 0x70, 0x52, 0x65, 0x42, 0xD4, 0x48),
      Row(0x92, 0x1E, 0xD1, 0xE5, 0x4D, 0x4C, 0x4B, 0xD5, 0x1B, 0x74, 0x3A, 0xBE, 0x89, 0x95, 0x16, 0x01),
      Row(0x96, 0x9D, 0xEF, 0x28, 0x32, 0x50, 0x30, 0xF6, 0x47, 0x2F, 0xE9, 0x4F, 0x35, 0xC0, 0x22, 0xEC),
      Row(0x43, 0x53, 0x14, 0x4A, 0xA4, 0xE2, 0xEA, 0x83, 0x6E, 0x07, 0x2D, 0x87, 0x68, 0xDA, 0x86, 0xF7),
      Row(0xFC, 0xE8, 0x66, 0xCC, 0x91, 0x85, 0xCD, 0x19, 0x6B, 0xFB, 0xC6, 0xA1, 0xBF, 0xD8, 0x3D, 0xFD))
  const Table2 := Table(
      Row(0x35, 0x85, 0x49, 0xE2, 0xA7, 0x42, 0xDF, 0x0B, 0x2D, 0x23, 0xDD, 0xDE, 0x1F, 0x17, 0xBB, 0xCF),
      Row(0x4E, 0xA3, 0x19, 0x04, 0x71, 0x12, 0xB5, 0x50, 0x43, 0x64, 0xA0, 0x15, 0xDB, 0x22, 0xB0, 0x83),
      Row(0x39, 0xEA, 0xAF, 0xC3, 0xD0, 0xCE, 0x77, 0x14, 0xAD, 0x56, 0x80, 0x5F, 0x6E, 0xD2, 0xD9, 0xC0),
      Row(0xE6, 0xF6, 0x70, 0xF9, 0x05, 0x5A, 0x33, 0xC5, 0x8C, 0x73, 0xCB, 0xFA, 0x81, 0x3E, 0xD8, 0x9E),
      Row(0x26, 0xD6, 0x0C, 0xBA, 0xAA, 0xCD, 0x7E, 0x9D, 0xFF, 0x1D, 0x06, 0xC4, 0xED, 0xF2, 0xF4, 0x5B),
      Row(0x94, 0x9B, 0xA1, 0x5E, 0xB8, 0x37, 0xC1, 0xF1, 0x57, 0x7B, 0xD7, 0xFB, 0x25, 0xCC, 0x91, 0xF0),
      Row(0x62, 0x7F, 0xFC, 0x1A, 0x96, 0x72, 0x2F, 0xDA, 0x38, 0xA2, 0x3A, 0xBF, 0xB4, 0xB1, 0xE8, 0xBD),
      Row(0x0F, 0xF7, 0xAE, 0xA6, 0x88, 0x74, 0x2C, 0x7D, 0x01, 0xEC, 0x07, 0x24, 0x40, 0x34, 0x5D, 0x59),
      Row(0x9C, 0x7A, 0x9A, 0xEE, 0xE7, 0x46, 0x9F, 0x61, 0x63, 0x30, 0xB2, 0x97, 0xEF, 0xAC, 0x76, 0x8E),
      Row(0x75, 0xE4, 0xD3, 0xA9, 0x2A, 0x41, 0x00, 0xA5, 0xBC, 0x66, 0x51, 0xCA, 0x1B, 0xB7, 0x7C, 0x0E),
      Row(0x18, 0x6B, 0xC7, 0x78, 0x84, 0x6A, 0x6C, 0x82, 0x60, 0xD5, 0x1C, 0x13, 0x55, 0x52, 0xB9, 0x53),
      Row(0x32, 0x1E, 0xB6, 0x28, 0x4B, 0x8F, 0x11, 0x8D, 0x8B, 0xFD, 0x10, 0x67, 0x3F, 0xD1, 0x36, 0x45),
      Row(0x86, 0xC9, 0x4A, 0x54, 0x4F, 0xF8, 0x79, 0x29, 0x69, 0x08, 0xE9, 0x89, 0x20, 0xAB, 0x6D, 0xE3),
      Row(0xC6, 0x98, 0x99, 0xE5, 0x93, 0x48, 0x09, 0xE1, 0xF3, 0x47, 0x4C, 0xFE, 0x8A, 0x95, 0x3C, 0xEB),
      Row(0x2B, 0x03, 0xF5, 0xA8, 0x58, 0x3D, 0xC2, 0x31, 0x65, 0xDC, 0x27, 0xBE, 0x21, 0x68, 0xE0, 0xB3),
      Row(0xC8, 0xA4, 0x02, 0x2E, 0xD4, 0x3B, 0x6F, 0x5C, 0x87, 0x0A, 0x92, 0x0D, 0x4D, 0x16, 0x44, 0x90))
  const Table3 := Table(
      Row(0x5F, 0xD5, 0xB8, 0xF3, 0x68, 0x63, 0xB3, 0xE6, 0xCE, 0x33, 0x02, 0x6A, 0x99, 0xD0, 0x12, 0xA7),
      Row(0x2F, 0x0E, 0xAD, 0xF7, 0xA2, 0x0C, 0x60, 0xAB, 0x4E, 0x75, 0xD7, 0x6F, 0x26, 0xD8, 0x1A, 0xB5),
      Row(0x30, 0xA6, 0xEB, 0x11, 0x2E, 0x61, 0x9F, 0x7A, 0xA3, 0x8E, 0xA0, 0xDF, 0x43, 0xB7, 0x8D, 0xCA),
      Row(0x4A, 0x5A, 0x98, 0xF1, 0x66, 0x38, 0x1C, 0xD1, 0x5D, 0xF0, 0xCF, 0xB1, 0x74, 0xCD, 0x9D, 0xB9),
      Row(0x3E, 0x8C, 0xE7, 0x31, 0xEC, 0x7F, 0x0F, 0x2C, 0x7C, 0x71, 0x6D, 0x8B, 0xFE, 0xC3, 0x23, 0xC0),
      Row(0xB4, 0xC6, 0x7D, 0xC9, 0xBD, 0x3D, 0x04, 0xF2, 0x5E, 0x03, 0xE8, 0xD2, 0xDD, 0x53, 0xFB, 0x64),
      Row(0xDC, 0xD4, 0x90, 0xDA, 0x08, 0x51, 0x78, 0xBC, 0xE4, 0xC1, 0xA1, 0x29, 0x36, 0xCC, 0x1B, 0x87),
      Row(0x95, 0x8F, 0xE9, 0x97, 0xD9, 0x80, 0x6E, 0xF4, 0x94, 0xDB, 0x10, 0xE2, 0xAE, 0xBB, 0x93, 0xD3),
      Row(0x57, 0x5B, 0x2D, 0x0B, 0x01, 0x7B, 0xF6, 0x40, 0x1E, 0x09, 0x9B, 0x67, 0x83, 0x96, 0xB2, 0xFC),
      Row(0x46, 0x89, 0xB6, 0x9C, 0xC4, 0x69, 0x70, 0x54, 0x24, 0x05, 0x28, 0xDE, 0x17, 0xEE, 0xA8, 0xE5),
      Row(0x77, 0x48, 0x16, 0x0D, 0x06, 0x18, 0x42, 0x5C, 0x1D, 0xFD, 0xC5, 0x50, 0xAA, 0x4D, 0xEA, 0x21),
      Row(0x59, 0x9E, 0xF8, 0x73, 0x14, 0x82, 0x32, 0x3C, 0xEF, 0xE3, 0x15, 0x8A, 0x07, 0x41, 0x56, 0xC8),
      Row(0x79, 0x22, 0x45, 0x92, 0xA5, 0x1F, 0xC7, 0x2A, 0x85, 0x19, 0xBE, 0xE0, 0x7E, 0x25, 0xBF, 0x9A),
      Row(0x0A, 0x47, 0x84, 0xED, 0xB0, 0x81, 0x72, 0x6B, 0x52, 0xD6, 0xFF, 0x44, 0x3F, 0xA9, 0xF9, 0xC2),
      Row(0x37, 0x20, 0xAF, 0x3A, 0xCB, 0x62, 0x88, 0x86, 0x4B, 0x76, 0x2B, 0x91, 0x58, 0xA4, 0xFA, 0xF5),
      Row(0x55, 0x49, 0x4F, 0xBA, 0xE1, 0x39, 0x4C, 0x13, 0x65, 0x3B, 0x34, 0x6C, 0x00, 0x35, 0xAC, 0x27))

  datatype Lanes = Lanes(h0: bv8, h1: bv8, h2: bv8, h3: bv8)

  const Start := Lanes(0, 0, 0, 0)

  /** One input byte advances every lane through its own table. */
  function Step(l: Lanes, c: bv8): Lanes
  {
    Lanes(Lookup(Table0, c ^ l.h0), Lookup(Table1, c ^ l.h1),
          Lookup(Table2, c ^ l.h2), Lookup(Table3, c ^ l.h3))
  }

  /** The lanes after feeding the bytes of s, in order, starting from l. */
  function Fold(l: Lanes, s: seq<bv8>): Lanes
    decreases |s|
  {
    if s == [] then l else Fold(Step(l, s[0]), s[1..])
  }

  function Pack(l: Lanes): bv32
  {
    (l.h0 as bv32 << 24) | (l.h1 as bv32 << 16) | (l.h2 as bv32 << 8) | l.h3 as bv32
  }

  /** The bytes a C string walk sees: everything before the first NUL. */
  function CString(s: seq<bv8>): (r: seq<bv8>)
    ensures r <= s && 0 !in r
    ensures |r| < |s| ==> s[|r|] == 0
  {
    if s == [] || s[0] == 0 then [] else [s[0]] + CString(s[1..])
  }

  /** The value string_hash returns for the character array s. */
  function Hash(s: seq<bv8>): bv32
  {
    Pack(Fold(Start, CString(s)))
  }

  lemma {:induction false} NulFreeCString(s: seq<bv8>)
    requires 0 !in s
    ensures CString(s) == s
  {
    if s != [] {
      NulFreeCString(s[1..]);
    }
  }

  /** The hash is a left fold: feeding s ++ t is feeding s, then t. */
  lemma {:induction false} FoldAppend(l: Lanes, s: seq<bv8>, t: seq<bv8>)
    ensures Fold(l, s + t) == Fold(Fold(l, s), t)
    decreases |s|
  {
    if s == [] {
      assert s + t == t;
    } else {
      assert (s + t)[1..] == s[1..] + t;
      FoldAppend(Step(l, s[0]), s[1..], t);
    }
  }

  lemma FoldSnoc(l: Lanes, s: seq<bv8>, c: bv8)
    ensures Fold(l, s + [c]) == Step(Fold(l, s), c)
  {
    FoldAppend(l, s, [c]);
  }

  /** A NUL-free byte string is hashed in full. */
  lemma HashOfNulFree(s: seq<bv8>)
    requires 0 !in s
    ensures Hash(s) == Pack(Fold(Start, s))
  {
    NulFreeCString(s);
  }

  /** The empty string, and any string starting with NUL, hash to 0. */
  lemma EmptyHashesToZero(s: seq<bv8>)
    requires s == [] || s[0] == 0
    ensures Hash(s) == 0
  {
  }

  /** Only the bytes before the first NUL matter. */
  lemma {:induction false} StopsAtNul(s: seq<bv8>, t: seq<bv8>)
    requires 0 !in s
    ensures Hash(s + [0] + t) == Hash(s)
  {
    CStringStopsAtNul(s, t);
    NulFreeCString(s);
  }

  lemma {:induction false} CStringStopsAtNul(s: seq<bv8>, t: seq<bv8>)
    requires 0 !in s
    ensures CString(s + [0] + t) == s
    decreases |s|
  {
    if s == [] {
      assert (s + [0] + t)[0] == 0;
    } else {
      assert (s + [0] + t)[1..] == s[1..] + [0] + t;
      CStringStopsAtNul(s[1..], t);
    }
  }

  /** The packing keeps every lane: lane i is byte 3 - i of the result. */
  lemma PackKeepsLanes(l: Lanes)
    ensures (Pack(l) >> 24) as bv8 == l.h0
    ensures ((Pack(l) >> 16) & 0xFF) as bv8 == l.h1
    ensures ((Pack(l) >> 8) & 0xFF) as bv8 == l.h2
    ensures (Pack(l) & 0xFF) as bv8 == l.h3
  {
  }

  /** The version string "60" hashes to the constant the checksum exchange expects. */
  lemma KnownValue60()
    ensures Hash([0x36, 0x30]) == 0x7E0CE243
  {
    var p: seq<bv8> := [];
    FoldSnoc(Start, p, 0x36);
    assert Step(Start, 0x36) == Lanes(0x32, 0x40, 0x33, 0x1C);
    p := p + [0x36];
    FoldSnoc(Start, p, 0x30);
    assert Step(Lanes(0x32, 0x40, 0x33, 0x1C), 0x30) == Lanes(0x7E, 0x0C, 0xE2, 0x43);
    p := p + [0x30];
    assert Fold(Start, p) == Lanes(0x7E, 0x0C, 0xE2, 0x43);
    assert p == [0x36, 0x30];
    HashOfNulFree(p);
  }

  /** "App.pyc", the round-0 filter. */
  lemma KnownAppPyc()
    ensures Hash([0x41, 0x70, 0x70, 0x2E, 0x70, 0x79, 0x63]) == 0x373EB677
  {
    var p: seq<bv8> := [];
    FoldSnoc(Start, p, 0x41);
    assert Step(Start, 0x41) == Lanes(0xB4, 0xE6, 0xD6, 0x8C);
    p := p + [0x41];
    FoldSnoc(Start, p, 0x70);
    assert Step(Lanes(0xB4, 0xE6, 0xD6, 0x8C), 0x70) == Lanes(0x8D, 0xA9, 0x6C, 0x00);
    p := p + [0x70];
    FoldSnoc(Start, p, 0x70);
    assert Step(Lanes(0x8D, 0xA9, 0x6C, 0x00), 0x70) == Lanes(0x87, 0x2F, 0xDB, 0x95);
    p := p + [0x70];
    FoldSnoc(Start, p, 0x2E);
    assert Step(Lanes(0x87, 0x2F, 0xDB, 0x95), 0x2E) == Lanes(0x0A, 0x8F, 0x3B, 0x8A);
    p := p + [0x2E];
    FoldSnoc(Start, p, 0x70);
    assert Step(Lanes(0x0A, 0x8F, 0x3B, 0x8A), 0x70) == Lanes(0xAA, 0xFD, 0xC4, 0x34);
    p := p + [0x70];
    FoldSnoc(Start, p, 0x79);
    assert Step(Lanes(0xAA, 0xFD, 0xC4, 0x34), 0x79) == Lanes(0x7D, 0xD6, 0xD1, 0xC3);
    p := p + [0x79];
    FoldSnoc(Start, p, 0x63);
    assert Step(Lanes(0x7D, 0xD6, 0xD1, 0xC3), 0x63) == Lanes(0x37, 0x3E, 0xB6, 0x77);
    p := p + [0x63];
    assert Fold(Start, p) == Lanes(0x37, 0x3E, 0xB6, 0x77);
    assert p == [0x41, 0x70, 0x70, 0x2E, 0x70, 0x79, 0x63];
    HashOfNulFree(p);
  }

  /** "scripts", the round-0 directory leaf. */
  lemma KnownScripts()
    ensures Hash([0x73, 0x63, 0x72, 0x69, 0x70, 0x74, 0x73]) == 0x4DAFCB2F
  {
    var p: seq<bv8> := [];
    FoldSnoc(Start, p, 0x73);
    assert Step(Start, 0x73) == Lanes(0x86, 0x6D, 0xA6, 0x97);
    p := p + [0x73];
    FoldSnoc(Start, p, 0x63);
    assert Step(Lanes(0x86, 0x6D, 0xA6, 0x97), 0x63) == Lanes(0xE9, 0x0F, 0xF8, 0xE1);
    p := p + [0x63];
    FoldSnoc(Start, p, 0x72);
    assert Step(Lanes(0xE9, 0x0F, 0xF8, 0xE1), 0x72) == Lanes(0x31, 0xE4, 0xB2, 0x9C);
    p := p + [0x72];
    FoldSnoc(Start, p, 0x69);
    assert Step(Lanes(0x31, 0xE4, 0xB2, 0x9C), 0x69) == Lanes(0xEC, 0x04, 0xFE, 0x39);
    p := p + [0x69];
    FoldSnoc(Start, p, 0x70);
    assert Step(Lanes(0xEC, 0x04, 0xFE, 0x39), 0x70) == Lanes(0xCB, 0x0B, 0x76, 0x71);
    p := p + [0x70];
    FoldSnoc(Start, p, 0x74);
    assert Step(Lanes(0xCB, 0x0B, 0x76, 0x71), 0x74) == Lanes(0xEA, 0x3B, 0x49, 0x63);
    p := p + [0x74];
    FoldSnoc(Start, p, 0x73);
    assert Step(Lanes(0xEA, 0x3B, 0x49, 0x63), 0x73) == Lanes(0x4D, 0xAF, 0xCB, 0x2F);
    p := p + [0x73];
    assert Fold(Start, p) == Lanes(0x4D, 0xAF, 0xCB, 0x2F);
    assert p == [0x73, 0x63, 0x72, 0x69, 0x70, 0x74, 0x73];
    HashOfNulFree(p);
  }

  /** "Autoexec.pyc". */
  lemma KnownAutoexec()
    ensures Hash([0x41, 0x75, 0x74, 0x6F, 0x65, 0x78, 0x65, 0x63, 0x2E, 0x70, 0x79, 0x63]) == 0x8501E6A1
  {
    KnownAutoexecPrefix();
    var p: seq<bv8> := [0x41, 0x75, 0x74, 0x6F, 0x65, 0x78];
    FoldSnoc(Start, p, 0x65);
    assert Step(Lanes(0x88, 0x04, 0x0C, 0xC4), 0x65) == Lanes(0x34, 0x41, 0xA2, 0x48);
    p := p + [0x65];
    FoldSnoc(Start, p, 0x63);
    assert Step(Lanes(0x34, 0x41, 0xA2, 0x48), 0x63) == Lanes(0x39, 0x2E, 0xC9, 0xDF);
    p := p + [0x63];
    FoldSnoc(Start, p, 0x2E);
    assert Step(Lanes(0x39, 0x2E, 0xC9, 0xDF), 0x2E) == Lanes(0x48, 0x9F, 0x31, 0x49);
    p := p + [0x2E];
    FoldSnoc(Start, p, 0x70);
    assert Step(Lanes(0x48, 0x9F, 0x31, 0x49), 0x70) == Lanes(0x5A, 0xF7, 0xD6, 0xF0);
    p := p + [0x70];
    FoldSnoc(Start, p, 0x79);
    assert Step(Lanes(0x5A, 0xF7, 0xD6, 0xF0), 0x79) == Lanes(0x78, 0xAC, 0x53, 0x09);
    p := p + [0x79];
    FoldSnoc(Start, p, 0x63);
    assert Step(Lanes(0x78, 0xAC, 0x53, 0x09), 0x63) == Lanes(0x85, 0x01, 0xE6, 0xA1);
    p := p + [0x63];
    assert Fold(Start, p) == Lanes(0x85, 0x01, 0xE6, 0xA1);
    assert p == [0x41, 0x75, 0x74, 0x6F, 0x65, 0x78, 0x65, 0x63, 0x2E, 0x70, 0x79, 0x63];
    HashOfNulFree(p);
  }

  lemma KnownAutoexecPrefix()
    ensures Fold(Start, [0x41, 0x75, 0x74, 0x6F, 0x65, 0x78]) == Lanes(0x88, 0x04, 0x0C, 0xC4)
  {
    var p: seq<bv8> := [];
    FoldSnoc(Start, p, 0x41);
    assert Step(Start, 0x41) == Lanes(0xB4, 0xE6, 0xD6, 0x8C);
    p := p + [0x41];
    FoldSnoc(Start, p, 0x75);
    assert Step(Lanes(0xB4, 0xE6, 0xD6, 0x8C), 0x75) == Lanes(0x77, 0x46, 0x78, 0x3B);
    p := p + [0x75];
    FoldSnoc(Start, p, 0x74);
    assert Step(Lanes(0x77, 0x46, 0x78, 0x3B), 0x74) == Lanes(0x03, 0x0E, 0x1F, 0xC0);
    p := p + [0x74];
    FoldSnoc(Start, p, 0x6F);
    assert Step(Lanes(0x03, 0x0E, 0x1F, 0xC0), 0x6F) == Lanes(0x0B, 0x41, 0x0F, 0x21);
    p := p + [0x6F];
    FoldSnoc(Start, p, 0x65);
    assert Step(Lanes(0x0B, 0x41, 0x0F, 0x21), 0x65) == Lanes(0x4B, 0xF5, 0x3A, 0xEC);
    p := p + [0x65];
    FoldSnoc(Start, p, 0x78);
    assert Step(Lanes(0x4B, 0xF5, 0x3A, 0xEC), 0x78) == Lanes(0x88, 0x04, 0x0C, 0xC4);
    p := p + [0x78];
    assert p == [0x41, 0x75, 0x74, 0x6F, 0x65, 0x78];
  }

  /** "ships" (lower case). */
  lemma KnownShipsLower()
    ensures Hash([0x73, 0x68, 0x69, 0x70, 0x73]) == 0xB831D315
  {
    var p: seq<bv8> := [];
    FoldSnoc(Start, p, 0x73);
    assert Step(Start, 0x73) == Lanes(0x86, 0x6D, 0xA6, 0x97);
    p := p + [0x73];
    FoldSnoc(Start, p, 0x68);
    assert Step(Lanes(0x86, 0x6D, 0xA6, 0x97), 0x68) == Lanes(0x7B, 0x1D, 0x6D, 0x27);
    p := p + [0x68];
    FoldSnoc(Start, p, 0x69);
    assert Step(Lanes(0x7B, 0x1D, 0x6D, 0x27), 0x69) == Lanes(0x90, 0x0B, 0xA7, 0x23);
    p := p + [0x69];
    FoldSnoc(Start, p, 0x70);
    assert Step(Lanes(0x90, 0x0B, 0xA7, 0x23), 0x70) == Lanes(0x3F, 0x6F, 0xE1, 0xC9);
    p := p + [0x70];
    FoldSnoc(Start, p, 0x73);
    assert Step(Lanes(0x3F, 0x6F, 0xE1, 0xC9), 0x73) == Lanes(0xB8, 0x31, 0xD3, 0x15);
    p := p + [0x73];
    assert Fold(Start, p) == Lanes(0xB8, 0x31, 0xD3, 0x15);
    assert p == [0x73, 0x68, 0x69, 0x70, 0x73];
    HashOfNulFree(p);
  }

  /** "Ships" (capitalised). */
  lemma KnownShipsUpper()
    ensures Hash([0x53, 0x68, 0x69, 0x70, 0x73]) == 0x540DA4D5
  {
    var p: seq<bv8> := [];
    FoldSnoc(Start, p, 0x53);
    assert Step(Start, 0x53) == Lanes(0xC1, 0xC4, 0x5E, 0xC9);
    p := p + [0x53];
    FoldSnoc(Start, p, 0x68);
    assert Step(Lanes(0xC1, 0xC4, 0x5E, 0xC9), 0x68) == Lanes(0x0A, 0x11, 0x33, 0x48);
    p := p + [0x68];
    FoldSnoc(Start, p, 0x69);
    assert Step(Lanes(0x0A, 0x11, 0x33, 0x48), 0x69) == Lanes(0xB7, 0x34, 0xD7, 0xA6);
    p := p + [0x69];
    FoldSnoc(Start, p, 0x70);
    assert Step(Lanes(0xB7, 0x34, 0xD7, 0xA6), 0x70) == Lanes(0x2D, 0x6C, 0x82, 0x72);
    p := p + [0x70];
    FoldSnoc(Start, p, 0x73);
    assert Step(Lanes(0x2D, 0x6C, 0x82, 0x72), 0x73) == Lanes(0x54, 0x0D, 0xA4, 0xD5);
    p := p + [0x73];
    assert Fold(Start, p) == Lanes(0x54, 0x0D, 0xA4, 0xD5);
    assert p == [0x53, 0x68, 0x69, 0x70, 0x73];
    HashOfNulFree(p);
  }

  /** The hash is case-sensitive: "ships" and "Ships" differ. */
  lemma CaseSensitive()
    ensures Hash([0x73, 0x68, 0x69, 0x70, 0x73]) != Hash([0x53, 0x68, 0x69, 0x70, 0x73])
  {
    KnownShipsLower();
    KnownShipsUpper();
  }

  /** string_hash: the while loop over the characters up to the NUL. */
  method StringHashLoop(str: seq<bv8>) returns (h: bv32)
    ensures h == Hash(str)
  {
    var l := Start;
    var i := 0;
    while i < |str| && str[i] != 0
      invariant 0 <= i <= |str|
      invariant 0 !in str[..i]
      invariant l == Fold(Start, str[..i])
    {
      FoldSnoc(Start, str[..i], str[i]);
      assert str[..i + 1] == str[..i] + [str[i]];
      l := Step(l, str[i]);
      i := i + 1;
    }
    assert CString(str) == str[..i] by {
      CStringOfPrefix(str, i);
    }
    h := Pack(l);
  }

  lemma {:induction false} CStringOfPrefix(s: seq<bv8>, i: nat)
    requires i <= |s| && 0 !in s[..i] && (i == |s| || s[i] == 0)
    ensures CString(s) == s[..i]
    decreases i
  {
    if i > 0 {
      assert s[1..][..i - 1] == s[1..i];
      assert s[0] in s[..i];
      CStringOfPrefix(s[1..], i - 1);
    }
  }
}
