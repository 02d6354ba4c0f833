/**
 * The file format: a flat sequence of 4-byte little-endian unsigned records,
 * as written by BinaryWriter.Write(uint) and read back by BitConverter.ToUInt32
 * (on a little-endian host).
 */
module RecordFormat {

  /** One byte of the file. */
  type Byte = b: int | 0 <= b < 0x100

  /** A record value: a C# `uint`, stored in 4 bytes. */
  type U32 = v: int | 0 <= v < 0x1_0000_0000

  /** BitConverter.ToUInt32(bytes, i): the four bytes at offset i, least significant first. */
  function DecodeAt(bytes: seq<Byte>, i: nat): (v: U32)
    requires i + 4 <= |bytes|
    ensures v < 0x100_0000 <==> bytes[i + 3] == 0
  {
    bytes[i] as int + 0x100 * bytes[i + 1] as int + 0x1_0000 * bytes[i + 2] as int
      + 0x100_0000 * bytes[i + 3] as int
  }

  /** BinaryWriter.Write(uint): the four bytes of v, least significant first. */
  function EncodeU32(v: U32): (bytes: seq<Byte>)
    ensures |bytes| == 4
  {
    var q1 := v / 0x100;
    var q2 := q1 / 0x100;
    [v % 0x100, q1 % 0x100, q2 % 0x100, q2 / 0x100]
  }

  /** Division by 256, pinned down by quotient and remainder. */
  lemma DivMod256(x: int, q: int, r: int)
    requires 0 <= r < 0x100 && x == 0x100 * q + r
    ensures x / 0x100 == q && x % 0x100 == r
  {
  }

  /** Four times a count is a whole number of records. */
  lemma FourTimes(n: nat)
    ensures (4 * n) % 4 == 0 && (4 * n) / 4 == n
  {
  }

  /** Whole records add up to whole records, and their counts add up. */
  lemma AlignedQuotients(a: nat, b: nat)
    requires a % 4 == 0 && b % 4 == 0
    ensures a == 4 * (a / 4) && b == 4 * (b / 4)
    ensures (a + b) % 4 == 0 && (a + b) / 4 == a / 4 + b / 4
  {
  }

  /** The bytes between two record boundaries are whole records, as many as the boundaries are apart. */
  lemma AlignedDifference(a: nat, b: nat)
    requires a % 4 == 0 && b % 4 == 0 && a <= b
    ensures a == 4 * (a / 4) && b - a == 4 * (b / 4 - a / 4)
    ensures (b - a) % 4 == 0 && (b - a) / 4 == b / 4 - a / 4
  {
    FourTimes(b / 4 - a / 4);
  }

  /** Adding whole records does not change the remainder. */
  lemma SameRemainder(a: nat, b: nat)
    requires b % 4 == 0
    ensures (a + b) % 4 == a % 4
  {
    assert b == 4 * (b / 4);
  }

  /** Decoding what BinaryWriter wrote gives back the written value. */
  lemma DecodeEncode(v: U32)
    ensures DecodeAt(EncodeU32(v), 0) == v
  {
    var q1 := v / 0x100;
    var q2 := q1 / 0x100;
    DivMod256(v, q1, v % 0x100);
    DivMod256(q1, q2, q1 % 0x100);
    DivMod256(q2, q2 / 0x100, q2 % 0x100);
    var b := EncodeU32(v);
    assert v == b[0] as int + 0x100 * (b[1] as int + 0x100 * (b[2] as int + 0x100 * b[3] as int));
  }

  /** Re-encoding a decoded record gives back its four bytes. */
  lemma EncodeDecode(bytes: seq<Byte>, i: nat)
    requires i + 4 <= |bytes|
    ensures EncodeU32(DecodeAt(bytes, i)) == bytes[i..i + 4]
  {
    var v := DecodeAt(bytes, i);
    var b0, b1, b2, b3: int := bytes[i], bytes[i + 1], bytes[i + 2], bytes[i + 3];
    DivMod256(v, b1 + 0x100 * b2 + 0x1_0000 * b3, b0);
    DivMod256(b1 + 0x100 * b2 + 0x1_0000 * b3, b2 + 0x100 * b3, b1);
    DivMod256(b2 + 0x100 * b3, b3, b2);
    assert EncodeU32(v) == [b0, b1, b2, b3];
  }

  /** A file holding one written value reads back as that value. */
  lemma RecordsEncodeU32(v: U32)
    ensures Records(EncodeU32(v)) == [v]
  {
    DecodeEncode(v);
    assert EncodeU32(v)[..0] == [];
  }

  /** All records of a byte sequence whose length is a multiple of the record width. */
  function Records(bytes: seq<Byte>): (vs: seq<U32>)
    requires |bytes| % 4 == 0
    ensures |vs| * 4 == |bytes|
    decreases |bytes|
  {
    if |bytes| == 0 then [] else Records(bytes[..|bytes| - 4]) + [DecodeAt(bytes, |bytes| - 4)]
  }

  /** Record j is the value decoded at byte offset 4 * j. */
  lemma {:induction false} RecordsAt(bytes: seq<Byte>)
    requires |bytes| % 4 == 0
    ensures forall j :: 0 <= j < |Records(bytes)| ==> Records(bytes)[j] == DecodeAt(bytes, 4 * j)
    decreases |bytes|
  {
    if |bytes| != 0 {
      var prefix := bytes[..|bytes| - 4];
      RecordsAt(prefix);
      assert forall j :: 0 <= j < |prefix| ==> prefix[j] == bytes[j];
    }
  }

  /** Extending a prefix by one record appends that record's value. */
  lemma RecordsSnoc(bytes: seq<Byte>, p: nat)
    requires p % 4 == 0 && p + 4 <= |bytes|
    ensures Records(bytes[..p + 4]) == Records(bytes[..p]) + [DecodeAt(bytes, p)]
  {
    var longer := bytes[..p + 4];
    assert longer[..p] == bytes[..p];
    assert DecodeAt(longer, p) == DecodeAt(bytes, p);
  }

  /** The n records that start at byte offset lo, in file order. */
  function RecordsIn(bytes: seq<Byte>, lo: nat, n: nat): (vs: seq<U32>)
    requires lo + 4 * n <= |bytes|
    ensures |vs| == n
  {
    if n == 0 then [] else RecordsIn(bytes, lo, n - 1) + [DecodeAt(bytes, lo + 4 * (n - 1))]
  }

  /** They are the records of the byte range they occupy. */
  lemma {:induction false} RecordsInRange(bytes: seq<Byte>, lo: nat, n: nat)
    requires lo + 4 * n <= |bytes|
    ensures (4 * n) % 4 == 0 && RecordsIn(bytes, lo, n) == Records(bytes[lo..lo + 4 * n])
  {
    FourTimes(n);
    if n != 0 {
      FourTimes(n - 1);
      RecordsInRange(bytes, lo, n - 1);
      var range := bytes[lo..lo + 4 * n];
      var p := 4 * (n - 1);
      RecordsSnoc(range, p);
      assert range[..p + 4] == range;
      assert range[..p] == bytes[lo..lo + p];
      assert DecodeAt(range, p) == DecodeAt(bytes, lo + p);
    }
  }

  /** The records of a whole file, counted from its start. */
  lemma RecordsInWhole(bytes: seq<Byte>)
    requires |bytes| % 4 == 0
    ensures RecordsIn(bytes, 0, |bytes| / 4) == Records(bytes)
  {
    RecordsInRange(bytes, 0, |bytes| / 4);
    assert bytes[0..4 * (|bytes| / 4)] == bytes;
  }

  /** The records of two adjacent runs are the records of the first, then those of the second. */
  lemma {:induction false} RecordsInSplit(bytes: seq<Byte>, lo: nat, a: nat, b: nat)
    requires lo + 4 * (a + b) <= |bytes|
    ensures RecordsIn(bytes, lo, a + b) == RecordsIn(bytes, lo, a) + RecordsIn(bytes, lo + 4 * a, b)
  {
    if b != 0 {
      RecordsInSplit(bytes, lo, a, b - 1);
      assert lo + 4 * (a + b - 1) == lo + 4 * a + 4 * (b - 1);
    }
  }

  /** The records before offset hi are those before lo followed by those from lo to hi. */
  lemma RecordsInPrefix(bytes: seq<Byte>, lo: nat, hi: nat)
    requires lo % 4 == 0 && hi % 4 == 0 && lo <= hi <= |bytes|
    ensures (hi - lo) % 4 == 0
    ensures RecordsIn(bytes, 0, hi / 4) == RecordsIn(bytes, 0, lo / 4) + RecordsIn(bytes, lo, (hi - lo) / 4)
  {
    AlignedDifference(lo, hi);
    var a, b := lo / 4, hi / 4 - lo / 4;
    RecordsInSplit(bytes, 0, a, b);
    assert a + b == hi / 4;
  }

  /** Decoding distributes over concatenation at a record boundary. */
  lemma {:induction false} RecordsAppend(a: seq<Byte>, b: seq<Byte>)
    requires |a| % 4 == 0 && |b| % 4 == 0
    ensures Records(a + b) == Records(a) + Records(b)
    decreases |b|
  {
    if b == [] {
      assert a + b == a;
    } else {
      var n := |a + b| - 4;
      var init := b[..|b| - 4];
      RecordsAppend(a, init);
      assert (a + b)[..n] == a + init;
      assert DecodeAt(a + b, n) == DecodeAt(b, |b| - 4);
    }
  }

  /** The bytes BinaryWriter produces for a sequence of values, in order. */
  function EncodeAll(vs: seq<U32>): (bytes: seq<Byte>)
    ensures |bytes| == 4 * |vs|
  {
    if vs == [] then [] else EncodeAll(vs[..|vs| - 1]) + EncodeU32(vs[|vs| - 1])
  }

  /** Reading back a file of written values yields exactly those values. */
  lemma {:induction false} RecordsEncodeAll(vs: seq<U32>)
    ensures Records(EncodeAll(vs)) == vs
  {
    if vs != [] {
      var init, last := vs[..|vs| - 1], vs[|vs| - 1];
      var written := EncodeAll(init);
      RecordsEncodeAll(init);
      RecordsAppend(written, EncodeU32(last));
      RecordsEncodeU32(last);
      assert EncodeAll(vs) == written + EncodeU32(last);
      assert vs == init + [last];
    }
  }

  /** Every well-formed file is the encoding of its records. */
  lemma {:induction false} EncodeAllRecords(bytes: seq<Byte>)
    requires |bytes| % 4 == 0
    ensures EncodeAll(Records(bytes)) == bytes
    decreases |bytes|
  {
    if |bytes| != 0 {
      var n := |bytes| - 4;
      var prefix := bytes[..n];
      EncodeAllRecords(prefix);
      var vs := Records(bytes);
      assert vs[..|vs| - 1] == Records(prefix);
      EncodeDecode(bytes, n);
      assert bytes == prefix + bytes[n..n + 4];
    }
  }
}
