/** The byte-level format of packed applications: fields, the XOR stream cipher, block checksums, sizes. */
module XmakerFormat {
  import opened Crc16

  const HEADER_SIZE: nat := 4096
  const FIRST_BODY_SIZE: nat := 8192
  const BLOCK: nat := 512
  const XFIL_KEY: bv32 := 0x4C494658
  const XAPP_KEY: bv32 := 0x50504158
  const LVMG_KEY: bv32 := 0x474D564C
  const MAX_APP_SIZE: nat := 16_703_488
  const MAX_DCF_BODY_SIZE: nat := 16 * 1024 * 1024

  type Bytes = seq<bv8>

  // ----- reading and writing fields -----

  function Get(b: Bytes, off: nat, n: nat): (r: Bytes)
    requires off + n <= |b|
    ensures |r| == n
  {
    b[off..off + n]
  }

  function Put(b: Bytes, off: nat, x: Bytes): (r: Bytes)
    requires off + |x| <= |b|
    ensures |r| == |b|
  {
    b[..off] + x + b[off + |x|..]
  }

  lemma PutHere(b: Bytes, off: nat, x: Bytes)
    requires off + |x| <= |b|
    ensures Get(Put(b, off, x), off, |x|) == x
  {
  }

  lemma PutElsewhere(b: Bytes, off: nat, x: Bytes, o: nat, n: nat)
    requires off + |x| <= |b| && o + n <= |b| && (o + n <= off || off + |x| <= o)
    ensures Get(Put(b, off, x), o, n) == Get(b, o, n)
  {
    var p := Put(b, off, x);
    forall i | o <= i < o + n ensures p[i] == b[i] {
    }
    assert p[o..o + n] == b[o..o + n];
  }

  lemma GetGet(b: Bytes, o: nat, n: nat, i: nat, m: nat)
    requires o + n <= |b| && i + m <= n
    ensures Get(Get(b, o, n), i, m) == Get(b, o + i, m)
  {
    var x, y := Get(Get(b, o, n), i, m), Get(b, o + i, m);
    forall k | 0 <= k < m ensures x[k] == y[k] {
      assert x[k] == b[o..o + n][i + k] == b[o + i + k];
    }
  }

  function LowByte(v: bv16): bv8 {
    (v & 0xff) as bv8
  }

  function HighByte(v: bv16): bv8 {
    (v >> 8) as bv8
  }

  function Join16(lo: bv8, hi: bv8): bv16 {
    ((hi as bv16) << 8) | (lo as bv16)
  }

  lemma JoinSplit(v: bv16)
    ensures Join16(LowByte(v), HighByte(v)) == v
  {
  }

  function Bytes16(v: bv16): (r: Bytes)
    ensures |r| == 2
  {
    [LowByte(v), HighByte(v)]
  }

  /** `read_u16le` */
  function Read16(b: Bytes, off: nat): bv16
    requires off + 2 <= |b|
  {
    Join16(b[off], b[off + 1])
  }

  lemma ReadOf16(b: Bytes, off: nat, v: bv16)
    requires off + 2 <= |b| && Get(b, off, 2) == Bytes16(v)
    ensures Read16(b, off) == v
  {
    hide Join16, LowByte, HighByte;
    assert Get(b, off, 2)[0] == b[off] && Get(b, off, 2)[1] == b[off + 1];
    JoinSplit(v);
  }

  lemma SameRead16(b: Bytes, off: nat, c: Bytes, o: nat)
    requires off + 2 <= |b| && o + 2 <= |c| && Get(b, off, 2) == Get(c, o, 2)
    ensures Read16(b, off) == Read16(c, o)
  {
    hide Join16;
    assert Get(b, off, 2)[0] == b[off] && Get(b, off, 2)[1] == b[off + 1];
    assert Get(c, o, 2)[0] == c[o] && Get(c, o, 2)[1] == c[o + 1];
  }

  function Pack(b7: bool, b6: bool, b5: bool, b4: bool, b3: bool, b2: bool, b1: bool, b0: bool): bv8 {
    (if b7 then 0x80 else 0) | (if b6 then 0x40 else 0) | (if b5 then 0x20 else 0) | (if b4 then 0x10 else 0)
      | (if b3 then 0x08 else 0) | (if b2 then 0x04 else 0) | (if b1 then 0x02 else 0) | (if b0 then 0x01 else 0)
  }

  function Digit(n: nat, weight: nat): bool
    requires weight > 0
  {
    n / weight % 2 == 1
  }

  /** The byte whose binary digits are those of `n` modulo 256. */
  function ByteOf(n: nat): bv8 {
    Pack(Digit(n, 128), Digit(n, 64), Digit(n, 32), Digit(n, 16), Digit(n, 8), Digit(n, 4), Digit(n, 2), Digit(n, 1))
  }

  function Weigh(b: bool, weight: nat): nat {
    if b then weight else 0
  }

  function ValueOf(b: bv8): nat {
    Weigh(b & 0x80 != 0, 128) + Weigh(b & 0x40 != 0, 64) + Weigh(b & 0x20 != 0, 32) + Weigh(b & 0x10 != 0, 16)
      + Weigh(b & 0x08 != 0, 8) + Weigh(b & 0x04 != 0, 4) + Weigh(b & 0x02 != 0, 2) + Weigh(b & 0x01 != 0, 1)
  }

  lemma PackBits(b7: bool, b6: bool, b5: bool, b4: bool, b3: bool, b2: bool, b1: bool, b0: bool)
    ensures var b := Pack(b7, b6, b5, b4, b3, b2, b1, b0);
      && (b & 0x80 != 0) == b7 && (b & 0x40 != 0) == b6 && (b & 0x20 != 0) == b5 && (b & 0x10 != 0) == b4
      && (b & 0x08 != 0) == b3 && (b & 0x04 != 0) == b2 && (b & 0x02 != 0) == b1 && (b & 0x01 != 0) == b0
  {
  }

  lemma Digit128(n: nat)
    ensures n % 256 == Weigh(Digit(n, 128), 128) + n % 128
  {
  }

  lemma Digit64(n: nat)
    ensures n % 128 == Weigh(Digit(n, 64), 64) + n % 64
  {
  }

  lemma Digit32(n: nat)
    ensures n % 64 == Weigh(Digit(n, 32), 32) + n % 32
  {
  }

  lemma Digit16(n: nat)
    ensures n % 32 == Weigh(Digit(n, 16), 16) + n % 16
  {
  }

  lemma Digit8(n: nat)
    ensures n % 16 == Weigh(Digit(n, 8), 8) + n % 8
  {
  }

  lemma Digit4(n: nat)
    ensures n % 8 == Weigh(Digit(n, 4), 4) + n % 4
  {
  }

  lemma Digit2(n: nat)
    ensures n % 4 == Weigh(Digit(n, 2), 2) + n % 2
  {
  }

  lemma Digit1(n: nat)
    ensures n % 2 == Weigh(Digit(n, 1), 1)
  {
  }

  /** A size as four bytes, low byte first; larger numbers lose their upper bits. */
  function Bytes32(n: nat): (r: Bytes)
    ensures |r| == 4
  {
    [ByteOf(n), ByteOf(n / 256), ByteOf(n / 65536), ByteOf(n / 16777216)]
  }

  /** `read_u32le` */
  function Read32(b: Bytes, off: nat): nat
    requires off + 4 <= |b|
  {
    ValueOf(b[off]) + 256 * ValueOf(b[off + 1]) + 65536 * ValueOf(b[off + 2]) + 16777216 * ValueOf(b[off + 3])
  }

  lemma ByteValue(n: nat)
    ensures ValueOf(ByteOf(n)) == n % 256
  {
    hide Pack, Digit, Weigh;
    PackBits(Digit(n, 128), Digit(n, 64), Digit(n, 32), Digit(n, 16), Digit(n, 8), Digit(n, 4), Digit(n, 2), Digit(n, 1));
    Digit128(n);
    Digit64(n);
    Digit32(n);
    Digit16(n);
    Digit8(n);
    Digit4(n);
    Digit2(n);
    Digit1(n);
  }

  lemma Digits(n: nat)
    requires n < 0x1_0000_0000
    ensures n == n % 256 + 256 * (n / 256 % 256) + 65536 * (n / 65536 % 256) + 16777216 * (n / 16777216 % 256)
  {
  }

  lemma ReadOf32(b: Bytes, off: nat, n: nat)
    requires off + 4 <= |b| && n < 0x1_0000_0000 && Get(b, off, 4) == Bytes32(n)
    ensures Read32(b, off) == n
  {
    hide ByteOf, ValueOf;
    var g := Get(b, off, 4);
    assert g[0] == b[off] && g[1] == b[off + 1] && g[2] == b[off + 2] && g[3] == b[off + 3];
    ByteValue(n);
    ByteValue(n / 256);
    ByteValue(n / 65536);
    ByteValue(n / 16777216);
    Digits(n);
  }

  // ----- the XOR stream -----

  function Xor8(a: bv8, b: bv8): bv8 {
    a ^ b
  }

  lemma Xor8Twice(a: bv8, k: bv8)
    ensures Xor8(Xor8(a, k), k) == a
  {
  }

  function KeyByte(key: bv32): bv8 {
    (key & 0xff) as bv8
  }

  function NextKey(key: bv32, table: seq<bv32>): bv32
    requires |table| == 256
  {
    (key >> 8) ^ table[KeyByte(key) as nat]
  }

  function KeyAfter(key: bv32, table: seq<bv32>, n: nat): bv32
    requires |table| == 256
  {
    if n == 0 then key else NextKey(KeyAfter(key, table, n - 1), table)
  }

  /** What `xmaker_xor_stream` makes of `data`. */
  function Stream(data: Bytes, key: bv32, table: seq<bv32>): (r: Bytes)
    requires |table| == 256
    ensures |r| == |data|
  {
    seq(|data|, i requires 0 <= i < |data| => Xor8(data[i], KeyByte(KeyAfter(key, table, i))))
  }

  /** Applying the stream again with the same key takes it off; where it ends depends only on the length. */
  lemma StreamTwice(data: Bytes, key: bv32, table: seq<bv32>)
    requires |table| == 256
    ensures Stream(Stream(data, key, table), key, table) == data
  {
    hide Xor8, KeyByte, KeyAfter;
    var s := Stream(data, key, table);
    forall i | 0 <= i < |data| ensures Stream(s, key, table)[i] == data[i] {
      Xor8Twice(data[i], KeyByte(KeyAfter(key, table, i)));
    }
  }

  /** `xmaker_xor_stream` */
  method XorStream(data: Bytes, key0: bv32, table: seq<bv32>) returns (res: Bytes, key: bv32)
    requires |table| == 256
    ensures res == Stream(data, key0, table) && key == KeyAfter(key0, table, |data|)
  {
    hide Xor8, KeyByte, NextKey, KeyAfter;
    KeyStart(key0, table);
    key := key0;
    var buf := new bv8[|data|](i requires 0 <= i < |data| => data[i]);
    var index: nat := 0;
    while index < |data|
      invariant index <= |data| == buf.Length && key == KeyAfter(key0, table, index)
      invariant forall i | 0 <= i < index :: buf[i] == Xor8(data[i], KeyByte(KeyAfter(key0, table, i)))
      invariant forall i | index <= i < |data| :: buf[i] == data[i]
    {
      buf[index] := Xor8(buf[index], KeyByte(key));
      KeyStep(key0, table, index);
      key := NextKey(key, table);
      index := index + 1;
    }
    res := buf[..];
  }

  lemma KeyStart(key: bv32, table: seq<bv32>)
    requires |table| == 256
    ensures KeyAfter(key, table, 0) == key
  {
  }

  lemma KeyStep(key: bv32, table: seq<bv32>, n: nat)
    requires |table| == 256
    ensures KeyAfter(key, table, n + 1) == NextKey(KeyAfter(key, table, n), table)
  {
    hide NextKey;
  }

  // ----- sizes -----

  /** `align_up` to whole blocks */
  function AlignUp(value: nat): (r: nat)
    ensures value <= r < value + BLOCK && r % BLOCK == 0
  {
    (value + BLOCK - 1) / BLOCK * BLOCK
  }

  function BlockCount(len: nat): nat {
    (len + BLOCK - 1) / BLOCK
  }

  function RecordSize(blocks: nat): (r: nat)
    ensures r >= 16 + 2 * blocks && r % BLOCK == 0 && (r - 16 - 2 * blocks) % 2 == 0
  {
    EvenRest((16 + 2 * blocks + BLOCK - 1) / BLOCK, blocks);
    AlignUp(16 + 2 * blocks)
  }

  lemma EvenRest(q: nat, n: nat)
    ensures (q * BLOCK - 16 - 2 * n) % 2 == 0
  {
    assert q * BLOCK - 16 - 2 * n == 2 * (256 * q - 8 - n);
  }

  function BodySize(len: nat): nat {
    FIRST_BODY_SIZE + RecordSize(BlockCount(len)) + BLOCK * BlockCount(len)
  }

  /** The downloader's limit on the body is exactly the packer's limit on the application. */
  lemma SizeLimit(len: nat)
    ensures BodySize(len) <= MAX_DCF_BODY_SIZE <==> len <= MAX_APP_SIZE
  {
    var n := BlockCount(len);
    if n <= 32624 {
      assert 16 + 2 * n <= 65264;
      assert RecordSize(n) <= 65536;
    } else {
      assert RecordSize(n) >= 65266;
      assert RecordSize(n) % 512 == 0 && RecordSize(n) >= 65536;
    }
  }

  // ----- the application as blocks -----

  function Zeros(n: nat): (r: Bytes)
    ensures |r| == n
  {
    seq(n, _ => 0)
  }

  /** The application, filled up with zeros to whole blocks. */
  function Padded(app: Bytes): (r: Bytes)
    ensures |r| == BLOCK * BlockCount(|app|)
  {
    app + Zeros(BLOCK * BlockCount(|app|) - |app|)
  }

  function Block(app: Bytes, i: nat): (r: Bytes)
    requires i < BlockCount(|app|)
    ensures |r| == BLOCK
  {
    Get(Padded(app), BLOCK * i, BLOCK)
  }

  function BlockCrc(app: Bytes, i: nat): bv16
    requires i < BlockCount(|app|)
  {
    Crc(Block(app, i), Seed(i + 1))
  }

  /** A seed is taken modulo 2^16. */
  function Seed(n: nat): bv16 {
    (n % 65536) as bv16
  }

  /** `duplicate_u16` */
  function Duplicate(v: bv16): bv32 {
    ((v as bv32) << 16) | (v as bv32)
  }

  /** The key of a block: its own checksum, mixed with that of the main header region. */
  function BlockKey(crc: bv16, mainCrc: bv16): bv32 {
    (crc as bv32) ^ (Duplicate(mainCrc) ^ XAPP_KEY)
  }
}
