/** The packing code itself: one buffer, written field by field and then encrypted in place. */
module XmakerPacker {
  import opened Crc16
  import opened XmakerFormat
  import opened XmakerBody
  import opened XmakerInspect

  function Fill(n: nat): (r: Bytes)
    ensures |r| == n
  {
    seq(n, _ => 0xff)
  }

  // ----- writing into one region of the buffer -----

  lemma PutHead(h: Bytes, rest: Bytes, off: nat, x: Bytes)
    requires off + |x| <= |h|
    ensures Put(h + rest, off, x) == Put(h, off, x) + rest
  {
  }

  lemma GetHead(h: Bytes, rest: Bytes, off: nat, n: nat)
    requires off + n <= |h|
    ensures Get(h + rest, off, n) == Get(h, off, n)
  {
  }

  lemma PutRecord(h: Bytes, rec: Bytes, p: Bytes, off: nat, x: Bytes)
    requires off + |x| <= |rec|
    ensures Put(h + rec + p, |h| + off, x) == h + Put(rec, off, x) + p
  {
  }

  lemma PutPayload(h: Bytes, rec: Bytes, p: Bytes, off: nat, x: Bytes)
    requires off + |x| <= |p|
    ensures Put(h + rec + p, |h| + |rec| + off, x) == h + rec + Put(p, off, x)
  {
  }

  /** Writing at the end of what has been written. */
  lemma PutNext(a: Bytes, n: nat, x: Bytes)
    requires |x| <= n
    ensures Put(a + Fill(n), |a|, x) == a + x + Fill(n - |x|)
  {
    assert (a + Fill(n))[..|a|] == a;
    assert (a + Fill(n))[|a| + |x|..] == Fill(n - |x|);
  }

  /** `xor_stream_inplace` */
  method XorInPlace(body0: Bytes, off: nat, n: nat, key: bv32, table: seq<bv32>) returns (body: Bytes)
    requires off + n <= |body0| && |table| == 256
    ensures body == Encrypt(body0, off, n, key, table)
  {
    var transformed, _ := XorStream(body0[off..off + n], key, table);
    body := Put(body0, off, transformed);
  }

  // ----- the record and the payload -----

  lemma BlockSlice(app: Bytes, i: nat)
    requires i < BlockCount(|app|)
    ensures var start := BLOCK * i; var piece := Slice(app, start, start + BLOCK);
      |piece| <= BLOCK && Block(app, i) == piece + Zeros(BLOCK - |piece|)
  {
    var start := BLOCK * i;
    var piece := Slice(app, start, start + BLOCK);
    assert start < |app|;
    var b := piece + Zeros(BLOCK - |piece|);
    forall k | 0 <= k < BLOCK ensures Block(app, i)[k] == b[k] {
      assert Block(app, i)[k] == Padded(app)[start + k];
    }
  }

  lemma PaddedGrows(app: Bytes, i: nat)
    requires i < BlockCount(|app|)
    ensures BLOCK * (i + 1) <= |Padded(app)|
    ensures Padded(app)[..BLOCK * i] + Block(app, i) == Padded(app)[..BLOCK * (i + 1)]
  {
  }

  /** What the buffer holds once `i` blocks have been written. */
  function Partial(head: Bytes, app: Bytes, i: nat): (r: Bytes)
    requires i <= BlockCount(|app|)
  {
    var n := BlockCount(|app|);
    head + (RecordHead(n) + CrcWords(app, i) + Fill(RecordSize(n) - 16 - 2 * i))
      + (Padded(app)[..BLOCK * i] + Fill(BLOCK * (n - i)))
  }

  lemma PartialNext(head: Bytes, app: Bytes, i: nat)
    requires |head| == R && i < BlockCount(|app|)
    ensures var n := BlockCount(|app|); var b := Partial(head, app, i);
      && R + RecordSize(n) + BLOCK * (i + 1) <= |b|
      && Put(Put(b, R + 16 + 2 * i, Bytes16(BlockCrc(app, i))), R + RecordSize(n) + BLOCK * i, Block(app, i))
           == Partial(head, app, i + 1)
  {
    hide RecordSize, Bytes16, BlockCrc, Padded, Block, RecordHead, Put;
    var n := BlockCount(|app|);
    var w := Bytes16(BlockCrc(app, i));
    var done, rest := RecordHead(n) + CrcWords(app, i), RecordSize(n) - 16 - 2 * i;
    var p, left := Padded(app)[..BLOCK * i], BLOCK * (n - i);
    PutRecord(head, done + Fill(rest), p + Fill(left), 16 + 2 * i, w);
    PutNext(done, rest, w);
    assert done + w == RecordHead(n) + CrcWords(app, i + 1);
    PutPayload(head, done + w + Fill(rest - 2), p + Fill(left), BLOCK * i, Block(app, i));
    PutNext(p, left, Block(app, i));
    PaddedGrows(app, i);
  }

  /** The loop over the application's blocks. */
  method PutBlocks(body0: Bytes, app: Bytes, crcTable: seq<bv16>, ghost head: Bytes) returns (body: Bytes)
    requires |head| == R && body0 == Partial(head, app, 0) && IsTable(crcTable)
    ensures body == Partial(head, app, BlockCount(|app|))
  {
    hide Partial, BlockCrc, Crc, Block, IsTable, Slice;
    var blockCount := BlockCount(|app|);
    body := body0;
    var blockIndex: nat := 0;
    while blockIndex < blockCount
      invariant blockIndex <= blockCount && body == Partial(head, app, blockIndex)
    {
      var start := BLOCK * blockIndex;
      var block := Slice(app, start, start + BLOCK);
      BlockSlice(app, blockIndex);
      if |block| < BLOCK {
        block := block + Zeros(BLOCK - |block|);
      }
      assert block == Block(app, blockIndex) by {
        assert Zeros(0) == [] && block + [] == block;
      }
      var blockCrc := Compute(block, Seed(blockIndex + 1), crcTable);
      CrcOfBlock(app, blockIndex);
      PartialNext(head, app, blockIndex);
      body := Put(body, R + 16 + 2 * blockIndex, Bytes16(blockCrc));
      body := Put(body, R + RecordSize(blockCount) + start, block);
      blockIndex := blockIndex + 1;
    }
  }

  lemma CrcOfBlock(app: Bytes, i: nat)
    requires i < BlockCount(|app|)
    ensures Crc(Block(app, i), Seed(i + 1)) == BlockCrc(app, i)
  {
    hide Crc, Block;
  }

  /** The loop that fills the record's unused words. */
  method PutChain(body0: Bytes, app: Bytes, crcTable: seq<bv16>, ghost head: Bytes) returns (body: Bytes)
    requires |head| == R && body0 == Partial(head, app, BlockCount(|app|)) && IsTable(crcTable)
    ensures body == head + Record(app) + Padded(app)
  {
    hide IsTable, Crc, Bytes16, Padded, RecordSize, CrcWords, RecordHead, Put, Chain, Growing, Record, Partial;
    var n := BlockCount(|app|);
    var size := RecordSize(n);
    ghost var rec := RecordStart(app);
    body := body0;
    GrowingStart(head, app);
    var offset := R + 16 + 2 * n;
    while offset < R + size
      invariant offset == R + |rec| && Filling(rec, app)
      invariant body == Growing(head, rec, size, Padded(app))
      decreases R + size - offset
    {
      FillingNext(rec, app);
      GrowingNext(head, rec, size, Padded(app), Bytes16(Crc(rec, Seed(offset))));
      var crc := Compute(body[R..offset], Seed(offset), crcTable);
      body := Put(body, offset, Bytes16(crc));
      rec := rec + Bytes16(crc);
      offset := offset + 2;
    }
    GrowingEnd(head, rec, app);
  }

  /** `rec` is a stage of the record of `app` being filled up. */
  ghost predicate Filling(rec: Bytes, app: Bytes) {
    var size := RecordSize(BlockCount(|app|));
    |rec| <= size && (size - |rec|) % 2 == 0 && Chain(rec, size) == Record(app)
  }

  lemma FillingNext(rec: Bytes, app: Bytes)
    requires Filling(rec, app) && |rec| != RecordSize(BlockCount(|app|))
    ensures |rec| + 2 <= RecordSize(BlockCount(|app|)) && Filling(rec + Bytes16(Crc(rec, Seed(R + |rec|))), app)
  {
    hide Crc, Bytes16, RecordSize, Record, Chain;
    var size := RecordSize(BlockCount(|app|));
    EvenGap(|rec|, size);
    ChainStep(rec, size);
  }

  lemma EvenGap(a: nat, b: nat)
    requires a < b && (b - a) % 2 == 0
    ensures a + 2 <= b && (b - (a + 2)) % 2 == 0
  {
  }

  lemma ChainStep(rec: Bytes, size: nat)
    requires |rec| + 2 <= size && (size - |rec|) % 2 == 0
    ensures (size - (|rec| + 2)) % 2 == 0
    ensures Chain(rec, size) == Chain(rec + Bytes16(Crc(rec, Seed(R + |rec|))), size)
  {
    hide Crc, Bytes16;
    EvenGap(|rec|, size);
  }

  lemma GrowingStart(head: Bytes, app: Bytes)
    ensures var rec := RecordStart(app); var n := BlockCount(|app|);
      Filling(rec, app) && Partial(head, app, n) == Growing(head, rec, RecordSize(n), Padded(app))
  {
    hide Padded, RecordSize, CrcWords, RecordHead, Chain;
    assert Padded(app)[..BLOCK * BlockCount(|app|)] + Fill(0) == Padded(app);
  }

  lemma GrowingEnd(head: Bytes, rec: Bytes, app: Bytes)
    requires Filling(rec, app) && |rec| == RecordSize(BlockCount(|app|))
    ensures Growing(head, rec, |rec|, Padded(app)) == head + Record(app) + Padded(app)
  {
    hide Padded, RecordSize, Record;
    assert rec + Fill(0) == rec;
  }

  /** The buffer while its record is filled up to `size`. */
  function Growing(head: Bytes, rec: Bytes, size: nat, p: Bytes): Bytes
    requires |rec| <= size
  {
    head + (rec + Fill(size - |rec|)) + p
  }

  lemma GrowingNext(head: Bytes, rec: Bytes, size: nat, p: Bytes, w: Bytes)
    requires |head| == R && |w| == 2 && |rec| + 2 <= size
    ensures var b := Growing(head, rec, size, p);
      && R + |rec| + 2 <= |b| && b[R..R + |rec|] == rec
      && Put(b, R + |rec|, w) == Growing(head, rec + w, size, p)
  {
    hide Put;
    PutRecord(head, rec + Fill(size - |rec|), p, |rec|, w);
    PutNext(rec, size - |rec|, w);
  }

  // ----- the header -----

  /** All the header steps of the encrypting branch. */
  method SealHeader(body0: Bytes, payload: nat, appCrc: bv16, crcTable: seq<bv16>, table: seq<bv32>, ghost h: Bytes, ghost rest: Bytes)
    returns (body: Bytes, mainCrc: bv16)
    requires |h| == R && body0 == h + rest && IsTable(crcTable) && |table| == 256
    ensures body == Seal(h, payload, appCrc, table) + rest && mainCrc == MainCrc(h)
  {
    hide IsTable, Crc, Bytes16, Bytes32, Stream, BlockStream, Seal, PutAppInfo, PutTop, PutSettings, Read16;
    ghost var a, b, t, d := SealSteps(h, payload, appCrc, table);
    body := WriteAppInfo(body0, payload, appCrc, crcTable, h, rest);
    var infoCrc := Read16(body, 0x80);
    GetHead(a, rest, 0x80, 2);
    SameRead16(body, 0x80, a, 0x80);
    EncryptHead(a, rest, 0x40, 0x40, InfoKey(infoCrc), table);
    body := XorInPlace(body, 0x40, 0x40, InfoKey(infoCrc), table);
    GetHead(b, rest, 0x400, 0xC00);
    mainCrc := Compute(body[0x400..0x1000], 0xffff, crcTable);
    body := WriteTop(body, mainCrc, crcTable, b, rest);
    EncryptHead(t, rest, 0, 0x40, LVMG_KEY, table);
    body := XorInPlace(body, 0, 0x40, LVMG_KEY, table);
    body := WriteSettings(body, Encrypt(t, 0, 0x40, LVMG_KEY, table), rest);
    body := EncryptBlocks(body, 0x400, MainKeys(mainCrc), table);
    GetHead(d, rest, 0x400, 0xC00);
    PutHead(d, rest, 0x400, BlockStream(Get(d, 0x400, 0xC00), MainKeys(mainCrc), table));
  }

  lemma EncryptHead(h: Bytes, rest: Bytes, off: nat, n: nat, key: bv32, table: seq<bv32>)
    requires off + n <= |h| && |table| == 256
    ensures Encrypt(h + rest, off, n, key, table) == Encrypt(h, off, n, key, table) + rest
  {
    hide Stream;
    GetHead(h, rest, off, n);
    PutHead(h, rest, off, Stream(Get(h, off, n), key, table));
  }

  method WriteAppInfo(body0: Bytes, payload: nat, appCrc: bv16, crcTable: seq<bv16>, ghost h: Bytes, ghost rest: Bytes)
    returns (body: Bytes)
    requires |h| == R && body0 == h + rest && IsTable(crcTable)
    ensures body == PutAppInfo(h, payload, appCrc) + rest
  {
    hide IsTable, Crc, Bytes16, Bytes32, Put;
    PutHead(h, rest, 0x40, Bytes32(R));
    body := Put(body0, 0x40, Bytes32(R));
    ghost var g := Put(h, 0x40, Bytes32(R));
    PutHead(g, rest, 0x44, Bytes32(payload));
    body := Put(body, 0x44, Bytes32(payload));
    g := Put(g, 0x44, Bytes32(payload));
    PutHead(g, rest, 0x4C, Bytes16(appCrc));
    body := Put(body, 0x4C, Bytes16(appCrc));
    g := Put(g, 0x4C, Bytes16(appCrc));
    PutHead(g, rest, 0x4F, [0x01]);
    body := Put(body, 0x4F, [0x01]);
    g := Put(g, 0x4F, [0x01]);
    GetHead(g, rest, 0x40, 0x40);
    var crc := Compute(body[0x40..0x80], 0xffff, crcTable);
    PutHead(g, rest, 0x80, Bytes16(crc));
    body := Put(body, 0x80, Bytes16(crc));
  }

  method WriteTop(body0: Bytes, mainCrc: bv16, crcTable: seq<bv16>, ghost h: Bytes, ghost rest: Bytes) returns (body: Bytes)
    requires |h| == R && body0 == h + rest && IsTable(crcTable)
    ensures body == PutTop(h, mainCrc) + rest
  {
    hide IsTable, Crc, Bytes16, Put;
    PutHead(h, rest, 0x1C, Bytes16(mainCrc));
    body := Put(body0, 0x1C, Bytes16(mainCrc));
    ghost var g := Put(h, 0x1C, Bytes16(mainCrc));
    GetHead(g, rest, 0, 0x3E);
    var crc := Compute(body[0..0x3E], 0xffff, crcTable);
    PutHead(g, rest, 0x3E, Bytes16(crc));
    body := Put(body, 0x3E, Bytes16(crc));
  }

  method WriteSettings(body0: Bytes, ghost h: Bytes, ghost rest: Bytes) returns (body: Bytes)
    requires |h| == R && body0 == h + rest
    ensures body == PutSettings(h) + rest
  {
    hide Put, Sum8;
    PutHead(h, rest, 0xC0, DOWN);
    body := Put(body0, 0xC0, DOWN);
    ghost var g := Put(h, 0xC0, DOWN);
    PutHead(g, rest, 0xC4, Zeros(0x15));
    body := Put(body, 0xC4, Zeros(0x15));
    g := Put(g, 0xC4, Zeros(0x15));
    PutHead(g, rest, 0xE4, Zeros(2));
    body := Put(body, 0xE4, Zeros(2));
    g := Put(g, 0xE4, Zeros(2));
    GetHead(g, rest, 0xC0, 0x3F);
    var sum := SumOf(body[0xC0..0xFF]);
    PutHead(g, rest, 0xFF, [0 - sum]);
    body := Put(body, 0xFF, [0 - sum]);
  }

  method SumOf(b: Bytes) returns (sum: bv8)
    ensures sum == Sum8(b)
  {
    sum := 0;
    var i := 0;
    while i < |b|
      invariant i <= |b| && sum == Sum8(b[..i])
    {
      assert b[..i + 1][..i] == b[..i];
      sum := sum + b[i];
      i := i + 1;
    }
    assert b[..i] == b;
  }

  /** Encrypts consecutive blocks in place, each under its own key. */
  method EncryptBlocks(body0: Bytes, off: nat, keys: seq<bv32>, table: seq<bv32>) returns (body: Bytes)
    requires off + BLOCK * |keys| <= |body0| && |table| == 256
    ensures body == Put(body0, off, BlockStream(Get(body0, off, BLOCK * |keys|), keys, table))
  {
    hide Stream, BlockStream;
    body := body0;
    var i: nat := 0;
    EncryptedNone(body0, off, keys, table);
    while i < |keys|
      invariant i <= |keys| && body == Encrypted(body0, off, keys, table, i)
    {
      EncryptedNext(body0, off, keys, table, i);
      body := XorInPlace(body, off + BLOCK * i, BLOCK, keys[i], table);
      i := i + 1;
    }
    assert keys[..i] == keys;
  }

  function Encrypted(body0: Bytes, off: nat, keys: seq<bv32>, table: seq<bv32>, i: nat): (r: Bytes)
    requires off + BLOCK * |keys| <= |body0| && |table| == 256 && i <= |keys|
    ensures |r| == |body0|
  {
    Put(body0, off, BlockStream(Get(body0, off, BLOCK * i), keys[..i], table))
  }

  lemma EncryptedNone(body0: Bytes, off: nat, keys: seq<bv32>, table: seq<bv32>)
    requires off + BLOCK * |keys| <= |body0| && |table| == 256
    ensures Encrypted(body0, off, keys, table, 0) == body0
  {
  }

  lemma EncryptedNext(body0: Bytes, off: nat, keys: seq<bv32>, table: seq<bv32>, i: nat)
    requires off + BLOCK * |keys| <= |body0| && |table| == 256 && i < |keys|
    ensures Encrypt(Encrypted(body0, off, keys, table, i), off + BLOCK * i, BLOCK, keys[i], table)
      == Encrypted(body0, off, keys, table, i + 1)
  {
    hide Stream;
    var e := Encrypted(body0, off, keys, table, i);
    var g := Get(body0, off, BLOCK * (i + 1));
    assert g[..BLOCK * i] == Get(body0, off, BLOCK * i);
    assert keys[..i + 1][..i] == keys[..i];
    var s := BlockStream(g[..BLOCK * i], keys[..i], table);
    PutElsewhere(body0, off, s, off + BLOCK * i, BLOCK);
    assert Get(e, off + BLOCK * i, BLOCK) == g[BLOCK * i..];
    var x := Stream(g[BLOCK * i..], keys[i], table);
    assert BlockStream(g, keys[..i + 1], table) == s + x;
    TwoPuts(body0, off, s, x);
  }

  lemma TwoPuts(b: Bytes, off: nat, s: Bytes, x: Bytes)
    requires off + |s| + |x| <= |b|
    ensures Put(Put(b, off, s), off + |s|, x) == Put(b, off, s + x)
  {
  }

  // ----- all of it -----

  /** `build_experimental_body` */
  method Build(header: Bytes, app: Bytes, crcTable: seq<bv16>, table: seq<bv32>, encrypt: bool) returns (body: Bytes)
    requires |header| == HEADER_SIZE && IsTable(crcTable) && |table| == 256
    ensures body == Body(header, app, table, encrypt)
  {
    hide IsTable, Crc, Stream, BlockStream, Seal, Record, Padded, Partial, RecordSize, FirstFields;
    body := header + Fill(R - HEADER_SIZE);
    EncryptHead(header, Fill(R - HEADER_SIZE), 0, HEADER_SIZE, XFIL_KEY, table);
    body := XorInPlace(body, 0, HEADER_SIZE, XFIL_KEY, table);
    ghost var h := Head(header, table);
    HeadIs(header, table);
    var blockCount := BlockCount(|app|);
    var payloadSize := BLOCK * blockCount;
    var recordOverhead := RecordSize(blockCount);
    body := body + Fill(recordOverhead + payloadSize);
    var head := FirstFields(blockCount);
    body := Put(body, R, head);
    var headerCrc := Compute(head, 0xffff, crcTable);
    body := Put(body, R + 14, Bytes16(headerCrc));
    StartsPartial(h, app);
    body := PutBlocks(body, app, crcTable, h);
    body := PutChain(body, app, crcTable, h);
    if encrypt {
      ghost var rest := Record(app) + Padded(app);
      var payloadOffset := R + recordOverhead;
      PayloadOf(h, app);
      var appCrc := Compute(body[payloadOffset..payloadOffset + payloadSize], 0xffff, crcTable);
      var mainCrc;
      assert body == h + rest;
      body, mainCrc := SealHeader(body, payloadSize, appCrc, crcTable, table, h, rest);
      var keys := ReadKeys(body, app, mainCrc, Seal(h, payloadSize, appCrc, table));
      var sealed := body;
      body := EncryptBlocks(body, payloadOffset, keys, table);
      SealedPayload(Seal(h, payloadSize, appCrc, table), app, keys, table);
    }
  }

  lemma HeadIs(header: Bytes, table: seq<bv32>)
    requires |header| == HEADER_SIZE && |table| == 256
    ensures Encrypt(header, 0, HEADER_SIZE, XFIL_KEY, table) + Fill(R - HEADER_SIZE) == Head(header, table)
  {
    hide Stream;
    assert Get(header, 0, HEADER_SIZE) == header;
  }

  /** The record's first fields, written into the fresh part of the buffer. */
  lemma StartsPartial(h: Bytes, app: Bytes)
    requires |h| == R
    ensures var n := BlockCount(|app|); var f := FirstFields(n);
      Put(Put(h + Fill(RecordSize(n) + BLOCK * n), R, f), R + 14, Bytes16(Crc(f, 0xffff))) == Partial(h, app, 0)
  {
    hide Crc, Bytes16, FirstFields, RecordSize, Padded, Put;
    var n := BlockCount(|app|);
    var f, c := FirstFields(n), Bytes16(Crc(FirstFields(n), 0xffff));
    var k := RecordSize(n) + BLOCK * n;
    PutNext(h, k, f);
    PutNext(h + f, k - 14, c);
    assert Fill(k - 16) == Fill(RecordSize(n) - 16) + Fill(BLOCK * n);
    assert Padded(app)[..0] + Fill(BLOCK * n) == Fill(BLOCK * n);
    assert RecordHead(n) + CrcWords(app, 0) == f + c;
    assert h + f + c + Fill(k - 16) == Partial(h, app, 0);
  }

  lemma PayloadOf(h: Bytes, app: Bytes)
    requires |h| == R
    ensures var off := R + RecordSize(BlockCount(|app|)); var b := h + Record(app) + Padded(app);
      |b| == off + |Padded(app)| && b[off..off + |Padded(app)|] == Padded(app)
  {
    hide Padded;
    hide Record;
  }

  /** The keys of the payload's blocks, from the checksums in the record. */
  method ReadKeys(body: Bytes, app: Bytes, mainCrc: bv16, ghost head: Bytes) returns (keys: seq<bv32>)
    requires |head| == R && body == head + (Record(app) + Padded(app))
    ensures keys == PayloadKeys(app, mainCrc)
  {
    hide Record, Padded, BlockKey, BlockCrc, Bytes16, Read16, Pack, RecordHead;
    var n := BlockCount(|app|);
    keys := [];
    while |keys| < n
      invariant |keys| <= n && forall i | 0 <= i < |keys| :: keys[i] == BlockKey(BlockCrc(app, i), mainCrc)
    {
      WordOf(head, app, |keys|);
      var blockCrc := Read16(body, R + 16 + 2 * |keys|);
      keys := keys + [BlockKey(blockCrc, mainCrc)];
    }
  }

  lemma WordOf(head: Bytes, app: Bytes, i: nat)
    requires |head| == R && i < BlockCount(|app|)
    ensures var b := head + (Record(app) + Padded(app));
      R + 16 + 2 * i + 2 <= |b| && Read16(b, R + 16 + 2 * i) == BlockCrc(app, i)
  {
    hide Record, Padded, BlockCrc, Bytes16, Read16, RecordStart, Digit;
    RecordFields(app);
    Regions(head, Record(app), Padded(app), 16 + 2 * i, 2);
    Regrouped(head, Record(app), Padded(app));
    ReadOf16(head + (Record(app) + Padded(app)), R + 16 + 2 * i, BlockCrc(app, i));
  }

  lemma Regrouped(a: Bytes, b: Bytes, c: Bytes)
    ensures a + (b + c) == a + b + c
  {
  }

  lemma SealedPayload(head: Bytes, app: Bytes, keys: seq<bv32>, table: seq<bv32>)
    requires |head| == R && |keys| == BlockCount(|app|) && |table| == 256
    ensures var off := R + RecordSize(BlockCount(|app|)); var b := head + (Record(app) + Padded(app));
      && off + BLOCK * |keys| == |b|
      && Put(b, off, BlockStream(Get(b, off, BLOCK * |keys|), keys, table))
           == head + Record(app) + BlockStream(Padded(app), keys, table)
  {
    hide BlockStream, Padded, Record, RecordSize, Put, Crc, Pack, RecordHead;
    EndRegion(head, Record(app), Padded(app), BlockStream(Padded(app), keys, table));
  }

  lemma EndRegion(h: Bytes, rec: Bytes, p: Bytes, x: Bytes)
    requires |x| == |p|
    ensures var b := h + (rec + p);
      Get(b, |h| + |rec|, |p|) == p && Put(b, |h| + |rec|, x) == h + rec + x
  {
    var b := h + (rec + p);
    assert b[|h| + |rec|..] == p && b[..|h| + |rec|] == h + rec;
    assert b[|h| + |rec| + |x|..] == [];
  }

  // ----- inspecting -----

  /** `inspect_experimental_body` */
  method InspectBody(data: Bytes, encrypted: bool, crcTable: seq<bv16>, table: seq<bv32>) returns (report: Report)
    requires IsTable(crcTable) && |table| == 256
    ensures report == Inspect(data, encrypted, table)
  {
    hide IsTable, Crc, Stream, Read16, Read32, RecordSize, BlockCount, Mismatches;
    if |data| < R + 16 {
      return TooSmall;
    }
    var overhead, payloadSize := Read32(data, R + 4), Read32(data, R + 8);
    var computed := Compute(data[R..R + 14], 0xffff, crcTable);
    var blockCount := BlockCount(payloadSize);
    var sizeOk, crcOk := overhead == RecordSize(blockCount), Read16(data, R + 14) == computed;
    if R + overhead + payloadSize > |data| {
      return Report(sizeOk, crcOk, false, []);
    }
    if R + 16 + 2 * blockCount > |data| {
      return Cut;
    }
    var mainCrc := 0;
    if encrypted {
      var top, _ := XorStream(data[..0x40], LVMG_KEY, table);
      mainCrc := Read16(top, 0x1C);
    }
    var mismatches := CheckBlocks(data, R + overhead, blockCount, encrypted, mainCrc, crcTable, table);
    return Report(sizeOk, crcOk, true, mismatches);
  }

  /** The inspector's loop over the blocks. */
  method CheckBlocks(data: Bytes, off: nat, blockCount: nat, encrypted: bool, mainCrc: bv16, crcTable: seq<bv16>, table: seq<bv32>)
    returns (mismatches: seq<nat>)
    requires R + 16 + 2 * blockCount <= |data| && IsTable(crcTable) && |table| == 256
    ensures mismatches == Mismatches(data, off, blockCount, encrypted, mainCrc, table)
  {
    hide IsTable, Crc, Stream, Read16, BlockKey, Slice, Mismatches;
    NoBlocksYet(data, off, encrypted, mainCrc, table);
    mismatches := [];
    var blockIndex: nat := 0;
    while blockIndex < blockCount
      invariant blockIndex <= blockCount && mismatches == Mismatches(data, off, blockIndex, encrypted, mainCrc, table)
    {
      NextBlock(data, off, blockIndex, encrypted, mainCrc, table);
      var stored := Read16(data, R + 16 + 2 * blockIndex);
      var start := off + BLOCK * blockIndex;
      var block := Slice(data, start, start + BLOCK);
      if encrypted {
        var plain, _ := XorStream(block, BlockKey(stored, mainCrc), table);
        block := plain;
      }
      var computed := Compute(block, Seed(blockIndex + 1), crcTable);
      if stored != computed {
        mismatches := mismatches + [blockIndex];
      }
      blockIndex := blockIndex + 1;
    }
  }
}
