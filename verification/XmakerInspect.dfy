/** The inspector, and what it says about packed bodies. */
module XmakerInspect {
  import opened Crc16
  import opened XmakerFormat
  import opened XmakerBody

  /** `Cut`: a field lies beyond the end of the data, on which the unpacking of the field fails. */
  datatype Report = TooSmall | Cut
    | Report(overheadOk: bool, recordCrcOk: bool, rangeOk: bool, mismatches: seq<nat>)

  /** A slice that may run past the end. */
  function Slice(b: Bytes, from: nat, to: nat): Bytes
    requires from <= to
  {
    if to <= |b| then b[from..to] else if from <= |b| then b[from..] else []
  }

  function StoredMainCrc(data: Bytes, table: seq<bv32>): bv16
    requires |data| >= 0x40 && |table| == 256
  {
    Read16(Stream(Get(data, 0, 0x40), LVMG_KEY, table), 0x1C)
  }

  /** One block as it was before encryption, according to the checksum stored for it. */
  function OpenBlock(data: Bytes, off: nat, i: nat, encrypted: bool, mainCrc: bv16, table: seq<bv32>): Bytes
    requires R + 16 + 2 * i + 2 <= |data| && |table| == 256
  {
    var block := Slice(data, off + BLOCK * i, off + BLOCK * i + BLOCK);
    if encrypted then Stream(block, BlockKey(Read16(data, R + 16 + 2 * i), mainCrc), table) else block
  }

  function Mismatches(data: Bytes, off: nat, blocks: nat, encrypted: bool, mainCrc: bv16, table: seq<bv32>): seq<nat>
    requires R + 16 + 2 * blocks <= |data| && |table| == 256
  {
    if blocks == 0 then []
    else
      var i := blocks - 1;
      Mismatches(data, off, i, encrypted, mainCrc, table)
        + if Read16(data, R + 16 + 2 * i) == Crc(OpenBlock(data, off, i, encrypted, mainCrc, table), Seed(i + 1)) then []
          else [i]
  }

  lemma NoBlocksYet(data: Bytes, off: nat, encrypted: bool, mainCrc: bv16, table: seq<bv32>)
    requires R + 16 <= |data| && |table| == 256
    ensures Mismatches(data, off, 0, encrypted, mainCrc, table) == []
  {
  }

  lemma NextBlock(data: Bytes, off: nat, i: nat, encrypted: bool, mainCrc: bv16, table: seq<bv32>)
    requires R + 16 + 2 * (i + 1) <= |data| && |table| == 256
    ensures Mismatches(data, off, i + 1, encrypted, mainCrc, table) == Mismatches(data, off, i, encrypted, mainCrc, table)
      + if Read16(data, R + 16 + 2 * i) == Crc(OpenBlock(data, off, i, encrypted, mainCrc, table), Seed(i + 1)) then [] else [i]
  {
    hide Crc, Read16, OpenBlock;
  }

  /** `inspect_experimental_body` */
  function Inspect(data: Bytes, encrypted: bool, table: seq<bv32>): Report
    requires |table| == 256
  {
    if |data| < R + 16 then TooSmall
    else
      var overhead, payload := Read32(data, R + 4), Read32(data, R + 8);
      var blocks := BlockCount(payload);
      var sizeOk := overhead == RecordSize(blocks);
      var crcOk := Read16(data, R + 14) == Crc(Get(data, R, 14), 0xffff);
      if R + overhead + payload > |data| then Report(sizeOk, crcOk, false, [])
      else if R + 16 + 2 * blocks > |data| then Cut
      else
        var mainCrc := if encrypted then StoredMainCrc(data, table) else 0;
        Report(sizeOk, crcOk, true, Mismatches(data, R + overhead, blocks, encrypted, mainCrc, table))
  }

  // ----- what is in a packed body -----

  /** A body whose record and header are those of `app`, with any payload of the right size. */
  function Around(head: Bytes, app: Bytes, payload: Bytes): (r: Bytes)
    requires |head| == R && |payload| == |Padded(app)|
    ensures |r| == BodySize(|app|)
  {
    head + Record(app) + payload
  }

  lemma AroundFields(head: Bytes, app: Bytes, payload: Bytes)
    requires |head| == R && |payload| == |Padded(app)| && |app| <= MAX_APP_SIZE
    ensures var b := Around(head, app, payload); var n := BlockCount(|app|);
      && Read32(b, R + 4) == RecordSize(n) && Read32(b, R + 8) == BLOCK * n
      && Read16(b, R + 14) == Crc(Get(b, R, 14), 0xffff)
      && Get(b, 0, 0x40) == Get(head, 0, 0x40)
      && (forall i | 0 <= i < n :: WordAt(b, app, i))
      && (forall i | 0 <= i < n :: PayloadAt(b, payload, n, i))
  {
    hide Record, RecordSize, Crc, Bytes16, BlockCrc, Read16, Read32, FirstFields, CrcWords, BodySize, RecordHead, Zeros;
    var b := Around(head, app, payload);
    var n := BlockCount(|app|);
    SizeLimit(|app|);
    RecordFields(app);
    Regions(head, Record(app), payload, 0, 14);
    FieldsRead(b, n);
    Regions(head, Record(app), payload, 14, 2);
    ReadOf16(b, R + 14, Crc(FirstFields(n), 0xffff));
    Regions(head, Record(app), payload, 0, 0x40);
    forall i | 0 <= i < n ensures WordAt(b, app, i) && PayloadAt(b, payload, n, i) {
      Regions(head, Record(app), payload, 16 + 2 * i, 2);
      ReadOf16(b, R + 16 + 2 * i, BlockCrc(app, i));
      Regions(head, Record(app), payload, BLOCK * i, BLOCK);
    }
  }

  ghost predicate WordAt(b: Bytes, app: Bytes, i: nat)
    requires i < BlockCount(|app|) && R + 16 + 2 * i + 2 <= |b|
  {
    Read16(b, R + 16 + 2 * i) == BlockCrc(app, i)
  }

  ghost predicate PayloadAt(b: Bytes, payload: Bytes, n: nat, i: nat)
    requires i < n && |payload| == BLOCK * n && |b| == R + RecordSize(n) + BLOCK * n
  {
    Slice(b, R + RecordSize(n) + BLOCK * i, R + RecordSize(n) + BLOCK * i + BLOCK) == Get(payload, BLOCK * i, BLOCK)
  }

  // ----- the checksums of the blocks -----

  /** Block `i` of a payload, opened with the checksum that belongs to `app`. */
  function Opened(app: Bytes, payload: Bytes, i: nat, encrypted: bool, mainCrc: bv16, table: seq<bv32>): (r: Bytes)
    requires i < BlockCount(|app|) && |payload| == |Padded(app)| && |table| == 256
    ensures |r| == BLOCK
  {
    var block := Get(payload, BLOCK * i, BLOCK);
    if encrypted then Stream(block, BlockKey(BlockCrc(app, i), mainCrc), table) else block
  }

  predicate Matches(app: Bytes, payload: Bytes, i: nat, encrypted: bool, mainCrc: bv16, table: seq<bv32>)
    requires i < BlockCount(|app|) && |payload| == |Padded(app)| && |table| == 256
  {
    Crc(Opened(app, payload, i, encrypted, mainCrc, table), Seed(i + 1)) == BlockCrc(app, i)
  }

  function Failing(app: Bytes, payload: Bytes, k: nat, encrypted: bool, mainCrc: bv16, table: seq<bv32>): seq<nat>
    requires k <= BlockCount(|app|) && |payload| == |Padded(app)| && |table| == 256
  {
    if k == 0 then []
    else
      Failing(app, payload, k - 1, encrypted, mainCrc, table)
        + if Matches(app, payload, k - 1, encrypted, mainCrc, table) then [] else [k - 1]
  }

  lemma SameBlock(head: Bytes, app: Bytes, payload: Bytes, i: nat, encrypted: bool, mainCrc: bv16, table: seq<bv32>)
    requires |head| == R && |payload| == |Padded(app)| && |app| <= MAX_APP_SIZE && |table| == 256 && i < BlockCount(|app|)
    ensures var b := Around(head, app, payload);
      && Read16(b, R + 16 + 2 * i) == BlockCrc(app, i)
      && OpenBlock(b, R + RecordSize(BlockCount(|app|)), i, encrypted, mainCrc, table)
           == Opened(app, payload, i, encrypted, mainCrc, table)
  {
    hide Stream, Crc, RecordSize, BlockKey, Read16, Read32, BlockCrc, Around, Padded, Slice;
    AroundFields(head, app, payload);
    assert WordAt(Around(head, app, payload), app, i);
    assert PayloadAt(Around(head, app, payload), payload, BlockCount(|app|), i);
  }

  lemma NoneYet(app: Bytes, payload: Bytes, encrypted: bool, mainCrc: bv16, table: seq<bv32>)
    requires |payload| == |Padded(app)| && |table| == 256
    ensures Failing(app, payload, 0, encrypted, mainCrc, table) == []
  {
  }

  lemma NextFailing(app: Bytes, payload: Bytes, k: nat, encrypted: bool, mainCrc: bv16, table: seq<bv32>)
    requires k < BlockCount(|app|) && |payload| == |Padded(app)| && |table| == 256
    ensures Failing(app, payload, k + 1, encrypted, mainCrc, table) == Failing(app, payload, k, encrypted, mainCrc, table)
      + if Crc(Opened(app, payload, k, encrypted, mainCrc, table), Seed(k + 1)) == BlockCrc(app, k) then [] else [k]
  {
    hide Crc, Opened, BlockCrc;
  }

  lemma {:induction false} MismatchList(head: Bytes, app: Bytes, payload: Bytes, k: nat, encrypted: bool, mainCrc: bv16, table: seq<bv32>)
    requires |head| == R && |payload| == |Padded(app)| && |app| <= MAX_APP_SIZE && |table| == 256 && k <= BlockCount(|app|)
    ensures Mismatches(Around(head, app, payload), R + RecordSize(BlockCount(|app|)), k, encrypted, mainCrc, table)
      == Failing(app, payload, k, encrypted, mainCrc, table)
  {
    hide Stream, Crc, RecordSize, BlockKey, Read16, BlockCrc, Around, Padded, OpenBlock, Opened, Mismatches, Failing, Matches;
    var b, off := Around(head, app, payload), R + RecordSize(BlockCount(|app|));
    if k == 0 {
      NoBlocksYet(b, off, encrypted, mainCrc, table);
      NoneYet(app, payload, encrypted, mainCrc, table);
    } else {
      MismatchList(head, app, payload, k - 1, encrypted, mainCrc, table);
      SameBlock(head, app, payload, k - 1, encrypted, mainCrc, table);
      NextBlock(b, off, k - 1, encrypted, mainCrc, table);
      NextFailing(app, payload, k - 1, encrypted, mainCrc, table);
    }
  }

  /** The checksum the inspector recovers from the header. */
  function Recovered(head: Bytes, encrypted: bool, table: seq<bv32>): bv16
    requires |head| == R && |table| == 256
  {
    if encrypted then StoredMainCrc(head, table) else 0
  }

  lemma InspectAround(head: Bytes, app: Bytes, payload: Bytes, encrypted: bool, table: seq<bv32>)
    requires |head| == R && |payload| == |Padded(app)| && |app| <= MAX_APP_SIZE && |table| == 256
    ensures Inspect(Around(head, app, payload), encrypted, table) ==
      Report(true, true, true,
        Failing(app, payload, BlockCount(|app|), encrypted, Recovered(head, encrypted, table), table))
  {
    hide Stream, Crc, Read16, Read32, Around, Mismatches, Failing, WordAt, PayloadAt;
    AroundFields(head, app, payload);
    MismatchList(head, app, payload, BlockCount(|app|), encrypted, Recovered(head, encrypted, table), table);
    WholeBlocks(BlockCount(|app|));
  }

  lemma WholeBlocks(n: nat)
    ensures BlockCount(BLOCK * n) == n
  {
  }

  // ----- packing and inspecting -----

  /** A packed body is built around its record: header, record, and the payload block by block. */
  lemma BodyIsAround(header: Bytes, app: Bytes, table: seq<bv32>, encrypt: bool) returns (head: Bytes, payload: Bytes, mainCrc: bv16)
    requires |header| == HEADER_SIZE && |table| == 256
    ensures |head| == R && |payload| == |Padded(app)|
    ensures Body(header, app, table, encrypt) == Around(head, app, payload)
    ensures mainCrc == Recovered(head, encrypt, table)
    ensures payload == if encrypt then BlockStream(Padded(app), PayloadKeys(app, mainCrc), table) else Padded(app)
  {
    hide Stream, Crc, BlockStream, Seal, Record;
    var h := Head(header, table);
    if encrypt {
      head := Seal(h, |Padded(app)|, Crc(Padded(app), 0xffff), table);
      TopOpens(h, |Padded(app)|, Crc(Padded(app), 0xffff), table);
      mainCrc := MainCrc(h);
      payload := BlockStream(Padded(app), PayloadKeys(app, mainCrc), table);
    } else {
      head, payload, mainCrc := h, Padded(app), 0;
    }
  }

  /** Every block of a packed body opens to the block of the application. */
  lemma BlockOpens(app: Bytes, payload: Bytes, i: nat, encrypted: bool, mainCrc: bv16, table: seq<bv32>)
    requires i < BlockCount(|app|) && |payload| == |Padded(app)| && |table| == 256
    requires payload == if encrypted then BlockStream(Padded(app), PayloadKeys(app, mainCrc), table) else Padded(app)
    ensures Opened(app, payload, i, encrypted, mainCrc, table) == Block(app, i)
  {
    hide Stream, BlockStream, Padded;
    if encrypted {
      var keys := PayloadKeys(app, mainCrc);
      BlockOf(Padded(app), keys, table, i);
      StreamTwice(Block(app, i), keys[i], table);
    }
  }

  lemma {:induction false} NoneFailing(app: Bytes, payload: Bytes, k: nat, encrypted: bool, mainCrc: bv16, table: seq<bv32>)
    requires k <= BlockCount(|app|) && |payload| == |Padded(app)| && |table| == 256
    requires payload == if encrypted then BlockStream(Padded(app), PayloadKeys(app, mainCrc), table) else Padded(app)
    ensures Failing(app, payload, k, encrypted, mainCrc, table) == []
  {
    hide Crc, Opened, Block, BlockStream, Padded;
    if k > 0 {
      NoneFailing(app, payload, k - 1, encrypted, mainCrc, table);
      BlockOpens(app, payload, k - 1, encrypted, mainCrc, table);
    }
  }

  /** The inspector accepts everything the packer makes, for every header and every application that fits. */
  lemma InspectorAccepts(header: Bytes, app: Bytes, table: seq<bv32>, encrypt: bool)
    requires |header| == HEADER_SIZE && |table| == 256 && |app| <= MAX_APP_SIZE
    ensures Inspect(Body(header, app, table, encrypt), encrypt, table) == Report(true, true, true, [])
  {
    hide Inspect, Body, Failing, BlockStream, Around, Recovered;
    var head, payload, mainCrc := BodyIsAround(header, app, table, encrypt);
    InspectAround(head, app, payload, encrypt, table);
    NoneFailing(app, payload, BlockCount(|app|), encrypt, mainCrc, table);
  }

  /** Decrypting the payload with what the body itself says gives the application back, padded with zeros. */
  lemma Decrypts(header: Bytes, app: Bytes, table: seq<bv32>)
    requires |header| == HEADER_SIZE && |table| == 256 && |app| <= MAX_APP_SIZE
    ensures var b := Body(header, app, table, true); var n := BlockCount(|app|);
      && Read32(b, R + 4) == RecordSize(n) && Read32(b, R + 8) == BLOCK * n
      && (forall i | 0 <= i < n ::
            OpenBlock(b, R + RecordSize(n), i, true, StoredMainCrc(b, table), table) == Get(Padded(app), BLOCK * i, BLOCK))
      && app <= Padded(app) && forall k | |app| <= k < |Padded(app)| :: Padded(app)[k] == 0
  {
    hide Body, BlockStream, Stream, Crc, Read32, Read16, Around, RecordSize, BlockKey, BlockCrc, Slice;
    var b, n := Body(header, app, table, true), BlockCount(|app|);
    var head, payload, mainCrc := BodyIsAround(header, app, table, true);
    AroundFields(head, app, payload);
    forall i | 0 <= i < n
      ensures OpenBlock(b, R + RecordSize(n), i, true, StoredMainCrc(b, table), table) == Get(Padded(app), BLOCK * i, BLOCK)
    {
      assert WordAt(b, app, i) && PayloadAt(b, payload, n, i);
      BlockOpens(app, payload, i, true, mainCrc, table);
    }
  }

  // ----- tampering -----

  /** Changing one byte of a stream changes that byte of what comes out, and no other. */
  lemma StreamChanges(data: Bytes, j: nat, x: bv8, key: bv32, table: seq<bv32>)
    requires j < |data| && x != data[j] && |table| == 256
    ensures var s := Stream(data, key, table); var y := Xor8(x, KeyByte(KeyAfter(key, table, j)));
      Stream(data[j := x], key, table) == s[j := y] && y != s[j]
  {
    hide Xor8, KeyByte, KeyAfter;
    Xor8Differs(x, data[j], KeyByte(KeyAfter(key, table, j)));
  }

  lemma Xor8Differs(x: bv8, y: bv8, k: bv8)
    requires x != y
    ensures Xor8(x, k) != Xor8(y, k)
  {
  }

  lemma ChangedByteDetected(data: Bytes, j: nat, x: bv8, seed: bv16)
    requires j < |data| && x != data[j]
    ensures Crc(data[j := x], seed) != Crc(data, seed)
  {
    hide Crc;
    var head, rest := data[..j], data[j + 1..];
    assert data == head + [data[j]] + rest && data[j := x] == head + [x] + rest;
    OneByteDetected(head, x, data[j], rest, seed);
  }

  /** A changed payload byte breaks the checksum of its own block and of no other. */
  lemma TamperMatches(app: Bytes, payload: Bytes, p: nat, x: bv8, i: nat, encrypted: bool, mainCrc: bv16, table: seq<bv32>)
    requires i < BlockCount(|app|) && p < |payload| == |Padded(app)| && x != payload[p] && |table| == 256
    requires payload == if encrypted then BlockStream(Padded(app), PayloadKeys(app, mainCrc), table) else Padded(app)
    ensures Matches(app, payload[p := x], i, encrypted, mainCrc, table) <==> p / BLOCK != i
  {
    hide Crc, Stream, BlockStream, Padded;
    var t := payload[p := x];
    var was, now := Get(payload, BLOCK * i, BLOCK), Get(t, BLOCK * i, BLOCK);
    BlockOpens(app, payload, i, encrypted, mainCrc, table);
    if p / BLOCK == i {
      var j := p - BLOCK * i;
      assert now == was[j := x];
      if encrypted {
        var key := BlockKey(BlockCrc(app, i), mainCrc);
        StreamChanges(was, j, x, key, table);
        ChangedByteDetected(Block(app, i), j, Xor8(x, KeyByte(KeyAfter(key, table, j))), Seed(i + 1));
      } else {
        ChangedByteDetected(Block(app, i), j, x, Seed(i + 1));
      }
    } else {
      assert now == was;
    }
  }

  lemma {:induction false} OneFailing(app: Bytes, payload: Bytes, p: nat, x: bv8, k: nat, encrypted: bool, mainCrc: bv16, table: seq<bv32>)
    requires k <= BlockCount(|app|) && p < |payload| == |Padded(app)| && x != payload[p] && |table| == 256
    requires payload == if encrypted then BlockStream(Padded(app), PayloadKeys(app, mainCrc), table) else Padded(app)
    ensures Failing(app, payload[p := x], k, encrypted, mainCrc, table) == if p / BLOCK < k then [p / BLOCK] else []
  {
    hide Matches, BlockStream, Padded;
    if k > 0 {
      OneFailing(app, payload, p, x, k - 1, encrypted, mainCrc, table);
      TamperMatches(app, payload, p, x, k - 1, encrypted, mainCrc, table);
    }
  }

  /** Changing any one byte of the payload of a packed body makes the inspector name exactly the block it is in. */
  lemma TamperingFound(header: Bytes, app: Bytes, table: seq<bv32>, encrypt: bool, p: nat, x: bv8)
    requires |header| == HEADER_SIZE && |table| == 256 && |app| <= MAX_APP_SIZE && p < |Padded(app)|
    requires var off := R + RecordSize(BlockCount(|app|)); x != Body(header, app, table, encrypt)[off + p]
    ensures var off := R + RecordSize(BlockCount(|app|));
      Inspect(Body(header, app, table, encrypt)[off + p := x], encrypt, table)
        == Report(true, true, true, [p / BLOCK])
  {
    hide Inspect, Body, Failing, BlockStream, Recovered, Record;
    var head, payload, mainCrc := BodyIsAround(header, app, table, encrypt);
    var t := payload[p := x];
    assert Around(head, app, payload)[R + RecordSize(BlockCount(|app|)) + p := x] == Around(head, app, t);
    InspectAround(head, app, t, encrypt, table);
    OneFailing(app, payload, p, x, BlockCount(|app|), encrypt, mainCrc, table);
    InBlocks(p, BlockCount(|app|));
  }

  lemma InBlocks(p: nat, n: nat)
    requires p < BLOCK * n
    ensures p / BLOCK < n
  {
  }
}
