/** The outer file: a wrapper of tagged records around the body, and the search that finds its records again. */
module XmakerDcf {
  import opened Common
  import opened Crc16
  import opened XmakerFormat
  import opened XmakerBody
  import opened XmakerInspect
  import opened XmakerPacker

  const WRAPPER_LEN: nat := 0x58
  // tags; all but the first with their high bits set
  const DCF: Bytes := [0x44, 0x43, 0x46, 0x00]
  const XEAD: Bytes := [0xD8, 0xC5, 0xC1, 0xC4]
  const INFO: Bytes := [0xC9, 0xCE, 0xC6, 0xCF]
  const DEV: Bytes := [0xC4, 0xC5, 0xD6, 0x00]
  const SEG: Bytes := [0xD3, 0xC5, 0xC7, 0x00]
  const CRC_TAG: Bytes := [0xC3, 0xD2, 0xC3, 0x00]
  const DATA: Bytes := [0xC4, 0xC1, 0xD4, 0xC1]

  /** The wrapper up to and including the checksum of the body. */
  function Summed(info: Bytes, bodyLen: nat, payloadOffset: nat, payloadEnd: nat, bodyCrc: bv16): (r: Bytes)
    requires |info| == 8
    ensures |r| == 0x4E
  {
    DCF + Bytes32(bodyLen + WRAPPER_LEN - 8)
      + (XEAD + Bytes32(WRAPPER_LEN - 0x18))
      + (INFO + Bytes32(8) + info)
      + (DEV + Bytes32(8) + Zeros(8))
      + (SEG + Bytes32(0x0C) + Bytes32(1) + Bytes32(payloadOffset) + Bytes32(payloadEnd))
      + (CRC_TAG + Bytes32(4) + Bytes16(bodyCrc))
  }

  function Wrapper(info: Bytes, bodyLen: nat, payloadOffset: nat, payloadEnd: nat, bodyCrc: bv16): (r: Bytes)
    requires |info| == 8
    ensures |r| == WRAPPER_LEN
  {
    var s := Summed(info, bodyLen, payloadOffset, payloadEnd, bodyCrc);
    s + Bytes16(Crc(s, 0xffff)) + DATA + Bytes32(bodyLen)
  }

  /** Eight bytes of the header, decrypted: the INFO record. */
  function InfoBytes(header: Bytes, table: seq<bv32>): (r: Bytes)
    requires |header| == HEADER_SIZE && |table| == 256
    ensures |r| == 8
  {
    Get(Stream(header, XFIL_KEY, table), 4, 8)
  }

  function Dcf(header: Bytes, app: Bytes, table: seq<bv32>): Bytes
    requires |header| == HEADER_SIZE && |table| == 256
  {
    var body := Body(header, app, table, true);
    var off := R + RecordSize(BlockCount(|app|));
    Wrapper(InfoBytes(header, table), |body|, off, off + BLOCK * BlockCount(|app|), Crc(body, 0xffff)) + body
  }

  datatype Result = File(bytes: Bytes) | UnsupportedHeader | EmptyApplication | TooLarge

  // ----- searching -----

  predicate TagAt(data: Bytes, tag: Bytes, p: nat) {
    p + |tag| <= |data| && data[p..p + |tag|] == tag
  }

  /** The first place at or after `start` where the tag stands. */
  ghost predicate FirstTag(data: Bytes, tag: Bytes, start: nat, p: nat) {
    start <= p && TagAt(data, tag, p) && forall q | start <= q < p :: !TagAt(data, tag, q)
  }

  /** `find_tag` */
  method FindTag(data: Bytes, tag: Bytes, start: nat) returns (pos: Option<nat>)
    ensures pos.Some? ==> FirstTag(data, tag, start, pos.value)
    ensures pos.None? ==> forall q | start <= q :: !TagAt(data, tag, q)
  {
    var p := start;
    while p + |tag| <= |data|
      invariant start <= p && forall q | start <= q < p :: !TagAt(data, tag, q)
      decreases |data| - p
    {
      if data[p..p + |tag|] == tag {
        return Some(p);
      }
      p := p + 1;
    }
    return None;
  }

  /** Offsets and lengths of the segment are whole blocks up to 16 MiB, and so never look like the tag's first bytes. */
  lemma SegmentField(n: nat)
    requires n % 512 == 0 && n <= 16777216
    ensures var f := Bytes32(n);
      f[0] == 0 && f[1] != 0xC3 && f[3] != 0xC3 && f[3] != 0xD2
  {
    hide Pack, Digit;
    ZeroByte(n);
    EvenByte(n / 256);
    SmallByte(n / 16777216);
  }

  lemma ZeroByte(n: nat)
    requires n % 512 == 0
    ensures ByteOf(n) == 0
  {
    hide Pack, Digit;
    Digit1(n);
    Digit2(n);
    Digit4(n);
    Digit8(n);
    Digit16(n);
    Digit32(n);
    Digit64(n);
    Digit128(n);
    assert n % 256 == 0;
    PackZero();
  }

  lemma PackZero()
    ensures Pack(false, false, false, false, false, false, false, false) == 0
  {
  }

  lemma EvenByte(n: nat)
    requires n % 2 == 0
    ensures ByteOf(n) != 0xC3
  {
    hide Pack, Digit;
    PackBits(Digit(n, 128), Digit(n, 64), Digit(n, 32), Digit(n, 16), Digit(n, 8), Digit(n, 4), Digit(n, 2), Digit(n, 1));
    Digit1(n);
    OddC3(ByteOf(n));
  }

  lemma OddC3(b: bv8)
    requires b & 0x01 == 0
    ensures b != 0xC3
  {
  }

  lemma SmallByte(n: nat)
    requires n <= 1
    ensures ByteOf(n) != 0xC3 && ByteOf(n) != 0xD2
  {
    hide Pack;
    PackBits(Digit(n, 128), Digit(n, 64), Digit(n, 32), Digit(n, 16), Digit(n, 8), Digit(n, 4), Digit(n, 2), Digit(n, 1));
    Digit128(n);
    HighBitSet(ByteOf(n));
  }

  lemma HighBitSet(b: bv8)
    requires b & 0x80 == 0
    ensures b != 0xC3 && b != 0xD2
  {
  }

  /** Small constants do not look like it either. */
  lemma SmallField(n: nat)
    requires n < 128
    ensures var f := Bytes32(n); forall i | 0 <= i < 4 :: f[i] != 0xC3
  {
    hide Pack, Digit;
    LowByteOf(n);
    ZeroByte(0);
  }

  lemma LowByteOf(n: nat)
    requires n < 128
    ensures ByteOf(n) != 0xC3
  {
    hide Pack;
    PackBits(Digit(n, 128), Digit(n, 64), Digit(n, 32), Digit(n, 16), Digit(n, 8), Digit(n, 4), Digit(n, 2), Digit(n, 1));
    Digit128(n);
    HighBitSet(ByteOf(n));
  }

  // ----- where the records are -----

  /** The records that the inspector searches among. */
  lemma Layout(info: Bytes, bodyLen: nat, payloadOffset: nat, payloadEnd: nat, bodyCrc: bv16, body: Bytes)
    requires |info| == 8
    ensures var s := Summed(info, bodyLen, payloadOffset, payloadEnd, bodyCrc);
      var d := Wrapper(info, bodyLen, payloadOffset, payloadEnd, bodyCrc) + body;
      && Get(d, 0, 4) == DCF && Get(d, 4, 4) == Bytes32(bodyLen + WRAPPER_LEN - 8)
      && Get(d, 0x08, 4) == XEAD && Get(d, 0x0C, 4) == Bytes32(WRAPPER_LEN - 0x18)
      && Get(d, 0x10, 4) == INFO && Get(d, 0x14, 4) == Bytes32(8) && Get(d, 0x18, 8) == info
      && Get(d, 0x20, 4) == DEV && Get(d, 0x24, 4) == Bytes32(8) && Get(d, 0x28, 8) == Zeros(8)
      && Get(d, 0x30, 4) == SEG && Get(d, 0x34, 4) == Bytes32(0x0C) && Get(d, 0x38, 4) == Bytes32(1)
      && Get(d, 0x3C, 4) == Bytes32(payloadOffset) && Get(d, 0x40, 4) == Bytes32(payloadEnd)
      && Get(d, 0x44, 4) == CRC_TAG && Get(d, 0x4C, 2) == Bytes16(bodyCrc)
      && Get(d, 0, 0x4E) == s && Get(d, 0x4E, 2) == Bytes16(Crc(s, 0xffff))
      && Get(d, 0x50, 4) == DATA && Get(d, 0x54, 4) == Bytes32(bodyLen) && d[0x58..] == body
  {
    hide Bytes32, Bytes16, Crc;
  }

  ghost predicate Searchable(d: Bytes, payloadOffset: nat, payloadEnd: nat) {
    && |d| >= WRAPPER_LEN
    && Get(d, 0x20, 4) == DEV && Get(d, 0x24, 4) == Bytes32(8) && Get(d, 0x28, 8) == Zeros(8)
    && Get(d, 0x30, 4) == SEG && Get(d, 0x34, 4) == Bytes32(0x0C) && Get(d, 0x38, 4) == Bytes32(1)
    && Get(d, 0x3C, 4) == Bytes32(payloadOffset) && Get(d, 0x40, 4) == Bytes32(payloadEnd)
    && Get(d, 0x44, 4) == CRC_TAG && Get(d, 0x50, 4) == DATA
  }

  predicate LooksLikeCrc(d: Bytes, p: nat)
    requires p + 1 < |d|
  {
    d[p] == 0xC3 && d[p + 1] == 0xD2
  }

  lemma TagLooks(d: Bytes, p: nat)
    requires p + 1 < |d| && !LooksLikeCrc(d, p)
    ensures !TagAt(d, CRC_TAG, p)
  {
    if p + 4 <= |d| {
      assert d[p] == d[p..p + 4][0] && d[p + 1] == d[p..p + 4][1];
    }
  }

  lemma Spot(d: Bytes, o: nat, n: nat, i: nat)
    requires o + n <= |d| && i < n
    ensures Get(d, o, n)[i] == d[o + i]
  {
  }

  /** Nothing between the start of the search and the checksum record looks like its tag. */
  lemma NoEarlierTag(d: Bytes, payloadOffset: nat, payloadEnd: nat, p: nat)
    requires Searchable(d, payloadOffset, payloadEnd) && 0x20 <= p < 0x44
    requires payloadOffset % 512 == 0 && payloadOffset <= 16777216 && payloadEnd % 512 == 0 && payloadEnd <= 16777216
    ensures !LooksLikeCrc(d, p)
  {
    hide Bytes32;
    if p < 0x24 {
      Spot(d, 0x20, 4, p - 0x20);
    } else if p < 0x28 {
      SmallField(8);
      Spot(d, 0x24, 4, p - 0x24);
    } else if p < 0x30 {
      Spot(d, 0x28, 8, p - 0x28);
    } else if p < 0x34 {
      Spot(d, 0x30, 4, p - 0x30);
    } else if p < 0x38 {
      SmallField(0x0C);
      Spot(d, 0x34, 4, p - 0x34);
    } else if p < 0x3C {
      SmallField(1);
      Spot(d, 0x38, 4, p - 0x38);
    } else if p < 0x40 {
      SegmentSpots(d, 0x3C, payloadOffset, p);
    } else {
      SegmentSpots(d, 0x40, payloadEnd, p);
    }
  }

  lemma SegmentSpots(d: Bytes, o: nat, n: nat, p: nat)
    requires o + 4 < |d| && Get(d, o, 4) == Bytes32(n) && n % 512 == 0 && n <= 16777216 && o <= p < o + 4
    ensures !LooksLikeCrc(d, p)
  {
    hide Bytes32;
    SegmentField(n);
    Spot(d, o, 4, 0);
    Spot(d, o, 4, 1);
    Spot(d, o, 4, 3);
  }

  /** The searches find the true checksum and data records. */
  lemma TagsFound(d: Bytes, payloadOffset: nat, payloadEnd: nat)
    requires Searchable(d, payloadOffset, payloadEnd)
    requires payloadOffset % 512 == 0 && payloadOffset <= 16777216 && payloadEnd % 512 == 0 && payloadEnd <= 16777216
    ensures FirstTag(d, CRC_TAG, 0x20, 0x44) && FirstTag(d, DATA, 0x50, 0x50)
  {
    forall q | 0x20 <= q < 0x44 ensures !TagAt(d, CRC_TAG, q) {
      NoEarlierTag(d, payloadOffset, payloadEnd, q);
      TagLooks(d, q);
    }
  }

  /** Everything the outer inspector checks holds of a packed file, and it hands the inner inspector the body. */
  lemma DcfRoundTrip(header: Bytes, app: Bytes, table: seq<bv32>)
    requires |header| == HEADER_SIZE && |table| == 256 && |app| <= MAX_APP_SIZE
    ensures var d := Dcf(header, app, table); var body := Body(header, app, table, true);
      && |d| == WRAPPER_LEN + |body| && |body| <= MAX_DCF_BODY_SIZE
      && Get(d, 0, 4) == DCF && Read32(d, 4) == |d| - 8
      && FirstTag(d, CRC_TAG, 0x20, 0x44) && FirstTag(d, DATA, 0x44 + 0x0C, 0x50)
      && Read32(d, 0x54) == |body| && d[0x58..] == body
      && Read16(d, 0x4C) == Crc(body, 0xffff) && Read16(d, 0x4E) == Crc(Get(d, 0, 0x4E), 0xffff)
      && Inspect(d[0x58..], true, table) == Report(true, true, true, [])
  {
    hide Body, Bytes32, Bytes16, Crc, Read32, Read16, Inspect, Stream, Summed, Wrapper, RecordSize;
    var body := Body(header, app, table, true);
    var n := BlockCount(|app|);
    var off, end := R + RecordSize(n), R + RecordSize(n) + BLOCK * n;
    var d := Dcf(header, app, table);
    var crc := Crc(body, 0xffff);
    SizeLimit(|app|);
    InspectorAccepts(header, app, table, true);
    Layout(InfoBytes(header, table), |body|, off, end, crc, body);
    ReadOf32(d, 4, |body| + WRAPPER_LEN - 8);
    ReadOf32(d, 0x54, |body|);
    ReadOf16(d, 0x4C, crc);
    ReadOf16(d, 0x4E, Crc(Get(d, 0, 0x4E), 0xffff));
    WholeBlockOffsets(n);
    TagsFound(d, off, end);
  }

  /** The bytes of body `b` from `from` to `to`, which is its end, decrypt to the application padded to whole blocks. */
  ghost predicate Delimits(b: Bytes, from: nat, to: nat, app: Bytes, table: seq<bv32>)
    requires |table| == 256 && |b| >= R + RecordSize(BlockCount(|app|))
  {
    && from + BLOCK * BlockCount(|app|) == to == |b|
    && forall i | 0 <= i < BlockCount(|app|) ::
         OpenBlock(b, from, i, true, StoredMainCrc(b, table), table) == Get(Padded(app), BLOCK * i, BLOCK)
  }

  /** The segment record delimits the encrypted application, and the other record carries the header's own eight bytes. */
  lemma SegmentIsPayload(header: Bytes, app: Bytes, table: seq<bv32>)
    requires |header| == HEADER_SIZE && |table| == 256 && |app| <= MAX_APP_SIZE
    ensures var d := Dcf(header, app, table);
      && |d| >= WRAPPER_LEN + R + RecordSize(BlockCount(|app|))
      && Delimits(d[0x58..], Read32(d, 0x3C), Read32(d, 0x40), app, table)
    ensures var d := Dcf(header, app, table);
      && Get(d, 0x08, 4) == XEAD && Read32(d, 0x0C) == WRAPPER_LEN - 0x18
      && Get(d, 0x10, 4) == INFO && Read32(d, 0x14) == 8 && Get(d, 0x18, 8) == InfoBytes(header, table)
  {
    hide Body, Bytes32, Bytes16, Crc, Read32, Stream, Summed, Wrapper, RecordSize, OpenBlock, InfoBytes;
    var body := Body(header, app, table, true);
    var n := BlockCount(|app|);
    var off, end := R + RecordSize(n), R + RecordSize(n) + BLOCK * n;
    var d := Dcf(header, app, table);
    SizeLimit(|app|);
    Decrypts(header, app, table);
    Layout(InfoBytes(header, table), |body|, off, end, Crc(body, 0xffff), body);
    ReadOf32(d, 0x0C, WRAPPER_LEN - 0x18);
    ReadOf32(d, 0x14, 8);
    ReadOf32(d, 0x3C, off);
    ReadOf32(d, 0x40, end);
  }

  lemma WholeBlockOffsets(n: nat)
    ensures (R + RecordSize(n)) % 512 == 0 && (R + RecordSize(n) + BLOCK * n) % 512 == 0
  {
    var r := RecordSize(n);
    hide RecordSize;
    WholeBlocksAdd(R, r);
    WholeBlock(n);
    WholeBlocksAdd(R + r, BLOCK * n);
  }

  lemma WholeBlock(n: nat)
    ensures (BLOCK * n) % 512 == 0
  {
  }

  lemma WholeBlocksAdd(a: nat, b: nat)
    requires a % 512 == 0 && b % 512 == 0
    ensures (a + b) % 512 == 0
  {
  }

  // ----- the code -----

  /** `build_dcf`; `supported` says whether the header's hash is the known one. */
  method BuildDcf(header: Bytes, app: Bytes, crcTable: seq<bv16>, table: seq<bv32>, supported: bool) returns (res: Result)
    requires IsTable(crcTable) && |table| == 256
    ensures res.UnsupportedHeader? <==> |header| != HEADER_SIZE || !supported
    ensures res.EmptyApplication? <==> !res.UnsupportedHeader? && app == []
    ensures res.TooLarge? <==> !res.UnsupportedHeader? && |app| > MAX_APP_SIZE
    ensures res.File? ==> |header| == HEADER_SIZE && res.bytes == Dcf(header, app, table)
  {
    hide IsTable, Crc, Stream, Body, Read32, Bytes32, Bytes16, RecordSize, BlockCount;
    if |header| != HEADER_SIZE || !supported {
      return UnsupportedHeader;
    }
    if app == [] {
      return EmptyApplication;
    }
    if |app| > MAX_APP_SIZE {
      return TooLarge;
    }
    var body := Build(header, app, crcTable, table, true);
    var payloadOffset, payloadEnd := PayloadRange(body, header, app, table);
    var imported, _ := XorStream(header, XFIL_KEY, table);
    var bodyCrc := Compute(body, 0xffff, crcTable);
    var dcf := BuildWrapper(imported[4..12], |body|, payloadOffset, payloadEnd, bodyCrc, crcTable);
    return File(dcf + body);
  }

  /** The buffer once `done` has been written. */
  ghost predicate Written(dcf: Bytes, done: Bytes) {
    |done| <= WRAPPER_LEN && dcf == done + Zeros(WRAPPER_LEN - |done|)
  }

  lemma PutAfter(dcf: Bytes, done: Bytes, x: Bytes)
    requires Written(dcf, done) && |done| + |x| <= WRAPPER_LEN
    ensures |dcf| == WRAPPER_LEN && Written(Put(dcf, |done|, x), done + x)
  {
    var n := WRAPPER_LEN - |done|;
    assert Put(done + Zeros(n), |done|, x) == done + x + Zeros(n - |x|) by {
      assert (done + Zeros(n))[..|done|] == done;
      assert (done + Zeros(n))[|done| + |x|..] == Zeros(n - |x|);
    }
  }

  lemma Grouped(a: Bytes, b: Bytes, c: Bytes)
    ensures a + b + c == a + (b + c)
  {
  }

  /** One more field of the record that was begun at `done`. */
  method PutField(dcf0: Bytes, off: nat, x: Bytes, ghost done: Bytes, ghost record: Bytes) returns (dcf: Bytes)
    requires Written(dcf0, done + record) && off == |done| + |record| && off + |x| <= WRAPPER_LEN
    ensures Written(dcf, done + (record + x))
  {
    hide Written, Put;
    PutAfter(dcf0, done + record, x);
    Grouped(done, record, x);
    dcf := Put(dcf0, off, x);
  }

  /** A tag and a length. */
  method PutTagged(dcf0: Bytes, off: nat, tag: Bytes, n: nat, ghost done: Bytes) returns (dcf: Bytes)
    requires Written(dcf0, done) && off == |done| && |tag| == 4 && off + 8 <= WRAPPER_LEN
    ensures Written(dcf, done + (tag + Bytes32(n)))
  {
    hide Written, Put, Bytes32;
    PutAfter(dcf0, done, tag);
    dcf := Put(dcf0, off, tag);
    dcf := PutField(dcf, off + 4, Bytes32(n), done, tag);
  }

  /** Bytes that are left zero count as written. */
  lemma LeaveZeros(dcf: Bytes, done: Bytes, record: Bytes, n: nat)
    requires Written(dcf, done + record) && |done| + |record| + n <= WRAPPER_LEN
    ensures Written(dcf, done + (record + Zeros(n)))
  {
    var m := WRAPPER_LEN - |done| - |record|;
    assert Zeros(m) == Zeros(n) + Zeros(m - n);
  }

  lemma WrittenPrefix(dcf: Bytes, done: Bytes)
    requires Written(dcf, done)
    ensures |dcf| == WRAPPER_LEN && dcf[..|done|] == done && (|done| == WRAPPER_LEN ==> dcf == done)
  {
  }

  /** The part of `build_dcf` that fills the wrapper, field by field, with its checksum over what is there so far. */
  method BuildWrapper(info: Bytes, bodyLen: nat, payloadOffset: nat, payloadEnd: nat, bodyCrc: bv16, crcTable: seq<bv16>)
    returns (dcf: Bytes)
    requires |info| == 8 && IsTable(crcTable)
    ensures dcf == Wrapper(info, bodyLen, payloadOffset, payloadEnd, bodyCrc)
  {
    hide Written, Put, Bytes32, Bytes16, Crc, IsTable, Zeros;
    ghost var s := Summed(info, bodyLen, payloadOffset, payloadEnd, bodyCrc);
    dcf := PutSummed(info, bodyLen, payloadOffset, payloadEnd, bodyCrc);
    WrittenPrefix(dcf, s);
    var wrapperCrc := Compute(dcf[..0x4E], 0xffff, crcTable);
    PutAfter(dcf, s, Bytes16(wrapperCrc));
    dcf := Put(dcf, 0x4E, Bytes16(wrapperCrc));
    ghost var t := s + Bytes16(wrapperCrc);
    dcf := PutTagged(dcf, 0x50, DATA, bodyLen, t);
    Grouped(t, DATA, Bytes32(bodyLen));
    WrittenPrefix(dcf, t + (DATA + Bytes32(bodyLen)));
  }

  method PutSummed(info: Bytes, bodyLen: nat, payloadOffset: nat, payloadEnd: nat, bodyCrc: bv16) returns (dcf: Bytes)
    requires |info| == 8
    ensures Written(dcf, Summed(info, bodyLen, payloadOffset, payloadEnd, bodyCrc))
  {
    hide Written, Put, Bytes32, Bytes16, Zeros;
    dcf := Zeros(WRAPPER_LEN);
    NothingWritten();
    dcf := PutTagged(dcf, 0x00, DCF, bodyLen + WRAPPER_LEN - 8, []);
    ghost var done := DCF + Bytes32(bodyLen + WRAPPER_LEN - 8);
    assert [] + done == done;
    dcf := PutTagged(dcf, 0x08, XEAD, WRAPPER_LEN - 0x18, done);
    done := done + (XEAD + Bytes32(WRAPPER_LEN - 0x18));
    dcf := PutTagged(dcf, 0x10, INFO, 8, done);
    dcf := PutField(dcf, 0x18, info, done, INFO + Bytes32(8));
    done := done + (INFO + Bytes32(8) + info);
    dcf := PutTagged(dcf, 0x20, DEV, 8, done);
    LeaveZeros(dcf, done, DEV + Bytes32(8), 8);
    done := done + (DEV + Bytes32(8) + Zeros(8));
    dcf := PutTagged(dcf, 0x30, SEG, 0x0C, done);
    dcf := PutField(dcf, 0x38, Bytes32(1), done, SEG + Bytes32(0x0C));
    dcf := PutField(dcf, 0x3C, Bytes32(payloadOffset), done, SEG + Bytes32(0x0C) + Bytes32(1));
    dcf := PutField(dcf, 0x40, Bytes32(payloadEnd), done, SEG + Bytes32(0x0C) + Bytes32(1) + Bytes32(payloadOffset));
    done := done + (SEG + Bytes32(0x0C) + Bytes32(1) + Bytes32(payloadOffset) + Bytes32(payloadEnd));
    dcf := PutTagged(dcf, 0x44, CRC_TAG, 4, done);
    dcf := PutField(dcf, 0x4C, Bytes16(bodyCrc), done, CRC_TAG + Bytes32(4));
  }

  lemma NothingWritten()
    ensures Written(Zeros(WRAPPER_LEN), [])
  {
    assert [] + Zeros(WRAPPER_LEN) == Zeros(WRAPPER_LEN);
  }

  /** The payload's place, read back from the record. */
  method PayloadRange(body: Bytes, ghost header: Bytes, app: Bytes, ghost table: seq<bv32>) returns (from: nat, to: nat)
    requires |header| == HEADER_SIZE && |table| == 256 && |app| <= MAX_APP_SIZE
    requires body == Body(header, app, table, true)
    ensures from == R + RecordSize(BlockCount(|app|)) && to == from + BLOCK * BlockCount(|app|)
  {
    hide Body, Read32, RecordSize, Stream, OpenBlock, StoredMainCrc;
    Decrypts(header, app, table);
    from := R + Read32(body, R + 4);
    to := from + Read32(body, R + 8);
  }
}
