/** The inspector of packed files, and what it finds in a file as packed and in one with a damaged body. */
module XmakerUnpack {
  import opened Common
  import opened Crc16
  import opened XmakerFormat
  import opened XmakerBody
  import opened XmakerDcf

  /** `Cut`: a field lies beyond the end of the data, on which the unpacking of the field fails. */
  datatype Finding = TooSmall | NotDcf | Cut | NoTag | ShortBody
    | Found(sizeOk: bool, crcPos: nat, dataPos: nat, body: Bytes, bodyCrcOk: bool, wrapperCrcOk: bool)

  ghost predicate NoTagFrom(d: Bytes, tag: Bytes, start: nat) {
    forall q | start <= q :: !TagAt(d, tag, q)
  }

  ghost predicate Opens(d: Bytes) {
    |d| >= 0x28 && Get(d, 0, 4) == DCF
  }

  /** The checksum record is the first one behind the fixed ones, and the data record the first one behind that. */
  ghost predicate Located(d: Bytes, crcPos: nat, dataPos: nat) {
    Opens(d) && FirstTag(d, CRC_TAG, 0x20, crcPos) && FirstTag(d, DATA, crcPos + 0x0C, dataPos)
  }

  /** What there is to be found in a file. */
  ghost predicate Says(d: Bytes, f: Finding) {
    match f
    case TooSmall => |d| < 0x20
    case NotDcf => |d| >= 0x20 && Get(d, 0, 4) != DCF
    case Cut =>
      || (0x20 <= |d| < 0x28 && Get(d, 0, 4) == DCF)
      || exists c: nat, p: nat :: Located(d, c, p) && |d| < p + 8
    case NoTag =>
      && Opens(d)
      && (NoTagFrom(d, CRC_TAG, 0x20) || exists c: nat :: FirstTag(d, CRC_TAG, 0x20, c) && NoTagFrom(d, DATA, c + 0x0C))
    case ShortBody => exists c: nat, p: nat :: Located(d, c, p) && p + 8 <= |d| < p + 8 + Read32(d, p + 4)
    case Found(sizeOk, c, p, body, bodyCrcOk, wrapperCrcOk) =>
      && Located(d, c, p) && p + 8 <= |d| && p + 8 + Read32(d, p + 4) <= |d|
      && body == Get(d, p + 8, Read32(d, p + 4))
      && (sizeOk <==> Read32(d, 4) == |d| - 8)
      && (bodyCrcOk <==> Read16(d, c + 8) == Crc(body, 0xffff))
      && (wrapperCrcOk <==> Read16(d, c + 0x0A) == Crc(d[..c + 0x0A], 0xffff))
  }

  lemma FirstTagUnique(d: Bytes, tag: Bytes, start: nat, p: nat, q: nat)
    requires FirstTag(d, tag, start, p) && FirstTag(d, tag, start, q)
    ensures p == q
  {
  }

  lemma LocatedUnique(d: Bytes, c: nat, p: nat, c': nat, p': nat)
    requires Located(d, c, p) && Located(d, c', p')
    ensures c == c' && p == p'
  {
    hide TagAt;
    FirstTagUnique(d, CRC_TAG, 0x20, c, c');
    FirstTagUnique(d, DATA, c + 0x0C, p, p');
  }

  lemma TagThere(d: Bytes, c: nat, p: nat)
    requires Located(d, c, p)
    ensures !Says(d, NoTag)
  {
    hide TagAt;
    forall c': nat | FirstTag(d, CRC_TAG, 0x20, c') ensures c' == c {
      FirstTagUnique(d, CRC_TAG, 0x20, c, c');
    }
  }

  lemma NothingMissing(d: Bytes, c: nat, p: nat)
    requires Located(d, c, p) && p + 8 <= |d| && p + 8 + Read32(d, p + 4) <= |d|
    ensures !Says(d, Cut) && !Says(d, ShortBody)
  {
    hide TagAt, Read32;
    if c': nat, p': nat :| Located(d, c', p') && |d| < p' + 8 {
      LocatedUnique(d, c, p, c', p');
    }
    if c': nat, p': nat :| Located(d, c', p') && p' + 8 <= |d| < p' + 8 + Read32(d, p' + 4) {
      LocatedUnique(d, c, p, c', p');
    }
  }

  /** Where both records and the whole body are there, only one finding is right. */
  lemma LocatedDecides(d: Bytes, c: nat, p: nat, f: Finding)
    requires Located(d, c, p) && p + 8 <= |d| && p + 8 + Read32(d, p + 4) <= |d| && Says(d, f)
    ensures c + 0x0C <= |d|
    ensures var body := Get(d, p + 8, Read32(d, p + 4));
      f == Found(Read32(d, 4) == |d| - 8, c, p, body,
                 Read16(d, c + 8) == Crc(body, 0xffff), Read16(d, c + 0x0A) == Crc(d[..c + 0x0A], 0xffff))
  {
    hide TagAt, Read32, Read16, Crc;
    TagThere(d, c, p);
    NothingMissing(d, c, p);
    if f.Found? {
      LocatedUnique(d, c, p, f.crcPos, f.dataPos);
    }
  }

  // ----- a wrapper read back -----

  lemma WrapperRead(info: Bytes, off: nat, end: nat, crc: bv16, body: Bytes)
    requires |info| == 8 && |body| <= MAX_DCF_BODY_SIZE
    ensures var d := Wrapper(info, |body|, off, end, crc) + body;
      && Searchable(d, off, end) && Opens(d) && |d| == WRAPPER_LEN + |body| && Get(d, 0x58, |body|) == body
      && Read32(d, 4) == |d| - 8 && Read32(d, 0x54) == |body|
      && Read16(d, 0x4C) == crc && Read16(d, 0x4E) == Crc(d[..0x4E], 0xffff)
  {
    hide Bytes32, Bytes16, Crc, Read32, Read16, Summed, Wrapper;
    var d := Wrapper(info, |body|, off, end, crc) + body;
    Layout(info, |body|, off, end, crc, body);
    ReadOf32(d, 4, |body| + WRAPPER_LEN - 8);
    ReadOf32(d, 0x54, |body|);
    ReadOf16(d, 0x4C, crc);
    ReadOf16(d, 0x4E, Crc(Get(d, 0, 0x4E), 0xffff));
  }

  /** The inspector reports the body behind a wrapper, and whether it is the one the wrapper was made for. */
  lemma WrapperFound(info: Bytes, off: nat, end: nat, crc: bv16, body: Bytes, f: Finding)
    requires |info| == 8 && |body| <= MAX_DCF_BODY_SIZE
    requires off % 512 == 0 && off <= 16777216 && end % 512 == 0 && end <= 16777216
    requires Says(Wrapper(info, |body|, off, end, crc) + body, f)
    ensures f == Found(true, 0x44, 0x50, body, crc == Crc(body, 0xffff), true)
  {
    hide Bytes32, Bytes16, Crc, Read32, Read16, Wrapper, TagAt, Says, Searchable;
    var d := Wrapper(info, |body|, off, end, crc) + body;
    WrapperRead(info, off, end, crc, body);
    TagsFound(d, off, end);
    assert Located(d, 0x44, 0x50);
    LocatedDecides(d, 0x44, 0x50, f);
  }

  /** Whatever finding is right for a packed file is the one that everything is in order, with the body as built. */
  lemma PackedFound(header: Bytes, app: Bytes, table: seq<bv32>, f: Finding)
    requires |header| == HEADER_SIZE && |table| == 256 && |app| <= MAX_APP_SIZE && Says(Dcf(header, app, table), f)
    ensures f == Found(true, 0x44, 0x50, Body(header, app, table, true), true, true)
  {
    hide Body, Crc, Wrapper, Says, RecordSize, InfoBytes;
    var n := BlockCount(|app|);
    SizeLimit(|app|);
    WholeBlockOffsets(n);
    var body := Body(header, app, table, true);
    WrapperFound(InfoBytes(header, table), R + RecordSize(n), R + RecordSize(n) + BLOCK * n, Crc(body, 0xffff), body, f);
  }

  /** One changed byte anywhere in the body is reported by the outer checksum, and by nothing else in the wrapper. */
  lemma DamageFound(header: Bytes, app: Bytes, table: seq<bv32>, k: nat, x: bv8, f: Finding)
    requires |header| == HEADER_SIZE && |table| == 256 && |app| <= MAX_APP_SIZE
    requires var body := Body(header, app, table, true); k < |body| && x != body[k]
    requires WRAPPER_LEN + k < |Dcf(header, app, table)| && Says(Dcf(header, app, table)[WRAPPER_LEN + k := x], f)
    ensures f == Found(true, 0x44, 0x50, Body(header, app, table, true)[k := x], false, true)
  {
    hide Body, Crc, Wrapper, Says, RecordSize, InfoBytes;
    var n := BlockCount(|app|);
    SizeLimit(|app|);
    WholeBlockOffsets(n);
    var body := Body(header, app, table, true);
    var off, end, crc := R + RecordSize(n), R + RecordSize(n) + BLOCK * n, Crc(body, 0xffff);
    UpdateTail(Wrapper(InfoBytes(header, table), |body|, off, end, crc), body, k, x);
    OneByteDetected(body[..k], body[k], x, body[k + 1..], 0xffff);
    assert body[..k] + [body[k]] + body[k + 1..] == body;
    assert body[..k] + [x] + body[k + 1..] == body[k := x];
    WrapperFound(InfoBytes(header, table), off, end, crc, body[k := x], f);
  }

  lemma UpdateTail(a: Bytes, b: Bytes, k: nat, x: bv8)
    requires k < |b|
    ensures (a + b)[|a| + k := x] == a + b[k := x]
  {
  }

  // ----- the code -----

  /** `inspect_experimental_dcf` */
  method InspectDcf(data: Bytes, crcTable: seq<bv16>) returns (f: Finding)
    requires IsTable(crcTable)
    ensures Says(data, f)
  {
    hide TagAt, Read32, Read16, Crc, IsTable;
    if |data| < 0x20 {
      return TooSmall;
    }
    if data[..4] != DCF {
      return NotDcf;
    }
    if |data| < 0x28 {
      return Cut;
    }
    var sizeOk := Read32(data, 4) == |data| - 8;
    var crcPos := FindTag(data, CRC_TAG, 0x20);
    if crcPos == None {
      return NoTag;
    }
    var dataPos := FindTag(data, DATA, crcPos.value + 0x0C);
    if dataPos == None {
      return NoTag;
    }
    TagInside(data, DATA, dataPos.value);
    assert Located(data, crcPos.value, dataPos.value);
    if |data| < dataPos.value + 8 {
      return Cut;
    }
    var bodyLen := Read32(data, dataPos.value + 4);
    var bodyOffset := dataPos.value + 8;
    if |data| < bodyOffset + bodyLen {
      return ShortBody;
    }
    var body := data[bodyOffset..bodyOffset + bodyLen];
    var bodyCrc := Compute(body, 0xffff, crcTable);
    var wrapperCrc := Compute(data[..crcPos.value + 0x0A], 0xffff, crcTable);
    return Found(sizeOk, crcPos.value, dataPos.value, body,
                 Read16(data, crcPos.value + 8) == bodyCrc, Read16(data, crcPos.value + 0x0A) == wrapperCrc);
  }

  lemma TagInside(d: Bytes, tag: Bytes, p: nat)
    requires TagAt(d, tag, p)
    ensures p + |tag| <= |d|
  {
  }
}
