/** The packed body: what it contains, region by region, and what the inspector makes of it. */
module XmakerBody {
  import opened Crc16
  import opened XmakerFormat

  const R: nat := FIRST_BODY_SIZE
  /** "XCOD" and "DOWN" with the high bits set */
  const XCOD: Bytes := [0xD8, 0xC3, 0xCF, 0xC4]
  const DOWN: Bytes := [0xC4, 0xCF, 0xD7, 0xCE]

  // ----- block-wise encryption -----

  /** Each block under its own key. */
  function BlockStream(g: Bytes, keys: seq<bv32>, table: seq<bv32>): (r: Bytes)
    requires |g| == BLOCK * |keys| && |table| == 256
    ensures |r| == |g|
    decreases |keys|
  {
    if keys == [] then []
    else
      var n := |keys| - 1;
      BlockStream(g[..BLOCK * n], keys[..n], table) + Stream(g[BLOCK * n..], keys[n], table)
  }

  lemma {:induction false} BlockOf(g: Bytes, keys: seq<bv32>, table: seq<bv32>, i: nat)
    requires |g| == BLOCK * |keys| && |table| == 256 && i < |keys|
    ensures Get(BlockStream(g, keys, table), BLOCK * i, BLOCK) == Stream(Get(g, BLOCK * i, BLOCK), keys[i], table)
    decreases |keys|
  {
    hide Stream;
    var n := |keys| - 1;
    var less, last := g[..BLOCK * n], g[BLOCK * n..];
    var s := BlockStream(less, keys[..n], table);
    if i == n {
      assert Get(BlockStream(g, keys, table), BLOCK * i, BLOCK) == Stream(last, keys[n], table);
      assert last == Get(g, BLOCK * i, BLOCK);
    } else {
      BlockOf(less, keys[..n], table, i);
      assert Get(BlockStream(g, keys, table), BLOCK * i, BLOCK) == Get(s, BLOCK * i, BLOCK);
      assert Get(less, BLOCK * i, BLOCK) == Get(g, BLOCK * i, BLOCK);
    }
  }

  /** Encrypting block by block a second time decrypts. */
  lemma {:induction false} BlockStreamTwice(g: Bytes, keys: seq<bv32>, table: seq<bv32>)
    requires |g| == BLOCK * |keys| && |table| == 256
    ensures BlockStream(BlockStream(g, keys, table), keys, table) == g
    decreases |keys|
  {
    hide Stream;
    if keys == [] {
    } else {
      var n := |keys| - 1;
      var less, last := g[..BLOCK * n], g[BLOCK * n..];
      var s, t := BlockStream(less, keys[..n], table), Stream(last, keys[n], table);
      assert (s + t)[..BLOCK * n] == s && (s + t)[BLOCK * n..] == t;
      BlockStreamTwice(less, keys[..n], table);
      StreamTwice(last, keys[n], table);
      assert less + last == g;
    }
  }

  // ----- the record -----

  function FirstFields(blocks: nat): (r: Bytes)
    ensures |r| == 14
  {
    XCOD + Bytes32(RecordSize(blocks)) + Bytes32(BLOCK * blocks) + [0x10, 0x00]
  }

  function RecordHead(blocks: nat): (r: Bytes)
    ensures |r| == 16
  {
    FirstFields(blocks) + Bytes16(Crc(FirstFields(blocks), 0xffff))
  }

  /** The checksums of the first `i` blocks. */
  function CrcWords(app: Bytes, i: nat): (r: Bytes)
    requires i <= BlockCount(|app|)
    ensures |r| == 2 * i
  {
    if i == 0 then [] else CrcWords(app, i - 1) + Bytes16(BlockCrc(app, i - 1))
  }

  /** Unused words: each is the checksum of everything before it in the record, seeded with its offset. */
  function Chain(rec: Bytes, size: nat): (r: Bytes)
    requires |rec| <= size && (size - |rec|) % 2 == 0
    ensures |r| == size && rec <= r
    decreases size - |rec|
  {
    if |rec| == size then rec else Chain(rec + Bytes16(Crc(rec, Seed(R + |rec|))), size)
  }

  function RecordStart(app: Bytes): (r: Bytes)
    ensures |r| == 16 + 2 * BlockCount(|app|)
  {
    RecordHead(BlockCount(|app|)) + CrcWords(app, BlockCount(|app|))
  }

  function Record(app: Bytes): (r: Bytes)
    ensures |r| == RecordSize(BlockCount(|app|)) && RecordStart(app) <= r
  {
    hide RecordSize, RecordStart;
    Chain(RecordStart(app), RecordSize(BlockCount(|app|)))
  }

  // ----- the header -----

  /** The header under its fixed key, filled up to where the record begins. */
  function Head(header: Bytes, table: seq<bv32>): (r: Bytes)
    requires |header| == HEADER_SIZE && |table| == 256
    ensures |r| == R
  {
    Stream(header, XFIL_KEY, table) + seq(R - HEADER_SIZE, _ => 0xff)
  }

  function Sum8(b: Bytes): bv8 {
    if b == [] then 0 else Sum8(b[..|b| - 1]) + b[|b| - 1]
  }

  /** The application record of the header, with its checksum behind it. */
  function PutAppInfo(h: Bytes, payload: nat, appCrc: bv16): (r: Bytes)
    requires |h| == R
    ensures |r| == R
  {
    var a := Put(Put(Put(Put(h, 0x40, Bytes32(R)), 0x44, Bytes32(payload)), 0x4C, Bytes16(appCrc)), 0x4F, [0x01]);
    Put(a, 0x80, Bytes16(Crc(Get(a, 0x40, 0x40), 0xffff)))
  }

  function InfoKey(crc: bv16): bv32 {
    Duplicate(crc) ^ XAPP_KEY
  }

  function Encrypt(h: Bytes, off: nat, n: nat, key: bv32, table: seq<bv32>): (r: Bytes)
    requires off + n <= |h| && |table| == 256
    ensures |r| == |h|
  {
    Put(h, off, Stream(Get(h, off, n), key, table))
  }

  /** The top of the header, with the checksum of the main region in it and its own at its end. */
  function PutTop(h: Bytes, mainCrc: bv16): (r: Bytes)
    requires |h| == R
    ensures |r| == R
  {
    var a := Put(h, 0x1C, Bytes16(mainCrc));
    Put(a, 0x3E, Bytes16(Crc(Get(a, 0, 0x3E), 0xffff)))
  }

  /** Default settings, ended by a byte that makes them sum to zero. */
  function PutSettings(h: Bytes): (r: Bytes)
    requires |h| == R
    ensures |r| == R
  {
    var a := Put(Put(Put(h, 0xC0, DOWN), 0xC4, Zeros(0x15)), 0xE4, Zeros(2));
    Put(a, 0xFF, [0 - Sum8(Get(a, 0xC0, 0x3F))])
  }

  function MainKeys(mainCrc: bv16): (r: seq<bv32>)
    ensures |r| == 6
  {
    seq(6, j requires 0 <= j < 6 => ((j + 1) as bv32) ^ (Duplicate(mainCrc) ^ LVMG_KEY))
  }

  function MainCrc(h: Bytes): bv16
    requires |h| == R
  {
    Crc(Get(h, 0x400, 0xC00), 0xffff)
  }

  /** All the header's steps, in the source's order. */
  function Seal(h: Bytes, payload: nat, appCrc: bv16, table: seq<bv32>): (r: Bytes)
    requires |h| == R && |table| == 256
    ensures |r| == R
  {
    var a := PutAppInfo(h, payload, appCrc);
    var b := Encrypt(a, 0x40, 0x40, InfoKey(Read16(a, 0x80)), table);
    var main := MainCrc(b);
    var c := Encrypt(PutTop(b, main), 0, 0x40, LVMG_KEY, table);
    var d := PutSettings(c);
    Put(d, 0x400, BlockStream(Get(d, 0x400, 0xC00), MainKeys(main), table))
  }

  // ----- the body -----

  function PayloadKeys(app: Bytes, mainCrc: bv16): (r: seq<bv32>)
    ensures |r| == BlockCount(|app|)
  {
    seq(BlockCount(|app|), i requires 0 <= i < BlockCount(|app|) => BlockKey(BlockCrc(app, i), mainCrc))
  }

  function PlainBody(header: Bytes, app: Bytes, table: seq<bv32>): (r: Bytes)
    requires |header| == HEADER_SIZE && |table| == 256
    ensures |r| == BodySize(|app|)
  {
    Head(header, table) + Record(app) + Padded(app)
  }

  function SealedBody(header: Bytes, app: Bytes, table: seq<bv32>): (r: Bytes)
    requires |header| == HEADER_SIZE && |table| == 256
    ensures |r| == BodySize(|app|)
  {
    var h := Head(header, table);
    Seal(h, |Padded(app)|, Crc(Padded(app), 0xffff), table) + Record(app)
      + BlockStream(Padded(app), PayloadKeys(app, MainCrc(h)), table)
  }

  /** `build_experimental_body` */
  function Body(header: Bytes, app: Bytes, table: seq<bv32>, encrypt: bool): (r: Bytes)
    requires |header| == HEADER_SIZE && |table| == 256
    ensures |r| == BodySize(|app|)
  {
    if encrypt then SealedBody(header, app, table) else PlainBody(header, app, table)
  }

  // ----- the header can be opened again -----

  /** Nothing before 0x400 or after 0x1000 sees the encryption of the main region, and so on for each step. */
  lemma SealSteps(h: Bytes, payload: nat, appCrc: bv16, table: seq<bv32>) returns (a: Bytes, b: Bytes, t: Bytes, d: Bytes)
    requires |h| == R && |table| == 256
    ensures |a| == |b| == |t| == |d| == R
    ensures a == PutAppInfo(h, payload, appCrc) && b == Encrypt(a, 0x40, 0x40, InfoKey(Read16(a, 0x80)), table)
    ensures t == PutTop(b, MainCrc(b)) && d == PutSettings(Encrypt(t, 0, 0x40, LVMG_KEY, table))
    ensures Seal(h, payload, appCrc, table) ==
      Put(d, 0x400, BlockStream(Get(d, 0x400, 0xC00), MainKeys(MainCrc(b)), table))
    ensures Get(a, 0x400, 0xC00) == Get(b, 0x400, 0xC00) == Get(h, 0x400, 0xC00) == Get(d, 0x400, 0xC00)
    ensures MainCrc(b) == MainCrc(h)
  {
    a := PutAppInfo(h, payload, appCrc);
    b := Encrypt(a, 0x40, 0x40, InfoKey(Read16(a, 0x80)), table);
    t := PutTop(b, MainCrc(b));
    d := PutSettings(Encrypt(t, 0, 0x40, LVMG_KEY, table));
    hide Stream, Crc;
    AppInfoElsewhere(h, payload, appCrc, 0x400, 0xC00);
    PutElsewhere(a, 0x40, Stream(Get(a, 0x40, 0x40), InfoKey(Read16(a, 0x80)), table), 0x400, 0xC00);
    TopElsewhere(b, MainCrc(b), 0x400, 0xC00);
    PutElsewhere(t, 0, Stream(Get(t, 0, 0x40), LVMG_KEY, table), 0x400, 0xC00);
    SettingsElsewhere(Encrypt(t, 0, 0x40, LVMG_KEY, table), 0x400, 0xC00);
  }

  lemma AppInfoElsewhere(h: Bytes, payload: nat, appCrc: bv16, o: nat, n: nat)
    requires |h| == R && o + n <= R && (o + n <= 0x40 || 0x82 <= o)
    ensures Get(PutAppInfo(h, payload, appCrc), o, n) == Get(h, o, n)
  {
    hide Crc;
    var a1 := Put(h, 0x40, Bytes32(R));
    var a2 := Put(a1, 0x44, Bytes32(payload));
    var a3 := Put(a2, 0x4C, Bytes16(appCrc));
    var a4 := Put(a3, 0x4F, [0x01]);
    PutElsewhere(h, 0x40, Bytes32(R), o, n);
    PutElsewhere(a1, 0x44, Bytes32(payload), o, n);
    PutElsewhere(a2, 0x4C, Bytes16(appCrc), o, n);
    PutElsewhere(a3, 0x4F, [0x01], o, n);
    PutElsewhere(a4, 0x80, Bytes16(Crc(Get(a4, 0x40, 0x40), 0xffff)), o, n);
  }

  lemma TopElsewhere(h: Bytes, mainCrc: bv16, o: nat, n: nat)
    requires |h| == R && o + n <= R && 0x40 <= o
    ensures Get(PutTop(h, mainCrc), o, n) == Get(h, o, n)
  {
    hide Crc;
    var a := Put(h, 0x1C, Bytes16(mainCrc));
    PutElsewhere(h, 0x1C, Bytes16(mainCrc), o, n);
    PutElsewhere(a, 0x3E, Bytes16(Crc(Get(a, 0, 0x3E), 0xffff)), o, n);
  }

  lemma SettingsElsewhere(h: Bytes, o: nat, n: nat)
    requires |h| == R && o + n <= R && (o + n <= 0xC0 || 0x100 <= o)
    ensures Get(PutSettings(h), o, n) == Get(h, o, n)
  {
    hide Sum8;
    var a1 := Put(h, 0xC0, DOWN);
    var a2 := Put(a1, 0xC4, Zeros(0x15));
    var a3 := Put(a2, 0xE4, Zeros(2));
    PutElsewhere(h, 0xC0, DOWN, o, n);
    PutElsewhere(a1, 0xC4, Zeros(0x15), o, n);
    PutElsewhere(a2, 0xE4, Zeros(2), o, n);
    PutElsewhere(a3, 0xFF, [0 - Sum8(Get(a3, 0xC0, 0x3F))], o, n);
  }

  /** Decrypting the top of a sealed header gives back the checksum of the main region, under a valid checksum. */
  lemma TopOpens(h: Bytes, payload: nat, appCrc: bv16, table: seq<bv32>)
    requires |h| == R && |table| == 256
    ensures var top := Stream(Get(Seal(h, payload, appCrc, table), 0, 0x40), LVMG_KEY, table);
      && Read16(top, 0x1C) == MainCrc(h)
      && Read16(top, 0x3E) == Crc(Get(top, 0, 0x3E), 0xffff)
  {
    hide Stream, Crc, Seal, PutAppInfo, BlockStream;
    var s := Seal(h, payload, appCrc, table);
    var a, b, t, d := SealSteps(h, payload, appCrc, table);
    var c := Encrypt(t, 0, 0x40, LVMG_KEY, table);
    PutElsewhere(d, 0x400, BlockStream(Get(d, 0x400, 0xC00), MainKeys(MainCrc(b)), table), 0, 0x40);
    SettingsElsewhere(c, 0, 0x40);
    PutHere(t, 0, Stream(Get(t, 0, 0x40), LVMG_KEY, table));
    StreamTwice(Get(t, 0, 0x40), LVMG_KEY, table);
    var top := Stream(Get(s, 0, 0x40), LVMG_KEY, table);
    assert top == Get(t, 0, 0x40);
    TopFields(b, MainCrc(b));
  }

  lemma TopFields(h: Bytes, mainCrc: bv16)
    requires |h| == R
    ensures var top := Get(PutTop(h, mainCrc), 0, 0x40);
      Read16(top, 0x1C) == mainCrc && Read16(top, 0x3E) == Crc(Get(top, 0, 0x3E), 0xffff)
  {
    hide Crc;
    var a := Put(h, 0x1C, Bytes16(mainCrc));
    var crc := Crc(Get(a, 0, 0x3E), 0xffff);
    var t := PutTop(h, mainCrc);
    var top := Get(t, 0, 0x40);
    PutHere(h, 0x1C, Bytes16(mainCrc));
    PutElsewhere(a, 0x3E, Bytes16(crc), 0x1C, 2);
    PutElsewhere(a, 0x3E, Bytes16(crc), 0, 0x3E);
    PutHere(a, 0x3E, Bytes16(crc));
    GetGet(t, 0, 0x40, 0x1C, 2);
    GetGet(t, 0, 0x40, 0x3E, 2);
    GetGet(t, 0, 0x40, 0, 0x3E);
    ReadOf16(top, 0x1C, mainCrc);
    ReadOf16(top, 0x3E, crc);
  }

  /** The application record opens with the key its checksum gives, and names the payload. */
  lemma AppInfoOpens(h: Bytes, payload: nat, appCrc: bv16, table: seq<bv32>)
    requires |h| == R && |table| == 256 && payload < 0x1_0000_0000
    ensures var s := Seal(h, payload, appCrc, table);
      var info := Stream(Get(s, 0x40, 0x40), InfoKey(Read16(s, 0x80)), table);
      && Crc(info, 0xffff) == Read16(s, 0x80)
      && Read32(info, 0) == R && Read32(info, 4) == payload && Read16(info, 0xC) == appCrc
  {
    hide Stream, Crc, Seal, BlockStream, PutTop, PutSettings, Read32, Read16, InfoKey, PutAppInfo, Bytes32, Bytes16, MainCrc;
    var s := Seal(h, payload, appCrc, table);
    var a, b, t, d := SealSteps(h, payload, appCrc, table);
    var main := BlockStream(Get(d, 0x400, 0xC00), MainKeys(MainCrc(b)), table);
    var key := InfoKey(Read16(a, 0x80));
    InfoSurvives(b, t, d, main, 0x40, 0x40, table);
    InfoSurvives(b, t, d, main, 0x80, 2, table);
    PutHere(a, 0x40, Stream(Get(a, 0x40, 0x40), key, table));
    PutElsewhere(a, 0x40, Stream(Get(a, 0x40, 0x40), key, table), 0x80, 2);
    SameRead16(s, 0x80, a, 0x80);
    StreamTwice(Get(a, 0x40, 0x40), key, table);
    InfoFields(h, payload, appCrc);
  }

  lemma InfoSurvives(b: Bytes, t: Bytes, d: Bytes, main: Bytes, o: nat, n: nat, table: seq<bv32>)
    requires |b| == |t| == |d| == R && |main| == 0xC00 && |table| == 256 && 0x40 <= o && o + n <= 0x82
    requires t == PutTop(b, MainCrc(b)) && d == PutSettings(Encrypt(t, 0, 0x40, LVMG_KEY, table))
    ensures Get(Put(d, 0x400, main), o, n) == Get(b, o, n)
  {
    hide Stream, Crc, PutTop, PutSettings;
    PutElsewhere(d, 0x400, main, o, n);
    SettingsElsewhere(Encrypt(t, 0, 0x40, LVMG_KEY, table), o, n);
    PutElsewhere(t, 0, Stream(Get(t, 0, 0x40), LVMG_KEY, table), o, n);
    TopElsewhere(b, MainCrc(b), o, n);
  }

  lemma InfoFields(h: Bytes, payload: nat, appCrc: bv16)
    requires |h| == R && payload < 0x1_0000_0000
    ensures var a := PutAppInfo(h, payload, appCrc); var info := Get(a, 0x40, 0x40);
      && Crc(info, 0xffff) == Read16(a, 0x80)
      && Read32(info, 0) == R && Read32(info, 4) == payload && Read16(info, 0xC) == appCrc
  {
    hide Crc, Bytes32, Bytes16, Read32, Read16;
    var a1 := Put(h, 0x40, Bytes32(R));
    var a2 := Put(a1, 0x44, Bytes32(payload));
    var a3 := Put(a2, 0x4C, Bytes16(appCrc));
    var a4 := Put(a3, 0x4F, [0x01]);
    var crc := Crc(Get(a4, 0x40, 0x40), 0xffff);
    var a := Put(a4, 0x80, Bytes16(crc));
    var info := Get(a, 0x40, 0x40);
    PutHere(h, 0x40, Bytes32(R));
    PutElsewhere(a1, 0x44, Bytes32(payload), 0x40, 4);
    PutElsewhere(a2, 0x4C, Bytes16(appCrc), 0x40, 4);
    PutElsewhere(a3, 0x4F, [0x01], 0x40, 4);
    PutElsewhere(a4, 0x80, Bytes16(crc), 0x40, 4);
    PutHere(a1, 0x44, Bytes32(payload));
    PutElsewhere(a2, 0x4C, Bytes16(appCrc), 0x44, 4);
    PutElsewhere(a3, 0x4F, [0x01], 0x44, 4);
    PutElsewhere(a4, 0x80, Bytes16(crc), 0x44, 4);
    PutHere(a2, 0x4C, Bytes16(appCrc));
    PutElsewhere(a3, 0x4F, [0x01], 0x4C, 2);
    PutElsewhere(a4, 0x80, Bytes16(crc), 0x4C, 2);
    PutElsewhere(a4, 0x80, Bytes16(crc), 0x40, 0x40);
    PutHere(a4, 0x80, Bytes16(crc));
    GetGet(a, 0x40, 0x40, 0, 4);
    GetGet(a, 0x40, 0x40, 4, 4);
    GetGet(a, 0x40, 0x40, 0xC, 2);
    ReadOf32(info, 0, R);
    ReadOf32(info, 4, payload);
    ReadOf16(info, 0xC, appCrc);
    ReadOf16(a, 0x80, crc);
  }

  /** Decrypting the main region block by block gives the region whose checksum the top carries. */
  lemma MainOpens(h: Bytes, payload: nat, appCrc: bv16, table: seq<bv32>)
    requires |h| == R && |table| == 256
    ensures var s := Seal(h, payload, appCrc, table);
      var main := BlockStream(Get(s, 0x400, 0xC00), MainKeys(MainCrc(h)), table);
      main == Get(h, 0x400, 0xC00) && Crc(main, 0xffff) == MainCrc(h)
  {
    hide Stream, Crc, Seal, BlockStream, PutTop, PutSettings, PutAppInfo;
    var a, b, t, d := SealSteps(h, payload, appCrc, table);
    var main := BlockStream(Get(d, 0x400, 0xC00), MainKeys(MainCrc(b)), table);
    PutHere(d, 0x400, main);
    BlockStreamTwice(Get(d, 0x400, 0xC00), MainKeys(MainCrc(b)), table);
  }

  /** The settings block of a sealed header sums to zero. */
  lemma SettingsBalance(h: Bytes, payload: nat, appCrc: bv16, table: seq<bv32>)
    requires |h| == R && |table| == 256
    ensures Sum8(Get(Seal(h, payload, appCrc, table), 0xC0, 0x40)) == 0
  {
    hide Stream, Crc, Seal, BlockStream, PutTop, PutAppInfo, Sum8;
    var a, b, t, d := SealSteps(h, payload, appCrc, table);
    PutElsewhere(d, 0x400, BlockStream(Get(d, 0x400, 0xC00), MainKeys(MainCrc(b)), table), 0xC0, 0x40);
    var c := Encrypt(t, 0, 0x40, LVMG_KEY, table);
    var e := Put(Put(Put(c, 0xC0, DOWN), 0xC4, Zeros(0x15)), 0xE4, Zeros(2));
    var x := 0 - Sum8(Get(e, 0xC0, 0x3F));
    PutElsewhere(e, 0xFF, [x], 0xC0, 0x3F);
    PutHere(e, 0xFF, [x]);
    assert Get(d, 0xC0, 0x40) == Get(d, 0xC0, 0x3F) + Get(d, 0xFF, 1);
    SumEnds(Get(e, 0xC0, 0x3F), x);
  }

  lemma SumEnds(b: Bytes, x: bv8)
    requires x == 0 - Sum8(b)
    ensures Sum8(b + [x]) == 0
  {
    assert (b + [x])[..|b|] == b;
    Negation(Sum8(b));
  }

  lemma Negation(s: bv8)
    ensures s + (0 - s) == 0
  {
  }

  // ----- where things are -----

  lemma Regions(h: Bytes, rec: Bytes, p: Bytes, o: nat, n: nat)
    requires |h| == R
    ensures o + n <= R ==> Get(h + rec + p, o, n) == Get(h, o, n)
    ensures o + n <= |rec| ==> Get(h + rec + p, R + o, n) == Get(rec, o, n)
    ensures o + n <= |p| ==> Get(h + rec + p, R + |rec| + o, n) == Get(p, o, n)
  {
    var b := h + rec + p;
    if o + n <= R {
      assert b[o..o + n] == h[o..o + n];
    }
    if o + n <= |rec| {
      assert b[R + o..R + o + n] == rec[o..o + n];
    }
    if o + n <= |p| {
      assert b[R + |rec| + o..R + |rec| + o + n] == p[o..o + n];
    }
  }

  lemma {:induction false} CrcWordAt(app: Bytes, k: nat, i: nat)
    requires i < k <= BlockCount(|app|)
    ensures Get(CrcWords(app, k), 2 * i, 2) == Bytes16(BlockCrc(app, i))
  {
    hide Bytes16, BlockCrc;
    var less, last := CrcWords(app, k - 1), Bytes16(BlockCrc(app, k - 1));
    assert CrcWords(app, k) == less + last;
    if i < k - 1 {
      CrcWordAt(app, k - 1, i);
      assert (less + last)[2 * i..2 * i + 2] == less[2 * i..2 * i + 2];
    } else {
      assert (less + last)[2 * i..2 * i + 2] == last;
    }
  }

  /** The record holds its own fields, their checksum, and one checksum per block. */
  lemma RecordFields(app: Bytes)
    ensures var n := BlockCount(|app|);
      && Get(Record(app), 0, 14) == FirstFields(n)
      && Get(Record(app), 14, 2) == Bytes16(Crc(FirstFields(n), 0xffff))
      && forall i | 0 <= i < n :: Get(Record(app), 16 + 2 * i, 2) == Bytes16(BlockCrc(app, i))
  {
    hide Bytes16, BlockCrc, Crc, FirstFields, Chain;
    var n := BlockCount(|app|);
    var start, words := RecordStart(app), CrcWords(app, n);
    var rec := Record(app);
    forall i, m | 0 <= i && 0 <= m && i + m <= |start| ensures Get(rec, i, m) == Get(start, i, m) {
      assert rec[i..i + m] == start[i..i + m];
    }
    assert start[0..14] == FirstFields(n);
    assert start[14..16] == Bytes16(Crc(FirstFields(n), 0xffff));
    forall i | 0 <= i < n ensures Get(rec, 16 + 2 * i, 2) == Bytes16(BlockCrc(app, i)) {
      assert Get(rec, 16 + 2 * i, 2) == Get(start, 16 + 2 * i, 2);
      assert start[16 + 2 * i..16 + 2 * i + 2] == words[2 * i..2 * i + 2];
      CrcWordAt(app, n, i);
    }
  }

  lemma FieldsRead(b: Bytes, n: nat)
    requires |b| >= R + 16 && Get(b, R, 14) == FirstFields(n) && BLOCK * n < 0x1_0000_0000 && RecordSize(n) < 0x1_0000_0000
    ensures Read32(b, R + 4) == RecordSize(n) && Read32(b, R + 8) == BLOCK * n
  {
    hide Bytes32, Read32, RecordSize;
    var f := FirstFields(n);
    assert f[4..8] == Bytes32(RecordSize(n)) && f[8..12] == Bytes32(BLOCK * n);
    GetGet(b, R, 14, 4, 4);
    GetGet(b, R, 14, 8, 4);
    ReadOf32(b, R + 4, RecordSize(n));
    ReadOf32(b, R + 8, BLOCK * n);
  }
}
