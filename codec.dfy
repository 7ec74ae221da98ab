/** The save file: save_dungeon and load_dungeon of both versions.

    Layout, all counts and sizes big-endian: the 12-byte marker
    "RLG327-S2025", a u32 version (0), a u32 size field, the PC's x and y
    (one byte each), the 1680 hardness bytes row by row, a u16 room count
    and four bytes (x, y, w, h) per room, a u16 up-stair flag and, when it
    is 1, the stair's x and y, the same for the down stair, and in the C++
    version a u16 monster count and five bytes (x, y, speed, hp, btype) per
    live monster. Every value is written as its low byte(s), the way a C
    conversion to uint8_t / uint16_t / uint32_t keeps it. */
module Codec {
  import opened Grid
  import opened Level
  import opened Generation

  newtype byte = b: int | 0 <= b < 256

  datatype Option<T> = None | Some(value: T)

  datatype LoadError = BadMarker | BadVersion | Truncated

  datatype Result<T> = Ok(value: T) | Err(error: LoadError)

  datatype Monster = Monster(x: int, y: int, speed: int, hp: int, btype: int)

  /** What a save file holds. */
  datatype SaveFile = SaveFile(pcX: int, pcY: int, hardness: seq<int>, rooms: seq<Room>,
                               up: Option<(int, int)>, down: Option<(int, int)>, monsters: seq<Monster>)

  const FILE_MARKER: string := "RLG327-S2025"
  const MARKER: seq<byte> := [82, 76, 71, 51, 50, 55, 45, 83, 50, 48, 50, 53]
  const FILE_VERSION: int := 0

  lemma MarkerSpellsFileMarker()
    ensures |MARKER| == |FILE_MARKER| == 12
    ensures forall i :: 0 <= i < 12 ==> MARKER[i] as int == FILE_MARKER[i] as int
  {
  }

  /** (uint8_t) v. */
  function Low(v: int): byte {
    (v % 256) as byte
  }

  /** htobe16((uint16_t) n). */
  function BE16(n: int): (r: seq<byte>)
    ensures |r| == 2
  {
    [Low(n / 256), Low(n)]
  }

  /** htobe32((uint32_t) n). */
  function BE32(n: int): (r: seq<byte>)
    ensures |r| == 4
  {
    [Low(n / 0x100_0000), Low(n / 0x1_0000), Low(n / 0x100), Low(n)]
  }

  function U16(s: seq<byte>): (n: int)
    requires |s| == 2
    ensures 0 <= n < 0x1_0000
  {
    s[0] as int * 256 + s[1] as int
  }

  function U32(s: seq<byte>): (n: int)
    requires |s| == 4
    ensures 0 <= n < 0x1_0000_0000
  {
    ((s[0] as int * 256 + s[1] as int) * 256 + s[2] as int) * 256 + s[3] as int
  }

  /** The big-endian fields read back the number written, modulo their width. */
  lemma U16BE16(n: int)
    ensures U16(BE16(n)) == n % 0x1_0000
  {
    var q, m := n / 0x1_0000, n % 0x1_0000;
    assert n == q * 0x1_0000 + m;
    assert n / 256 == q * 256 + m / 256;
    assert (n / 256) % 256 == m / 256;
    assert n % 256 == m % 256;
  }

  lemma U32BE32(n: int)
    ensures U32(BE32(n)) == n % 0x1_0000_0000
  {
    var n1 := n / 256;
    var n2 := n1 / 256;
    var n3 := n2 / 256;
    var n4 := n3 / 256;
    assert n2 == n / 0x1_0000 && n3 == n / 0x100_0000 && n4 == n / 0x1_0000_0000;
    assert n == n1 * 256 + n % 256;
    assert n1 == n2 * 256 + n1 % 256;
    assert n2 == n3 * 256 + n2 % 256;
    assert n3 == n4 * 256 + n3 % 256;
    assert U32(BE32(n)) == ((n3 % 256 * 256 + n2 % 256) * 256 + n1 % 256) * 256 + n % 256;
    assert n == n4 * 0x1_0000_0000 + U32(BE32(n));
  }

  lemma LowOfByte(v: int)
    requires IsByte(v)
    ensures Low(v) as int == v
  {
    assert v % 256 == v;
  }

  function HardnessBytes(h: seq<int>): (r: seq<byte>)
    ensures |r| == |h| && forall i :: 0 <= i < |h| ==> r[i] == Low(h[i])
  {
    seq(|h|, i requires 0 <= i < |h| => Low(h[i]))
  }

  function RoomBytes(rooms: seq<Room>): (r: seq<byte>)
    ensures |r| == 4 * |rooms|
  {
    if rooms == [] then []
    else RoomBytes(rooms[..|rooms| - 1]) +
         [Low(rooms[|rooms| - 1].x), Low(rooms[|rooms| - 1].y), Low(rooms[|rooms| - 1].w), Low(rooms[|rooms| - 1].h)]
  }

  /** The stair field: the flag, then the coordinates when there is a stair. */
  function StairBytes(s: Option<(int, int)>): (r: seq<byte>)
    ensures |r| == if s.Some? then 4 else 2
  {
    match s
    case None => BE16(0)
    case Some((x, y)) => BE16(1) + [Low(x), Low(y)]
  }

  function MonsterBytes(ms: seq<Monster>): (r: seq<byte>)
    ensures |r| == 5 * |ms|
  {
    if ms == [] then []
    else
      var m := ms[|ms| - 1];
      MonsterBytes(ms[..|ms| - 1]) + [Low(m.x), Low(m.y), Low(m.speed), Low(m.hp), Low(m.btype)]
  }

  function StairCount(s: Option<(int, int)>): int {
    if s.Some? then 1 else 0
  }

  /** The size fields as written: 1702 + 4 per room + 2 + 2 per stair + 2,
      and in the C++ version 2 + 5 per monster more. */
  function SizeFieldC(f: SaveFile): int {
    1702 + |f.rooms| * 4 + 2 + StairCount(f.up) * 2 + 2 + StairCount(f.down) * 2
  }

  function SizeField(f: SaveFile): int {
    SizeFieldC(f) + 2 + (|f.monsters| % 0x1_0000) * 5
  }

  /** The marker, the version, the size field and the PC's position. */
  function Header(f: SaveFile, size: int): (r: seq<byte>)
    ensures |r| == 22
  {
    MARKER + BE32(FILE_VERSION) + BE32(size) + [Low(f.pcX), Low(f.pcY)]
  }

  /** Everything up to the monster section; the C version's whole file. */
  function Layout(f: SaveFile, size: int): seq<byte> {
    Header(f, size) + HardnessBytes(f.hardness) + BE16(|f.rooms|) + RoomBytes(f.rooms) + StairBytes(f.up) + StairBytes(f.down)
  }

  /** save_dungeon (C++). */
  function Encode(f: SaveFile): seq<byte> {
    Layout(f, SizeField(f)) + BE16(|f.monsters|) + MonsterBytes(f.monsters)
  }

  /** save_dungeon (C). */
  function EncodeC(f: SaveFile): seq<byte> {
    Layout(f, SizeFieldC(f))
  }

  /** A save file whose every value survives the byte conversions. */
  predicate IsByte(v: int) {
    0 <= v < 256
  }

  predicate ByteRoom(r: Room) {
    IsByte(r.x) && IsByte(r.y) && IsByte(r.w) && IsByte(r.h)
  }

  predicate ByteStair(s: Option<(int, int)>) {
    s.Some? ==> IsByte(s.value.0) && IsByte(s.value.1)
  }

  predicate ByteMonsters(ms: seq<Monster>) {
    |ms| < 0x1_0000 &&
    forall i :: 0 <= i < |ms| ==>
      IsByte(ms[i].x) && IsByte(ms[i].y) && IsByte(ms[i].speed) && IsByte(ms[i].hp) && IsByte(ms[i].btype)
  }

  predicate Fits(f: SaveFile) {
    IsByte(f.pcX) && IsByte(f.pcY) && |f.hardness| == CELLS && (forall i :: 0 <= i < CELLS ==> IsByte(f.hardness[i])) &&
    |f.rooms| <= MAX_ROOMS && (forall i :: 0 <= i < |f.rooms| ==> ByteRoom(f.rooms[i])) &&
    ByteStair(f.up) && ByteStair(f.down) && ByteMonsters(f.monsters)
  }

  // Decoding.

  function Min(a: int, b: int): int {
    if a < b then a else b
  }

  /** The rooms of the four-byte records at the start of t. */
  function ReadRooms(t: seq<byte>, n: nat): (rooms: seq<Room>)
    requires 4 * n <= |t|
    ensures |rooms| == n && forall i :: 0 <= i < n ==> ByteRoom(rooms[i])
  {
    seq(n, i requires 0 <= i < n => Room(t[4 * i] as int, t[4 * i + 1] as int, t[4 * i + 2] as int, t[4 * i + 3] as int))
  }

  /** The hardness bytes as the grid's integers. */
  function Widen(s: seq<byte>): (h: seq<int>)
    ensures |h| == |s| && forall i :: 0 <= i < |s| ==> IsByte(h[i])
  {
    seq(|s|, i requires 0 <= i < |s| => s[i] as int)
  }

  lemma WidenHardness(h: seq<int>)
    requires forall i :: 0 <= i < |h| ==> IsByte(h[i])
    ensures Widen(HardnessBytes(h)) == h
  {
    forall i | 0 <= i < |h| ensures Widen(HardnessBytes(h))[i] == h[i] {
      LowOfByte(h[i]);
    }
  }

  /** A stair field at the start of t, and the bytes after it. */
  function ReadStair(t: seq<byte>): (r: Result<(Option<(int, int)>, seq<byte>)>)
    ensures r.Ok? ==> |r.value.1| < |t| && ByteStair(r.value.0)
  {
    if |t| < 2 then Err(Truncated)
    else if U16(t[..2]) == 0 then Ok((None, t[2..]))
    else if |t| < 4 then Err(Truncated)
    else Ok((Some((t[2] as int, t[3] as int)), t[4..]))
  }

  /** The fields both loaders read, and the bytes after them. Only the
      first MAX_ROOMS room records are read; any further records are then
      read as the stair fields. */
  function DecodeLayout(b: seq<byte>): (r: Result<(SaveFile, seq<byte>)>)
    ensures r.Ok? ==> Fits(r.value.0) && r.value.0.monsters == []
  {
    if |b| < 12 || b[..12] != MARKER then Err(BadMarker)
    else if |b| < 16 then Err(Truncated)
    else if U32(b[12..16]) != FILE_VERSION then Err(BadVersion)
    else if |b| < 1704 then Err(Truncated)
    else
      var n := Min(U16(b[1702..1704]), MAX_ROOMS);
      var t := b[1704..];
      if |t| < 4 * n then Err(Truncated)
      else
        match ReadStair(t[4 * n..])
        case Err(e) => Err(e)
        case Ok((up, t2)) =>
          match ReadStair(t2)
          case Err(e) => Err(e)
          case Ok((down, t3)) =>
            Ok((SaveFile(b[20] as int, b[21] as int, Widen(b[22..1702]),
                         ReadRooms(t, n), up, down, []), t3))
  }

  /** The monsters of the five-byte records at the start of t. */
  function ReadMonsterRecords(t: seq<byte>, n: nat): (ms: seq<Monster>)
    requires 5 * n <= |t|
    ensures |ms| == n
    ensures forall i :: 0 <= i < n ==>
      IsByte(ms[i].x) && IsByte(ms[i].y) && IsByte(ms[i].speed) && IsByte(ms[i].hp) && IsByte(ms[i].btype)
  {
    seq(n, i requires 0 <= i < n =>
          Monster(t[5 * i] as int, t[5 * i + 1] as int, t[5 * i + 2] as int, t[5 * i + 3] as int, t[5 * i + 4] as int))
  }

  /** The monster section: fewer than two bytes left reads as no monsters. */
  function ReadMonsters(t: seq<byte>): (r: Result<seq<Monster>>)
    ensures r.Ok? ==> ByteMonsters(r.value)
  {
    if |t| < 2 then Ok([])
    else
      var m := U16(t[..2]);
      if |t| < 2 + 5 * m then Err(Truncated)
      else Ok(ReadMonsterRecords(t[2..], m))
  }

  /** load_dungeon (C++). */
  function Decode(b: seq<byte>): (r: Result<SaveFile>)
    ensures r.Ok? ==> Fits(r.value)
  {
    match DecodeLayout(b)
    case Err(e) => Err(e)
    case Ok((f, rest)) =>
      match ReadMonsters(rest)
      case Err(e) => Err(e)
      case Ok(ms) => Ok(f.(monsters := ms))
  }

  /** load_dungeon (C): the stair fields end what it reads. */
  function DecodeC(b: seq<byte>): (r: Result<SaveFile>)
    ensures r.Ok? ==> Fits(r.value) && r.value.monsters == []
  {
    match DecodeLayout(b)
    case Err(e) => Err(e)
    case Ok((f, _)) => Ok(f)
  }

  // Round trips.

  lemma ReadRoomsOf(rooms: seq<Room>, rest: seq<byte>)
    requires forall i :: 0 <= i < |rooms| ==> ByteRoom(rooms[i])
    ensures ReadRooms(RoomBytes(rooms) + rest, |rooms|) == rooms
  {
    var t := RoomBytes(rooms) + rest;
    forall i | 0 <= i < |rooms|
      ensures ReadRooms(t, |rooms|)[i] == rooms[i]
    {
      RoomBytesAt(rooms, i);
      ReadRoomAt(RoomBytes(rooms), rest, |rooms|, i);
      var r := rooms[i];
      assert ByteRoom(r);
      LowOfByte(r.x);
      LowOfByte(r.y);
      LowOfByte(r.w);
      LowOfByte(r.h);
    }
  }

  lemma ReadRoomAt(body: seq<byte>, rest: seq<byte>, n: nat, i: nat)
    requires |body| == 4 * n && i < n
    ensures 4 * i + 3 < |body|
    ensures ReadRooms(body + rest, n)[i] ==
            Room(body[4 * i] as int, body[4 * i + 1] as int, body[4 * i + 2] as int, body[4 * i + 3] as int)
  {
  }

  lemma {:induction false} RoomBytesAt(rooms: seq<Room>, i: int)
    requires 0 <= i < |rooms|
    ensures RoomBytes(rooms)[4 * i] == Low(rooms[i].x) && RoomBytes(rooms)[4 * i + 1] == Low(rooms[i].y)
    ensures RoomBytes(rooms)[4 * i + 2] == Low(rooms[i].w) && RoomBytes(rooms)[4 * i + 3] == Low(rooms[i].h)
  {
    var init := rooms[..|rooms| - 1];
    if i < |rooms| - 1 {
      RoomBytesAt(init, i);
      assert init[i] == rooms[i];
    }
  }

  lemma {:induction false} MonsterBytesAt(ms: seq<Monster>, i: int)
    requires 0 <= i < |ms|
    ensures MonsterBytes(ms)[5 * i] == Low(ms[i].x) && MonsterBytes(ms)[5 * i + 1] == Low(ms[i].y)
    ensures MonsterBytes(ms)[5 * i + 2] == Low(ms[i].speed) && MonsterBytes(ms)[5 * i + 3] == Low(ms[i].hp)
    ensures MonsterBytes(ms)[5 * i + 4] == Low(ms[i].btype)
  {
    var init := ms[..|ms| - 1];
    if i < |ms| - 1 {
      MonsterBytesAt(init, i);
      assert init[i] == ms[i];
    }
  }

  lemma ReadStairOf(s: Option<(int, int)>, rest: seq<byte>)
    requires ByteStair(s)
    ensures ReadStair(StairBytes(s) + rest) == Ok((s, rest))
  {
    var t := StairBytes(s) + rest;
    assert t[..2] == (if s.Some? then BE16(1) else BE16(0));
    if s.Some? {
      assert t[4..] == rest;
    } else {
      assert t[2..] == rest;
    }
  }

  lemma ReadMonstersOf(ms: seq<Monster>)
    requires ByteMonsters(ms)
    ensures ReadMonsters(BE16(|ms|) + MonsterBytes(ms)) == Ok(ms)
  {
    var body := MonsterBytes(ms);
    forall i | 0 <= i < |ms|
      ensures ReadMonsterRecords(body, |ms|)[i] == ms[i]
    {
      MonsterBytesAt(ms, i);
      ReadMonsterRecordAt(body, |ms|, i);
      var m := ms[i];
      LowOfByte(m.x);
      LowOfByte(m.y);
      LowOfByte(m.speed);
      LowOfByte(m.hp);
      LowOfByte(m.btype);
    }
    assert ReadMonsterRecords(body, |ms|) == ms;
    ReadMonstersSplit(|ms|, body);
  }

  lemma ReadMonsterRecordAt(t: seq<byte>, n: nat, i: nat)
    requires 5 * n <= |t| && i < n
    ensures 5 * i + 4 < |t|
    ensures ReadMonsterRecords(t, n)[i] ==
            Monster(t[5 * i] as int, t[5 * i + 1] as int, t[5 * i + 2] as int, t[5 * i + 3] as int, t[5 * i + 4] as int)
  {
  }

  lemma ReadMonstersSplit(k: nat, body: seq<byte>)
    requires k < 0x1_0000 && |body| == 5 * k
    ensures ReadMonsters(BE16(k) + body) == Ok(ReadMonsterRecords(body, k))
  {
    var t := BE16(k) + body;
    U16BE16(k);
    assert t[..2] == BE16(k) && t[2..] == body;
  }

  /** Both loaders read back the layout part of either file: the fields,
      and the bytes after the stair fields. */
  lemma DecodeLayoutOf(f: SaveFile, size: int, rest: seq<byte>)
    requires Fits(f)
    ensures DecodeLayout(Layout(f, size) + rest) == Ok((f.(monsters := []), rest))
  {
    LayoutDecodes(f, size, rest);
    ReadRoomsOf(f.rooms, StairBytes(f.up) + StairBytes(f.down) + rest);
    WidenHardness(f.hardness);
    LowOfByte(f.pcX);
    LowOfByte(f.pcY);
  }

  /** What the layout decoder reads from an encoded layout, before the
      byte conversions are undone. */
  lemma LayoutDecodes(f: SaveFile, size: int, rest: seq<byte>)
    requires |f.hardness| == CELLS && |f.rooms| <= MAX_ROOMS && ByteStair(f.up) && ByteStair(f.down)
    ensures var tail := StairBytes(f.up) + StairBytes(f.down) + rest;
      DecodeLayout(Layout(f, size) + rest) ==
      Ok((SaveFile(Low(f.pcX) as int, Low(f.pcY) as int, Widen(HardnessBytes(f.hardness)),
                   ReadRooms(RoomBytes(f.rooms) + tail, |f.rooms|), f.up, f.down, []), rest))
  {
    var tail := StairBytes(f.up) + StairBytes(f.down) + rest;
    var n := |f.rooms|;
    var b := Layout(f, size) + rest;
    LayoutBytes(f, size, rest);
    assert n % 0x1_0000 == n;
    assert b[1704 + 4 * n..] == b[1704..][4 * n..] == tail;
    ReadStairOf(f.up, StairBytes(f.down) + rest);
    assert tail == StairBytes(f.up) + (StairBytes(f.down) + rest);
    ReadStairOf(f.down, rest);
    DecodeLayoutSplit(b, n);
  }

  /** Where an encoded layout's fields sit. */
  lemma LayoutBytes(f: SaveFile, size: int, rest: seq<byte>)
    requires |f.hardness| == CELLS
    ensures var b := Layout(f, size) + rest;
      |b| >= 1704 + 4 * |f.rooms| && b[..12] == MARKER && U32(b[12..16]) == FILE_VERSION &&
      U16(b[1702..1704]) == |f.rooms| % 0x1_0000 && b[20] == Low(f.pcX) && b[21] == Low(f.pcY) &&
      b[22..1702] == HardnessBytes(f.hardness)
    ensures (Layout(f, size) + rest)[1704..] == RoomBytes(f.rooms) + (StairBytes(f.up) + StairBytes(f.down) + rest)
  {
    var body := RoomBytes(f.rooms) + (StairBytes(f.up) + StairBytes(f.down) + rest);
    assert Layout(f, size) + rest == Header(f, size) + HardnessBytes(f.hardness) + BE16(|f.rooms|) + body;
    FileSlices(Header(f, size), HardnessBytes(f.hardness), BE16(|f.rooms|), body);
    HeaderFields(f, size);
    U16BE16(|f.rooms|);
  }

  lemma HeaderFields(f: SaveFile, size: int)
    ensures Header(f, size)[..12] == MARKER && U32(Header(f, size)[12..16]) == FILE_VERSION
    ensures Header(f, size)[16..20] == BE32(size)
    ensures Header(f, size)[20] == Low(f.pcX) && Header(f, size)[21] == Low(f.pcY)
  {
    U32BE32(FILE_VERSION);
    assert Header(f, size)[12..16] == BE32(FILE_VERSION);
  }

  /** Where the fixed-size parts of a file sit. */
  lemma FileSlices(head: seq<byte>, hb: seq<byte>, cnt: seq<byte>, body: seq<byte>)
    requires |head| == 22 && |hb| == CELLS && |cnt| == 2
    ensures var b := head + hb + cnt + body;
      |b| == 1704 + |body| && b[..12] == head[..12] && b[12..16] == head[12..16] && b[16..20] == head[16..20] &&
      b[20] == head[20] && b[21] == head[21] && b[22..1702] == hb && b[1702..1704] == cnt && b[1704..] == body
  {
  }

  /** The layout decoder on bytes with a valid header and n room records. */
  lemma DecodeLayoutSplit(b: seq<byte>, n: nat)
    requires |b| >= 1704 + 4 * n && n <= MAX_ROOMS
    requires b[..12] == MARKER && U32(b[12..16]) == FILE_VERSION && U16(b[1702..1704]) == n
    requires ReadStair(b[1704 + 4 * n..]).Ok? && ReadStair(ReadStair(b[1704 + 4 * n..]).value.1).Ok?
    ensures var (up, t2) := ReadStair(b[1704 + 4 * n..]).value;
      var (down, t3) := ReadStair(t2).value;
      DecodeLayout(b) ==
      Ok((SaveFile(b[20] as int, b[21] as int, Widen(b[22..1702]), ReadRooms(b[1704..], n), up, down, []), t3))
  {
    assert b[1704..][4 * n..] == b[1704 + 4 * n..];
  }

  /** load_dungeon(save_dungeon(f)) == f, C++. */
  lemma RoundTrip(f: SaveFile)
    requires Fits(f)
    ensures Decode(Encode(f)) == Ok(f)
  {
    DecodeLayoutOf(f, SizeField(f), BE16(|f.monsters|) + MonsterBytes(f.monsters));
    assert Encode(f) == Layout(f, SizeField(f)) + (BE16(|f.monsters|) + MonsterBytes(f.monsters));
    ReadMonstersOf(f.monsters);
  }

  /** The same for the C pair, which keeps no monsters. */
  lemma RoundTripC(f: SaveFile)
    requires Fits(f)
    ensures DecodeC(EncodeC(f)) == Ok(f.(monsters := []))
  {
    DecodeLayoutOf(f, SizeFieldC(f), []);
    assert EncodeC(f) == Layout(f, SizeFieldC(f)) + [];
  }

  /** Across the versions: the C++ loader reads a C file as one without
      monsters (its monster count is missing), and the C loader reads a C++
      file and ignores its monster section. */
  lemma CrossVersion(f: SaveFile)
    requires Fits(f)
    ensures Decode(EncodeC(f)) == Ok(f.(monsters := []))
    ensures DecodeC(Encode(f)) == Ok(f.(monsters := []))
  {
    DecodeLayoutOf(f, SizeFieldC(f), []);
    assert EncodeC(f) == Layout(f, SizeFieldC(f)) + [];
    DecodeLayoutOf(f, SizeField(f), BE16(|f.monsters|) + MonsterBytes(f.monsters));
    assert Encode(f) == Layout(f, SizeField(f)) + (BE16(|f.monsters|) + MonsterBytes(f.monsters));
  }

  /** The size field each version writes is two less than the bytes it
      writes. */
  lemma SizeFieldTwoShort(f: SaveFile)
    requires |f.hardness| == CELLS && |f.monsters| < 0x1_0000 && |f.rooms| <= MAX_ROOMS
    ensures U32(Encode(f)[16..20]) == |Encode(f)| - 2
  {
    LayoutLength(f, SizeField(f));
    assert |f.monsters| % 0x1_0000 == |f.monsters|;
    assert Encode(f) == Layout(f, SizeField(f)) + (BE16(|f.monsters|) + MonsterBytes(f.monsters));
    SizeAt(f, SizeField(f), BE16(|f.monsters|) + MonsterBytes(f.monsters));
  }

  lemma SizeFieldTwoShortC(f: SaveFile)
    requires |f.hardness| == CELLS && |f.rooms| <= MAX_ROOMS
    ensures U32(EncodeC(f)[16..20]) == |EncodeC(f)| - 2
  {
    LayoutLength(f, SizeFieldC(f));
    assert EncodeC(f) == Layout(f, SizeFieldC(f)) + [];
    SizeAt(f, SizeFieldC(f), []);
  }

  lemma LayoutLength(f: SaveFile, size: int)
    requires |f.hardness| == CELLS && |f.rooms| <= MAX_ROOMS
    ensures |Layout(f, size)| == SizeFieldC(f) + 2
  {
    assert |StairBytes(f.up)| == 2 + 2 * StairCount(f.up);
    assert |StairBytes(f.down)| == 2 + 2 * StairCount(f.down);
  }

  /** The size field reads back as written when it fits in 32 bits. */
  lemma SizeAt(f: SaveFile, size: int, rest: seq<byte>)
    requires |f.hardness| == CELLS && 0 <= size < 0x1_0000_0000
    ensures U32((Layout(f, size) + rest)[16..20]) == size
  {
    var body := RoomBytes(f.rooms) + StairBytes(f.up) + StairBytes(f.down) + rest;
    assert Layout(f, size) + rest == Header(f, size) + HardnessBytes(f.hardness) + BE16(|f.rooms|) + body;
    FileSlices(Header(f, size), HardnessBytes(f.hardness), BE16(|f.rooms|), body);
    HeaderFields(f, size);
    U32BE32(size);
  }

  /** Decoding fails exactly on a wrong marker, a wrong version or a short
      file, and a file that ends before a monster count has no monsters. */
  lemma DecodeErrors(b: seq<byte>)
    ensures Decode(b) == Err(BadMarker) <==> |b| < 12 || b[..12] != MARKER
    ensures Decode(b) == Err(BadVersion) <==> 16 <= |b| && b[..12] == MARKER && U32(b[12..16]) != FILE_VERSION
    ensures DecodeLayout(b).Ok? && |DecodeLayout(b).value.1| < 2 ==> Decode(b) == Ok(DecodeLayout(b).value.0)
  {
  }

  // The level a file describes.

  /** The base map load_dungeon derives: rock of hardness 0 is corridor
      '#', other rock ' ', room cells '.', then the up and the down stair. */
  function LoadedCell(hard: seq<int>, rooms: seq<Room>, up: Option<(int, int)>, down: Option<(int, int)>, x: int, y: int): char
    requires |hard| == CELLS && InBounds(x, y)
  {
    if down == Some((x, y)) then '>'
    else if up == Some((x, y)) then '<'
    else if InSomeRoom(rooms, x, y) then '.'
    else if hard[Idx(x, y)] == 255 then ' '
    else if hard[Idx(x, y)] > 0 then ' '
    else '#'
  }

  /** Each glyph of the loaded base map says which field put it there: a
      cell off the rooms and the stairs is '#' exactly where its hardness is
      not positive. */
  lemma LoadedCellFacts(hard: seq<int>, rooms: seq<Room>, up: Option<(int, int)>, down: Option<(int, int)>, x: int, y: int)
    requires |hard| == CELLS && InBounds(x, y)
    ensures var c := LoadedCell(hard, rooms, up, down, x, y);
      (c == '>' <==> down == Some((x, y))) &&
      (c == '<' <==> up == Some((x, y)) && down != Some((x, y))) &&
      (c == '.' <==> InSomeRoom(rooms, x, y) && up != Some((x, y)) && down != Some((x, y))) &&
      (c == '#' <==> !InSomeRoom(rooms, x, y) && up != Some((x, y)) && down != Some((x, y)) && hard[Idx(x, y)] <= 0) &&
      (c == ' ' <==> !InSomeRoom(rooms, x, y) && up != Some((x, y)) && down != Some((x, y)) && hard[Idx(x, y)] > 0)
  {
  }

  /** On a generated level the map load_dungeon derives from the hardness,
      the rooms and the stairs is the base map newLevel drew. */
  lemma GeneratedCellLoads(grid: seq<char>, hard: seq<int>, rooms: seq<Room>, ux: int, uy: int, dx: int, dy: int,
                           x: int, y: int)
    requires |grid| == CELLS && |hard| == CELLS && GeneratedLevel(grid, hard, rooms, ux, uy, dx, dy) && InBounds(x, y)
    ensures LoadedCell(hard, rooms, Some((ux, uy)), Some((dx, dy)), x, y) == grid[Idx(x, y)]
  {
  }

  /** The part of a room reaching past the grid is skipped. */
  method FloorRoom(grid: array<char>, r: Room)
    requires grid.Length == CELLS
    modifies grid
    ensures forall x, y | InBounds(x, y) :: grid[Idx(x, y)] == (if InRoom(r, x, y) then '.' else old(grid[Idx(x, y)]))
  {
    var row := r.y;
    while row < r.y + r.h
      invariant r.y <= row && (r.h >= 0 ==> row <= r.y + r.h)
      invariant forall x, y | InBounds(x, y) ::
                  grid[Idx(x, y)] == (if InRoom(r, x, y) && y < row then '.' else old(grid[Idx(x, y)]))
    {
      var col := r.x;
      while col < r.x + r.w
        invariant r.x <= col && (r.w >= 0 ==> col <= r.x + r.w)
        invariant forall x, y | InBounds(x, y) ::
                    grid[Idx(x, y)] == (if InRoom(r, x, y) && (y < row || (y == row && x < col)) then '.' else old(grid[Idx(x, y)]))
      {
        if InBounds(col, row) {
          grid[Idx(col, row)] := '.';
        }
        col := col + 1;
      }
      row := row + 1;
    }
  }

  /** Writes the derived base map into grid. */
  method DeriveMap(grid: array<char>, hard: array<int>, rooms: seq<Room>, up: Option<(int, int)>, down: Option<(int, int)>)
    requires grid.Length == CELLS && hard.Length == CELLS
    modifies grid
    ensures forall x, y | InBounds(x, y) :: grid[Idx(x, y)] == LoadedCell(hard[..], rooms, up, down, x, y)
  {
    for i := 0 to CELLS
      invariant forall j :: 0 <= j < i ==> grid[j] == (if hard[j] == 255 then ' ' else if hard[j] > 0 then ' ' else '#')
    {
      if hard[i] == 255 {
        grid[i] := ' ';
      } else if hard[i] > 0 {
        grid[i] := ' ';
      } else {
        grid[i] := '#';
      }
    }
    for k := 0 to |rooms|
      invariant forall x, y | InBounds(x, y) :: grid[Idx(x, y)] ==
                  (if InSomeRoom(rooms[..k], x, y) then '.'
                   else if hard[Idx(x, y)] == 255 then ' ' else if hard[Idx(x, y)] > 0 then ' ' else '#')
    {
      FloorRoom(grid, rooms[k]);
      assert rooms[..k + 1] == rooms[..k] + [rooms[k]];
      forall x, y | InBounds(x, y) ensures InSomeRoom(rooms[..k + 1], x, y) <==> InSomeRoom(rooms[..k], x, y) || InRoom(rooms[k], x, y) {
        InSomeRoomAppend(rooms[..k], rooms[k], x, y);
      }
    }
    assert rooms[..|rooms|] == rooms;
    if up.Some? && InBounds(up.value.0, up.value.1) {
      grid[Idx(up.value.0, up.value.1)] := '<';
    }
    if down.Some? && InBounds(down.value.0, down.value.1) {
      grid[Idx(down.value.0, down.value.1)] := '>';
    }
    forall x, y | InBounds(x, y) ensures grid[Idx(x, y)] == LoadedCell(hard[..], rooms, up, down, x, y) {
      if up.Some? && InBounds(up.value.0, up.value.1) {
        IdxInjective(x, y, up.value.0, up.value.1);
      }
      if down.Some? && InBounds(down.value.0, down.value.1) {
        IdxInjective(x, y, down.value.0, down.value.1);
      }
    }
  }

  /** The live NPCs of a roster, as the C++ save writes them. */
  function SavedMonsters(cs: seq<Character>): (ms: seq<Monster>)
    ensures |ms| == NumAliveMonsters(cs)
  {
    if cs == [] then []
    else
      var c := cs[|cs| - 1];
      SavedMonsters(cs[..|cs| - 1]) + (if c.kind == NPCKind && c.alive then [Monster(c.x, c.y, c.speed, c.hp, c.btype)] else [])
  }

  /** The NPCs the C++ load creates, in file order. */
  function LoadedNpcs(ms: seq<Monster>): (cs: seq<Character>)
    requires ByteMonsters(ms)
    ensures |cs| == |ms|
  {
    seq(|ms|, i requires 0 <= i < |ms| => NewNpc(ms[i].btype, ms[i].x, ms[i].y, ms[i].speed, ms[i].hp))
  }

  /** Saving the NPCs loaded from a file gives back the file's monsters. */
  lemma {:induction false} SavedLoadedNpcs(ms: seq<Monster>)
    requires ByteMonsters(ms)
    ensures SavedMonsters(LoadedNpcs(ms)) == ms
  {
    if ms != [] {
      var n := |ms| - 1;
      var init, m := ms[..n], ms[n];
      assert ms == init + [m];
      assert ByteMonsters(init) by {
        forall i | 0 <= i < n ensures init[i] == ms[i] { }
      }
      SavedLoadedNpcs(init);
      LoadedNpcsSnoc(init, m);
      SavedMonstersSnoc(LoadedNpcs(init), NewNpc(m.btype, m.x, m.y, m.speed, m.hp));
    }
  }

  lemma LoadedNpcsSnoc(ms: seq<Monster>, m: Monster)
    requires ByteMonsters(ms + [m]) && IsByte(m.btype)
    ensures ByteMonsters(ms)
    ensures LoadedNpcs(ms + [m]) == LoadedNpcs(ms) + [NewNpc(m.btype, m.x, m.y, m.speed, m.hp)]
  {
    assert forall i | 0 <= i < |ms| :: (ms + [m])[i] == ms[i];
    assert (ms + [m])[|ms|] == m;
  }

  lemma SavedMonstersSnoc(cs: seq<Character>, c: Character)
    ensures SavedMonsters(cs + [c]) ==
            SavedMonsters(cs) + (if c.kind == NPCKind && c.alive then [Monster(c.x, c.y, c.speed, c.hp, c.btype)] else [])
  {
    assert (cs + [c])[..|cs|] == cs;
  }

  /** A roster whose live NPCs have byte-sized fields saves byte-sized
      monster records. */
  lemma {:induction false} SavedMonstersBytes(cs: seq<Character>)
    requires forall i :: 0 <= i < |cs| && cs[i].kind == NPCKind && cs[i].alive ==>
               IsByte(cs[i].x) && IsByte(cs[i].y) && IsByte(cs[i].speed) && IsByte(cs[i].hp) && IsByte(cs[i].btype)
    ensures forall m | m in SavedMonsters(cs) :: IsByte(m.x) && IsByte(m.y) && IsByte(m.speed) && IsByte(m.hp) && IsByte(m.btype)
  {
    if cs != [] {
      var p, c := cs[..|cs| - 1], cs[|cs| - 1];
      assert forall i :: 0 <= i < |p| ==> p[i] == cs[i];
      SavedMonstersBytes(p);
      assert SavedMonsters(cs) ==
        SavedMonsters(p) + (if c.kind == NPCKind && c.alive then [Monster(c.x, c.y, c.speed, c.hp, c.btype)] else []);
    }
  }

  /** What save_dungeon reads of the level. */
  function SaveOf(d: Dungeon): SaveFile
    reads d, d.hardness
  {
    SaveFile(d.pcX, d.pcY, d.hardness[..], d.rooms,
             if d.upCount > 0 then Some((d.upX, d.upY)) else None,
             if d.downCount > 0 then Some((d.downX, d.downY)) else None,
             SavedMonsters(d.characters))
  }

  /** The fields of a generated level fit their bytes in a save file. */
  lemma GeneratedLevelFits(grid: seq<char>, hard: seq<int>, rooms: seq<Room>, ux: int, uy: int, dx: int, dy: int,
                           pcX: int, pcY: int, ms: seq<Monster>)
    requires |grid| == CELLS && |hard| == CELLS && GeneratedLevel(grid, hard, rooms, ux, uy, dx, dy)
    requires InBounds(pcX, pcY) && ByteMonsters(ms)
    ensures Fits(SaveFile(pcX, pcY, hard, rooms, Some((ux, uy)), Some((dx, dy)), ms))
  {
    forall i | 0 <= i < CELLS ensures IsByte(hard[i]) {
      IdxXY(i);
    }
    forall i | 0 <= i < |rooms| ensures ByteRoom(rooms[i]) {
      assert RoomShape(rooms[i]);
    }
  }

  /** A level newLevel made saves to a file every field of which fits its
      bytes, and loading those fields derives the base map it drew. */
  lemma NewLevelSaves(d: Dungeon)
    requires d.Valid() && GeneratedLevel(d.baseMap[..], d.hardness[..], d.rooms, d.upX, d.upY, d.downX, d.downY)
    requires d.upCount == 1 && d.downCount == 1 && InBounds(d.pcX, d.pcY)
    requires FreshRoster(d.characters, d.baseMap[..], d.pcX, d.pcY) && |d.characters| < 0x1_0000
    ensures Fits(SaveOf(d))
    ensures var f := SaveOf(d);
      forall x, y | InBounds(x, y) :: LoadedCell(f.hardness, f.rooms, f.up, f.down, x, y) == d.baseMap[Idx(x, y)]
  {
    var grid, hard, cs := d.baseMap[..], d.hardness[..], d.characters;
    var f := SaveOf(d);
    assert f == SaveFile(d.pcX, d.pcY, hard, d.rooms, Some((d.upX, d.upY)), Some((d.downX, d.downY)), SavedMonsters(cs));
    SavedMonstersBytes(cs);
    NumAliveMonstersBound(cs);
    GeneratedLevelFits(grid, hard, d.rooms, d.upX, d.upY, d.downX, d.downY, d.pcX, d.pcY, SavedMonsters(cs));
    forall x, y | InBounds(x, y) ensures LoadedCell(f.hardness, f.rooms, f.up, f.down, x, y) == grid[Idx(x, y)] {
      GeneratedCellLoads(grid, hard, d.rooms, d.upX, d.upY, d.downX, d.downY, x, y);
    }
  }

  /** load_dungeon (C++) from the bytes of a file: on an error nothing
      changes; otherwise the PC position, hardness, rooms and stairs are the
      file's, the base map is derived from them and the roster is the
      file's monsters (the PC is added afterwards). A stair absent from the
      file keeps its old coordinates. */
  method LoadDungeon(d: Dungeon, b: seq<byte>) returns (r: Result<SaveFile>)
    requires d.Valid()
    modifies d, d.hardness, d.baseMap
    ensures r == Decode(b)
    ensures r.Err? ==> unchanged(d) && unchanged(d.hardness, d.baseMap)
    ensures r.Ok? ==>
      d.Valid() && d.pcX == r.value.pcX && d.pcY == r.value.pcY && d.hardness[..] == r.value.hardness &&
      d.rooms == r.value.rooms && d.upCount == StairCount(r.value.up) && d.downCount == StairCount(r.value.down) &&
      (if r.value.up.Some? then (d.upX, d.upY) == r.value.up.value else d.upX == old(d.upX) && d.upY == old(d.upY)) &&
      (if r.value.down.Some? then (d.downX, d.downY) == r.value.down.value else d.downX == old(d.downX) && d.downY == old(d.downY)) &&
      (forall x, y | InBounds(x, y) :: d.baseMap[Idx(x, y)] == LoadedCell(d.hardness[..], d.rooms, r.value.up, r.value.down, x, y)) &&
      d.characters == LoadedNpcs(r.value.monsters) && SaveOf(d) == r.value &&
      d.pcIsAlive == old(d.pcIsAlive) && d.changedFloor == old(d.changedFloor)
  {
    r := Decode(b);
    if r.Err? {
      return;
    }
    var f := r.value;
    LoadFields(d, f);
    DeriveMap(d.baseMap, d.hardness, d.rooms, f.up, f.down);
    var cs := CreateNpcs(f.monsters);
    d.characters := cs;
    SavedLoadedNpcs(f.monsters);
  }

  /** The load's monster loop: one NPC per record, in file order. */
  method CreateNpcs(ms: seq<Monster>) returns (cs: seq<Character>)
    requires ByteMonsters(ms)
    ensures cs == LoadedNpcs(ms)
  {
    cs := [];
    for i := 0 to |ms|
      invariant cs == LoadedNpcs(ms[..i])
    {
      cs := cs + [NewNpc(ms[i].btype, ms[i].x, ms[i].y, ms[i].speed, ms[i].hp)];
    }
    assert ms[..|ms|] == ms;
  }

  /** The fields both loaders set from a decoded file. */
  method LoadFields(d: Dungeon, f: SaveFile)
    requires d.Valid() && |f.hardness| == CELLS && |f.rooms| <= MAX_ROOMS
    modifies d, d.hardness
    ensures d.Valid() && d.pcX == f.pcX && d.pcY == f.pcY && d.hardness[..] == f.hardness && d.rooms == f.rooms
    ensures d.upCount == StairCount(f.up) && d.downCount == StairCount(f.down)
    ensures if f.up.Some? then (d.upX, d.upY) == f.up.value else d.upX == old(d.upX) && d.upY == old(d.upY)
    ensures if f.down.Some? then (d.downX, d.downY) == f.down.value else d.downX == old(d.downX) && d.downY == old(d.downY)
    ensures d.characters == old(d.characters) && d.pcIsAlive == old(d.pcIsAlive) && d.changedFloor == old(d.changedFloor)
  {
    d.pcX, d.pcY := f.pcX, f.pcY;
    CopyHardness(d.hardness, f.hardness);
    d.rooms := f.rooms;
    d.upCount, d.downCount := StairCount(f.up), StairCount(f.down);
    if f.up.Some? {
      d.upX, d.upY := f.up.value.0, f.up.value.1;
    }
    if f.down.Some? {
      d.downX, d.downY := f.down.value.0, f.down.value.1;
    }
  }

  /** The hardness read cell by cell into the level's array. */
  method CopyHardness(dst: array<int>, src: seq<int>)
    requires dst.Length == |src|
    modifies dst
    ensures dst[..] == src
  {
    for i := 0 to |src|
      invariant forall j :: 0 <= j < i ==> dst[j] == src[j]
    {
      dst[i] := src[i];
    }
  }

  /** load_dungeon (C): the same fields, the map derived into the display
      grid (the base map is copied from it afterwards), the roster left
      alone; on an error the source exits, and nothing changes here. */
  method LoadDungeonC(d: Dungeon, b: seq<byte>) returns (r: Result<SaveFile>)
    requires d.Valid()
    modifies d, d.hardness, d.display
    ensures r == DecodeC(b)
    ensures r.Err? ==> unchanged(d) && unchanged(d.hardness, d.display)
    ensures r.Ok? ==>
      d.Valid() && d.pcX == r.value.pcX && d.pcY == r.value.pcY && d.hardness[..] == r.value.hardness &&
      d.rooms == r.value.rooms && d.upCount == StairCount(r.value.up) && d.downCount == StairCount(r.value.down) &&
      (if r.value.up.Some? then (d.upX, d.upY) == r.value.up.value else d.upX == old(d.upX) && d.upY == old(d.upY)) &&
      (if r.value.down.Some? then (d.downX, d.downY) == r.value.down.value else d.downX == old(d.downX) && d.downY == old(d.downY)) &&
      (forall x, y | InBounds(x, y) :: d.display[Idx(x, y)] == LoadedCell(d.hardness[..], d.rooms, r.value.up, r.value.down, x, y)) &&
      d.characters == old(d.characters) && d.pcIsAlive == old(d.pcIsAlive) && d.changedFloor == old(d.changedFloor)
  {
    r := DecodeC(b);
    if r.Err? {
      return;
    }
    LoadFields(d, r.value);
    DeriveMap(d.display, d.hardness, d.rooms, r.value.up, r.value.down);
  }
}
