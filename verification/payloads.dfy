/** The type payloads of map pieces, players, collisions, dummy assets and
    connect collisions: each a single fixed block found at the record's
    "type data" offset. Three of them carry no data at all and only assert
    their constant contents. */
module Payloads {
  import opened Ints
  import opened Results
  import opened Layout

  // ---------------------------------------------------------------------
  // Map piece: two zero words.

  datatype MapPieceBody = MapPieceBody

  const MapPieceLayout: ConstantLayout := [Zero32, Zero32]

  function WriteMapPieceBody(b: MapPieceBody): seq<byte>
  {
    Encode(MapPieceLayout, Constants(MapPieceLayout))
  }

  function ReadMapPieceBody(bytes: seq<byte>): (r: Result<(MapPieceBody, seq<byte>)>)
    ensures r.Ok? ==> bytes == WriteMapPieceBody(r.value.0) + r.value.1
  {
    var (vs, rest) :- Decode(MapPieceLayout, bytes);
    DecodeSound(MapPieceLayout, bytes);
    ConformsConstant(MapPieceLayout, vs);
    Ok((MapPieceBody, rest))
  }

  lemma ReadWriteMapPieceBody(b: MapPieceBody, rest: seq<byte>)
    ensures ReadMapPieceBody(WriteMapPieceBody(b) + rest) == Ok((b, rest))
  {
    DecodeEncode(MapPieceLayout, Constants(MapPieceLayout), rest);
  }

  // ---------------------------------------------------------------------
  // Player: four zero words.

  datatype PlayerBody = PlayerBody

  const PlayerLayout: ConstantLayout := Repeat(Zero32, 4)

  function WritePlayerBody(b: PlayerBody): seq<byte>
  {
    Encode(PlayerLayout, Constants(PlayerLayout))
  }

  function ReadPlayerBody(bytes: seq<byte>): (r: Result<(PlayerBody, seq<byte>)>)
    ensures r.Ok? ==> bytes == WritePlayerBody(r.value.0) + r.value.1
  {
    var (vs, rest) :- Decode(PlayerLayout, bytes);
    DecodeSound(PlayerLayout, bytes);
    ConformsConstant(PlayerLayout, vs);
    Ok((PlayerBody, rest))
  }

  lemma ReadWritePlayerBody(b: PlayerBody, rest: seq<byte>)
    ensures ReadPlayerBody(WritePlayerBody(b) + rest) == Ok((b, rest))
  {
    DecodeEncode(PlayerLayout, Constants(PlayerLayout), rest);
  }

  // ---------------------------------------------------------------------
  // Dummy asset: eight constant words.

  datatype DummyAssetBody = DummyAssetBody

  const DummyAssetLayout: ConstantLayout :=
    [Zero32, Zero32, MinusOne32, Zero32, MinusOne32, MinusOne32, MinusOne32, MinusOne32]

  function WriteDummyAssetBody(b: DummyAssetBody): seq<byte>
  {
    Encode(DummyAssetLayout, Constants(DummyAssetLayout))
  }

  function ReadDummyAssetBody(bytes: seq<byte>): (r: Result<(DummyAssetBody, seq<byte>)>)
    ensures r.Ok? ==> bytes == WriteDummyAssetBody(r.value.0) + r.value.1
  {
    var (vs, rest) :- Decode(DummyAssetLayout, bytes);
    DecodeSound(DummyAssetLayout, bytes);
    ConformsConstant(DummyAssetLayout, vs);
    Ok((DummyAssetBody, rest))
  }

  lemma ReadWriteDummyAssetBody(b: DummyAssetBody, rest: seq<byte>)
    ensures ReadDummyAssetBody(WriteDummyAssetBody(b) + rest) == Ok((b, rest))
  {
    DecodeEncode(DummyAssetLayout, Constants(DummyAssetLayout), rest);
  }

  // ---------------------------------------------------------------------
  // Collision.

  /** The defined members of the hit-filter enumeration; the reader
      refuses any other byte. */
  const HitFilterCodes: set<int> := {0, 8, 9, 11, 13, 15, 16, 17, 19, 20, 22, 23, 24, 28, 29, 30, 31, 255}

  type HitFilter = x: int | x in HitFilterCodes && 0 <= x < 0x100 witness 0

  datatype CollisionBody = CollisionBody(
    hitFilter: HitFilter,
    unk01: byte,
    unk02: byte,
    unk03: byte,
    unk04: FloatBits,
    unk26: int16,
    unk36: int16)

  const CollisionLayout: seq<Cell> :=
    [Code8(HitFilterCodes), U8, U8, U8, F32]
    + Repeat(Zero32, 7)
    + [MinusOne16, I16, Zero32, MinusOne32, Zero32, MinusOne8, Zero8, I16, Zero32, MinusOne32]
    + Repeat(Zero32, 6)

  function CollisionFields(b: CollisionBody): (vs: seq<int>)
    ensures Conforms(CollisionLayout, vs)
  {
    [b.hitFilter as int, b.unk01 as int, b.unk02 as int, b.unk03 as int, b.unk04 as int]
    + Repeat(0, 7)
    + [-1, b.unk26 as int, 0, -1, 0, -1, 0, b.unk36 as int, 0, -1]
    + Repeat(0, 6)
  }

  function BuildCollision(vs: seq<int>): (b: CollisionBody)
    requires Conforms(CollisionLayout, vs)
    ensures CollisionFields(b) == vs
  {
    assert Fits(CollisionLayout[0], vs[0]);
    CollisionBody(vs[0], vs[1], vs[2], vs[3], vs[4], vs[13], vs[19])
  }

  lemma BuildCollisionFields(b: CollisionBody)
    ensures BuildCollision(CollisionFields(b)) == b
  {
  }

  function WriteCollisionBody(b: CollisionBody): seq<byte>
  {
    Encode(CollisionLayout, CollisionFields(b))
  }

  /** Fails on a hit-filter byte that names no member of the enumeration. */
  function ReadCollisionBody(bytes: seq<byte>): (r: Result<(CollisionBody, seq<byte>)>)
    ensures r.Ok? ==> bytes == WriteCollisionBody(r.value.0) + r.value.1
  {
    var (vs, rest) :- Decode(CollisionLayout, bytes);
    DecodeSound(CollisionLayout, bytes);
    Ok((BuildCollision(vs), rest))
  }

  lemma ReadWriteCollisionBody(b: CollisionBody, rest: seq<byte>)
    ensures ReadCollisionBody(WriteCollisionBody(b) + rest) == Ok((b, rest))
  {
    DecodeEncode(CollisionLayout, CollisionFields(b), rest);
    BuildCollisionFields(b);
  }

  /** A leading byte outside the enumeration is refused, whatever follows. */
  lemma CollisionRefusesUndefinedFilter(bytes: seq<byte>)
    requires |bytes| > 0 && bytes[0] !in HitFilterCodes
    ensures ReadCollisionBody(bytes) == Fail(UndefinedEnumValue)
  {
    var c := CollisionLayout[0];
    FromToLE(bytes[0], 1);
    assert bytes[..1] == [bytes[0]] == ToLE(bytes[0], 1);
  }

  // ---------------------------------------------------------------------
  // Connect collision: a collision index and a four-byte map id.

  type MapId = s: seq<sbyte> | |s| == 4 witness [0, 0, 0, 0]

  datatype ConnectCollisionBody = ConnectCollisionBody(collisionIndex: int32, mapId: MapId)

  const ConnectCollisionLayout: seq<Cell> := [I32, S8, S8, S8, S8, Zero32, Zero32]

  function ConnectCollisionFields(b: ConnectCollisionBody): (vs: seq<int>)
    ensures Conforms(ConnectCollisionLayout, vs)
  {
    [b.collisionIndex as int] + b.mapId + [0, 0]
  }

  function BuildConnectCollision(vs: seq<int>): (b: ConnectCollisionBody)
    requires Conforms(ConnectCollisionLayout, vs)
    ensures ConnectCollisionFields(b) == vs
  {
    ConnectCollisionBody(vs[0], vs[1..5])
  }

  lemma BuildConnectCollisionFields(b: ConnectCollisionBody)
    ensures BuildConnectCollision(ConnectCollisionFields(b)) == b
  {
  }

  function WriteConnectCollisionBody(b: ConnectCollisionBody): seq<byte>
  {
    Encode(ConnectCollisionLayout, ConnectCollisionFields(b))
  }

  function ReadConnectCollisionBody(bytes: seq<byte>): (r: Result<(ConnectCollisionBody, seq<byte>)>)
    ensures r.Ok? ==> bytes == WriteConnectCollisionBody(r.value.0) + r.value.1
  {
    var (vs, rest) :- Decode(ConnectCollisionLayout, bytes);
    DecodeSound(ConnectCollisionLayout, bytes);
    Ok((BuildConnectCollision(vs), rest))
  }

  lemma ReadWriteConnectCollisionBody(b: ConnectCollisionBody, rest: seq<byte>)
    ensures ReadConnectCollisionBody(WriteConnectCollisionBody(b) + rest) == Ok((b, rest))
  {
    DecodeEncode(ConnectCollisionLayout, ConnectCollisionFields(b), rest);
    BuildConnectCollisionFields(b);
  }
}
