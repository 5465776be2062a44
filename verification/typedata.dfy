/** The type payload of a part: which block the kind carries at its "type
    data" offset, its writer, and its reader. The six passthrough kinds
    have an empty type payload; their bytes are handled by the record. */
module TypeDatas {
  import opened Ints
  import opened Results
  import opened Layout
  import opened PartTypes
  import P = Payloads
  import E = EnemyPayload
  import A = AssetPayload

  datatype TypeData =
    | MapPieceData(mapPiece: P.MapPieceBody)
    | EnemyData(enemy: E.EnemyBody)              // Enemy and DummyEnemy alike
    | PlayerData(player: P.PlayerBody)
    | CollisionData(collision: P.CollisionBody)
    | DummyAssetData(dummyAsset: P.DummyAssetBody)
    | ConnectCollisionData(connect: P.ConnectCollisionBody)
    | AssetData(asset: A.AssetBody)
    | RawData(bytes: seq<byte>)                  // the passthrough kinds

  /** The payload a part of `kind` carries, as its class fixes it. */
  predicate Carries(kind: PartType, d: TypeData)
  {
    match kind
    case MapPiece => d.MapPieceData?
    case Enemy | DummyEnemy => d.EnemyData?
    case Player => d.PlayerData?
    case Collision => d.CollisionData?
    case DummyAsset => d.DummyAssetData?
    case ConnectCollision => d.ConnectCollisionData?
    case Asset => d.AssetData?
    case _ => d.RawData?
  }

  /** Exactly the passthrough kinds carry a byte blob. */
  lemma CarriesRawIff(kind: PartType, d: TypeData)
    requires Carries(kind, d)
    ensures IsRaw(kind) <==> d.RawData?
  {
  }

  /** The type payload's bytes; a passthrough kind writes none here. */
  function WriteTypeData(d: TypeData): seq<byte>
  {
    match d
    case MapPieceData(b) => P.WriteMapPieceBody(b)
    case EnemyData(e) => E.WriteEnemyBody(e)
    case PlayerData(b) => P.WritePlayerBody(b)
    case CollisionData(b) => P.WriteCollisionBody(b)
    case DummyAssetData(b) => P.WriteDummyAssetBody(b)
    case ConnectCollisionData(b) => P.WriteConnectCollisionBody(b)
    case AssetData(a) => A.WriteAssetBody(a)
    case RawData(_) => []
  }

  /** Reads the type payload of a `kind` part found at `pos`. The enemy and
      asset payloads hold offsets from `pos` to nested structs, so they are
      read from the whole data; the asset reader also takes the format
      version it gates on. A passthrough kind reads nothing here. */
  function ReadTypeData(data: seq<byte>, pos: nat, kind: PartType, version: int32): Result<TypeData>
  {
    match kind
    case MapPiece => ReadMapPieceData(data, pos)
    case Enemy | DummyEnemy => ReadEnemyData(data, pos)
    case Player => ReadPlayerData(data, pos)
    case Collision => ReadCollisionData(data, pos)
    case DummyAsset => ReadDummyAssetData(data, pos)
    case ConnectCollision => ReadConnectCollisionData(data, pos)
    case Asset => ReadAssetData(data, pos, version)
    case _ => Ok(RawData([]))
  }

  /** The version an asset payload is written for must be the one it is
      read with; other payloads do not depend on it. */
  predicate ReadableWith(d: TypeData, version: int32)
  {
    d.AssetData? ==> d.asset.version == version
  }

  /** An asset payload can also be read with any version below the one
      that adds the zero words: the reader then does not look for them and
      follows the stored offsets past them. */
  predicate RereadableWith(d: TypeData, version: int32)
  {
    d.AssetData? ==> d.asset.version == version || version < A.GapVersion
  }

  /** The payload a reader of format `version` rebuilds from the bytes of
      `d`: an asset payload records the version it was read with. */
  function Reread(d: TypeData, version: int32): (r: TypeData)
    ensures ReadableWith(d, version) ==> r == d
    ensures r.AssetData? <==> d.AssetData?
    ensures r.AssetData? ==> r.asset.version == version
  {
    match d
    case AssetData(a) => AssetData(a.(version := version))
    case _ => d
  }

  /** A payload the writer emits at `pos` reads back, whatever follows it,
      when read as its own kind: exactly as written when read with the
      version it was written for. */
  lemma ReadWriteTypeData(data: seq<byte>, pos: nat, kind: PartType, d: TypeData, rest: seq<byte>, version: int32)
    requires Carries(kind, d) && !d.RawData? && RereadableWith(d, version)
    requires pos <= |data| && data[pos..] == WriteTypeData(d) + rest
    ensures ReadTypeData(data, pos, kind, version) == Ok(Reread(d, version))
  {
    match d
    case MapPieceData(b) =>
      assert kind == MapPiece;
      MapPieceBack(data, pos, b, rest);
    case EnemyData(e) =>
      assert kind == Enemy || kind == DummyEnemy;
      EnemyBack(data, pos, e, rest);
    case PlayerData(b) =>
      assert kind == Player;
      PlayerBack(data, pos, b, rest);
    case CollisionData(b) =>
      assert kind == Collision;
      CollisionBack(data, pos, b, rest);
    case DummyAssetData(b) =>
      assert kind == DummyAsset;
      DummyAssetBack(data, pos, b, rest);
    case ConnectCollisionData(b) =>
      assert kind == ConnectCollision;
      ConnectCollisionBack(data, pos, b, rest);
    case AssetData(a) =>
      assert kind == Asset;
      AssetBack(data, pos, a, rest, version);
  }

  // One reader per payload, each wrapping the payload's own reader, and
  // its read-back lemma.

  function ReadMapPieceData(data: seq<byte>, pos: nat): Result<TypeData>
  {
    var (b, _) :- P.ReadMapPieceBody(Suffix(data, pos));
    Ok(MapPieceData(b))
  }

  lemma MapPieceBack(data: seq<byte>, pos: nat, b: P.MapPieceBody, rest: seq<byte>)
    requires pos <= |data| && data[pos..] == P.WriteMapPieceBody(b) + rest
    ensures ReadMapPieceData(data, pos) == Ok(MapPieceData(b))
  {
    SuffixIs(data, pos);
    P.ReadWriteMapPieceBody(b, rest);
  }

  function ReadEnemyData(data: seq<byte>, pos: nat): Result<TypeData>
  {
    var e :- E.ReadEnemyBody(data, pos);
    Ok(EnemyData(e))
  }

  lemma EnemyBack(data: seq<byte>, pos: nat, e: E.EnemyBody, rest: seq<byte>)
    requires pos <= |data| && data[pos..] == E.WriteEnemyBody(e) + rest
    ensures ReadEnemyData(data, pos) == Ok(EnemyData(e))
  {
    E.ReadWriteEnemyBody(data, pos, e, rest);
  }

  function ReadPlayerData(data: seq<byte>, pos: nat): Result<TypeData>
  {
    var (b, _) :- P.ReadPlayerBody(Suffix(data, pos));
    Ok(PlayerData(b))
  }

  lemma PlayerBack(data: seq<byte>, pos: nat, b: P.PlayerBody, rest: seq<byte>)
    requires pos <= |data| && data[pos..] == P.WritePlayerBody(b) + rest
    ensures ReadPlayerData(data, pos) == Ok(PlayerData(b))
  {
    SuffixIs(data, pos);
    P.ReadWritePlayerBody(b, rest);
  }

  function ReadCollisionData(data: seq<byte>, pos: nat): Result<TypeData>
  {
    var (b, _) :- P.ReadCollisionBody(Suffix(data, pos));
    Ok(CollisionData(b))
  }

  lemma CollisionBack(data: seq<byte>, pos: nat, b: P.CollisionBody, rest: seq<byte>)
    requires pos <= |data| && data[pos..] == P.WriteCollisionBody(b) + rest
    ensures ReadCollisionData(data, pos) == Ok(CollisionData(b))
  {
    SuffixIs(data, pos);
    P.ReadWriteCollisionBody(b, rest);
  }

  function ReadDummyAssetData(data: seq<byte>, pos: nat): Result<TypeData>
  {
    var (b, _) :- P.ReadDummyAssetBody(Suffix(data, pos));
    Ok(DummyAssetData(b))
  }

  lemma DummyAssetBack(data: seq<byte>, pos: nat, b: P.DummyAssetBody, rest: seq<byte>)
    requires pos <= |data| && data[pos..] == P.WriteDummyAssetBody(b) + rest
    ensures ReadDummyAssetData(data, pos) == Ok(DummyAssetData(b))
  {
    SuffixIs(data, pos);
    P.ReadWriteDummyAssetBody(b, rest);
  }

  function ReadConnectCollisionData(data: seq<byte>, pos: nat): Result<TypeData>
  {
    var (b, _) :- P.ReadConnectCollisionBody(Suffix(data, pos));
    Ok(ConnectCollisionData(b))
  }

  lemma ConnectCollisionBack(data: seq<byte>, pos: nat, b: P.ConnectCollisionBody, rest: seq<byte>)
    requires pos <= |data| && data[pos..] == P.WriteConnectCollisionBody(b) + rest
    ensures ReadConnectCollisionData(data, pos) == Ok(ConnectCollisionData(b))
  {
    SuffixIs(data, pos);
    P.ReadWriteConnectCollisionBody(b, rest);
  }

  function ReadAssetData(data: seq<byte>, pos: nat, version: int32): Result<TypeData>
  {
    var a :- A.ReadAssetBody(data, pos, version);
    Ok(AssetData(a))
  }

  lemma AssetBack(data: seq<byte>, pos: nat, a: A.AssetBody, rest: seq<byte>, version: int32)
    requires pos <= |data| && data[pos..] == A.WriteAssetBody(a) + rest
    requires version == a.version || version < A.GapVersion
    ensures ReadAssetData(data, pos, version) == Ok(AssetData(a.(version := version)))
  {
    SuffixIs(data, pos);
    A.ReadAssetBodyWithVersion(data, pos, a, rest, version);
  }

  /** No type payload is longer than 0x1000 bytes. */
  lemma TypeDataSize(d: TypeData)
    ensures |WriteTypeData(d)| <= 0x1000
  {
    match d
    case MapPieceData(b) => EncodeAtMost(P.MapPieceLayout, Constants(P.MapPieceLayout));
    case EnemyData(e) => E.EnemyBodySize(e);
    case PlayerData(b) => EncodeAtMost(P.PlayerLayout, Constants(P.PlayerLayout));
    case CollisionData(b) => EncodeAtMost(P.CollisionLayout, P.CollisionFields(b));
    case DummyAssetData(b) => EncodeAtMost(P.DummyAssetLayout, Constants(P.DummyAssetLayout));
    case ConnectCollisionData(b) => EncodeAtMost(P.ConnectCollisionLayout, P.ConnectCollisionFields(b));
    case AssetData(a) => A.AssetBodySize(a);
    case RawData(_) =>
  }
}
