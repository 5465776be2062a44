/** The type payload shared by enemies and dummy enemies: a fixed block
    ending in two offsets, measured from the start of the payload, to two
    nested structs. The first nested struct is optional (a zero offset
    means absent); the second is always written and always read. */
module EnemyPayload {
  import opened Ints
  import opened Results
  import opened Layout

  // ---------------------------------------------------------------------
  // EnemyUnkStruct70

  datatype EnemyUnkStruct70 = EnemyUnkStruct70(unk00: int16, unk02: int16, unk04: int16, unk06: int16, unk08: int16)

  const LayoutE70: seq<Cell> := [I16, I16, I16, I16, I16, Zero16, Zero32]

  function FieldsE70(s: EnemyUnkStruct70): (vs: seq<int>)
    ensures Conforms(LayoutE70, vs)
  {
    [s.unk00 as int, s.unk02 as int, s.unk04 as int, s.unk06 as int, s.unk08 as int, 0, 0]
  }

  function BuildE70(vs: seq<int>): (s: EnemyUnkStruct70)
    requires Conforms(LayoutE70, vs)
    ensures FieldsE70(s) == vs
  {
    EnemyUnkStruct70(vs[0], vs[1], vs[2], vs[3], vs[4])
  }

  lemma BuildFieldsE70(s: EnemyUnkStruct70)
    ensures BuildE70(FieldsE70(s)) == s
  {
  }

  function WriteE70(s: EnemyUnkStruct70): seq<byte>
  {
    Encode(LayoutE70, FieldsE70(s))
  }

  function ReadE70(bytes: seq<byte>): (r: Result<(EnemyUnkStruct70, seq<byte>)>)
    ensures r.Ok? ==> bytes == WriteE70(r.value.0) + r.value.1
  {
    var (vs, rest) :- Decode(LayoutE70, bytes);
    DecodeSound(LayoutE70, bytes);
    Ok((BuildE70(vs), rest))
  }

  lemma ReadWriteE70(s: EnemyUnkStruct70, rest: seq<byte>)
    ensures ReadE70(WriteE70(s) + rest) == Ok((s, rest))
  {
    DecodeEncode(LayoutE70, FieldsE70(s), rest);
    BuildFieldsE70(s);
  }

  // ---------------------------------------------------------------------
  // EnemyUnkStruct78: no data; 1.0f, then five (-1, -1, 10) triples.

  datatype EnemyUnkStruct78 = EnemyUnkStruct78

  const LayoutE78: ConstantLayout :=
    [Zero32, Fixed(W32, false, ONE_F32),
     MinusOne32, MinusOne16, Fixed(W16, true, 10),
     MinusOne32, MinusOne16, Fixed(W16, true, 10),
     MinusOne32, MinusOne16, Fixed(W16, true, 10),
     MinusOne32, MinusOne16, Fixed(W16, true, 10),
     MinusOne32, MinusOne16, Fixed(W16, true, 10),
     Zero32, Zero32, Zero32, Zero32]


  function WriteE78(s: EnemyUnkStruct78): seq<byte>
  {
    Encode(LayoutE78, Constants(LayoutE78))
  }

  function ReadE78(bytes: seq<byte>): (r: Result<(EnemyUnkStruct78, seq<byte>)>)
    ensures r.Ok? ==> bytes == WriteE78(r.value.0) + r.value.1
  {
    var (vs, rest) :- Decode(LayoutE78, bytes);
    DecodeSound(LayoutE78, bytes);
    ConformsConstant(LayoutE78, vs);
    Ok((EnemyUnkStruct78, rest))
  }

  lemma ReadWriteE78(s: EnemyUnkStruct78, rest: seq<byte>)
    ensures ReadE78(WriteE78(s) + rest) == Ok((s, rest))
  {
    DecodeEncode(LayoutE78, Constants(LayoutE78), rest);
  }

  // ---------------------------------------------------------------------
  // The enemy payload.

  datatype EnemyBody = EnemyBody(
    unk00: int32,
    npcParamId: int32,
    thinkParamId: int32,
    talkId: int32,
    unk16: int16,
    charaInitId: int32,
    collisionPartIndex: int32,
    walkRouteIndex: int16,
    unk22: int16,
    unk38: int32,
    unk3C: int32,
    unk40: int32,
    unk44: int32,
    unk48: int32,
    unk50: int32,
    unk54: byte,
    unk55: byte,
    unk56: sbyte,
    unk58: int32,
    enemy70: Option<EnemyUnkStruct70>,
    enemy78: EnemyUnkStruct78)

  // The fixed block, read as four runs: three runs of fields, then the
  // two nested-struct offsets.

  const EnemyRuns: seq<seq<Cell>> :=
    [[I32, Zero32, I32, I32, I32, Zero16, I16, I32, I32, I16, I16, MinusOne32],
     Repeat(Zero32, 4) + [I32, I32, I32, I32, I32, Zero32, I32],
     [U8, U8, S8, Zero8, I32] + Repeat(Zero32, 5),
     [I64, I64]]

  /** The fixed block's contents for a body and the two offsets. */
  function EnemyFields(e: EnemyBody, off70: int64, off78: int64): (vss: seq<seq<int>>)
    ensures ConformsRuns(EnemyRuns, vss)
  {
    var vss :=
      [[e.unk00 as int, 0, e.npcParamId as int, e.thinkParamId as int, e.talkId as int, 0, e.unk16 as int,
        e.charaInitId as int, e.collisionPartIndex as int, e.walkRouteIndex as int, e.unk22 as int, -1],
       Repeat(0, 4) + [e.unk38 as int, e.unk3C as int, e.unk40 as int, e.unk44 as int, e.unk48 as int, 0, e.unk50 as int],
       [e.unk54 as int, e.unk55 as int, e.unk56 as int, 0, e.unk58 as int] + Repeat(0, 5),
       [off70 as int, off78 as int]];
    assert Conforms(EnemyRuns[0], vss[0]) && Conforms(EnemyRuns[1], vss[1]);
    assert Conforms(EnemyRuns[2], vss[2]) && Conforms(EnemyRuns[3], vss[3]);
    vss
  }

  function BuildEnemy(vss: seq<seq<int>>, e70: Option<EnemyUnkStruct70>, e78: EnemyUnkStruct78): (e: EnemyBody)
    requires ConformsRuns(EnemyRuns, vss)
    ensures EnemyFields(e, vss[3][0], vss[3][1]) == vss
    ensures e.enemy70 == e70 && e.enemy78 == e78
  {
    var a, b, c, d := vss[0], vss[1], vss[2], vss[3];
    assert Conforms(EnemyRuns[0], a) && Conforms(EnemyRuns[1], b);
    assert Conforms(EnemyRuns[2], c) && Conforms(EnemyRuns[3], d);
    assert vss == [a, b, c, d];
    assert a == [a[0], 0, a[2], a[3], a[4], 0, a[6], a[7], a[8], a[9], a[10], -1];
    assert b == Repeat(0, 4) + [b[4], b[5], b[6], b[7], b[8], 0, b[10]];
    assert c == [c[0], c[1], c[2], 0, c[4]] + Repeat(0, 5);
    assert d == [d[0], d[1]];
    EnemyBody(a[0], a[2], a[3], a[4], a[6], a[7], a[8], a[9], a[10],
              b[4], b[5], b[6], b[7], b[8], b[10], c[0], c[1], c[2], c[4],
              e70, e78)
  }

  lemma BuildEnemyFields(e: EnemyBody, off70: int64, off78: int64)
    ensures BuildEnemy(EnemyFields(e, off70, off78), e.enemy70, e.enemy78) == e
  {
  }

  /** Bytes from the payload start to the first nested struct. */
  function EnemyFixedSize(): (n: nat)
    ensures 12 <= n <= 384
  {
    RunsSizeBounds(EnemyRuns, 12);
    RunsSize(EnemyRuns)
  }

  /** Offsets of the two nested structs, from the payload start, as the
      writer lays them out: the optional one right after the fixed block,
      or 0 when it is null; the other after it. */
  function EnemyOffsets(e: EnemyBody): (r: (int64, int64))
    ensures r.0 == 0 <==> e.enemy70.None?
  {
    var n := EnemyFixedSize();
    if e.enemy70.Some? then
      EncodeLength(LayoutE70, FieldsE70(e.enemy70.value));
      SizeBounds(LayoutE70);
      (n, n + |WriteE70(e.enemy70.value)|)
    else
      (0, n)
  }

  /** The writer's pieces, in order: the fixed block, the optional nested
      struct (empty when null), the other nested struct. */
  function EnemyPieces(e: EnemyBody): (ps: seq<seq<byte>>)
    ensures |ps| == 3
  {
    [WriteEnemyFixed(e),
     if e.enemy70.Some? then WriteE70(e.enemy70.value) else [],
     WriteE78(e.enemy78)]
  }

  /** The fixed block, carrying the offsets the writer fills in. */
  function WriteEnemyFixed(e: EnemyBody): (r: seq<byte>)
    ensures |r| == EnemyFixedSize()
  {
    var (off70, off78) := EnemyOffsets(e);
    EncodeRunsLength(EnemyRuns, EnemyFields(e, off70, off78));
    EncodeRuns(EnemyRuns, EnemyFields(e, off70, off78))
  }

  function WriteEnemyBody(e: EnemyBody): seq<byte>
  {
    Concat(EnemyPieces(e))
  }

  /** The nested structs sit exactly at the offsets the writer stores,
      counted from the payload start. */
  lemma EnemyWriteLayout(e: EnemyBody)
    ensures var ps := EnemyPieces(e);
            var (off70, off78) := EnemyOffsets(e);
            && (e.enemy70.Some? ==> Start(ps, 1) == off70 as int)
            && Start(ps, 2) == off78 as int
  {
    var ps := EnemyPieces(e);
    StartNext(ps, 0);
    StartNext(ps, 1);
  }

  /** The fixed block at `pos`, as the reader finds it. */
  function ReadEnemyFixed(data: seq<byte>, pos: nat): (r: Result<seq<seq<int>>>)
    ensures r.Ok? ==> ConformsRuns(EnemyRuns, r.value)
  {
    var d :- DecodeRuns(EnemyRuns, Suffix(data, pos));
    Ok(d.0)
  }

  /** The optional nested struct, found by seeking to `pos` plus its
      stored offset. The cursor is moved even when the offset is zero, but
      the struct is read only when it is non-zero. */
  function ReadEnemy70At(data: seq<byte>, pos: nat, off70: int): (r: Result<Option<EnemyUnkStruct70>>)
    ensures r.Ok? ==> (r.value.None? <==> off70 == 0)
    ensures r.Ok? ==> pos + off70 >= 0
  {
    var at70 :- Seek(data, pos + off70);
    if off70 != 0 then
      var (s, _) :- ReadE70(at70);
      Ok(Some(s))
    else Ok(None)
  }

  /** The other nested struct, always read at `pos` plus its offset. */
  function ReadEnemy78At(data: seq<byte>, pos: nat, off78: int): (r: Result<EnemyUnkStruct78>)
    ensures r.Ok? ==> pos + off78 >= 0
  {
    var at78 :- Seek(data, pos + off78);
    var (e78, _) :- ReadE78(at78);
    Ok(e78)
  }

  /** Reads the payload starting at `pos`: the fixed block, then the nested
      structs at the offsets it stores. */
  function ReadEnemyBody(data: seq<byte>, pos: nat): (r: Result<EnemyBody>)
    ensures r.Ok? ==> ReadEnemyFixed(data, pos).Ok?
    ensures r.Ok? ==> (r.value.enemy70.None? <==> ReadEnemyFixed(data, pos).value[3][0] == 0)
  {
    var vss :- ReadEnemyFixed(data, pos);
    assert Conforms(EnemyRuns[3], vss[3]);
    var e70 :- ReadEnemy70At(data, pos, vss[3][0]);
    var e78 :- ReadEnemy78At(data, pos, vss[3][1]);
    Ok(BuildEnemy(vss, e70, e78))
  }

  lemma EnemyFixedReadBack(data: seq<byte>, pos: nat, e: EnemyBody, rest: seq<byte>)
    requires pos <= |data| && data[pos..] == WriteEnemyBody(e) + rest
    ensures ReadEnemyFixed(data, pos) == Ok(EnemyFields(e, EnemyOffsets(e).0, EnemyOffsets(e).1))
  {
    var ps := EnemyPieces(e);
    var fields := EnemyFields(e, EnemyOffsets(e).0, EnemyOffsets(e).1);
    assert ps[0] == WriteEnemyFixed(e) == EncodeRuns(EnemyRuns, fields);
    FirstPiece(data, pos, ps, rest);
    DecodeEncodeRuns(EnemyRuns, fields, Concat(ps[1..]) + rest);
  }

  /** A seek to the stored offset of the optional struct lands on its
      bytes when it is present. */
  lemma Enemy70SeekAt(data: seq<byte>, pos: nat, e: EnemyBody, rest: seq<byte>)
    requires pos <= |data| && data[pos..] == WriteEnemyBody(e) + rest
    requires e.enemy70.Some?
    ensures Seek(data, pos + EnemyOffsets(e).0)
            == Ok(WriteE70(e.enemy70.value) + (Concat(EnemyPieces(e)[2..]) + rest))
  {
    var ps := EnemyPieces(e);
    assert ps[1] == WriteE70(e.enemy70.value);
    EnemyWriteLayout(e);
    SeekPiece(data, pos, ps, rest, 1);
  }

  lemma ReadEnemy70AtOf(data: seq<byte>, pos: nat, off70: int, v: EnemyUnkStruct70, tail: seq<byte>)
    requires off70 != 0
    requires Seek(data, pos + off70) == Ok(WriteE70(v) + tail)
    ensures ReadEnemy70At(data, pos, off70) == Ok(Some(v))
  {
    ReadWriteE70(v, tail);
  }

  lemma Enemy70ReadBack(data: seq<byte>, pos: nat, e: EnemyBody, rest: seq<byte>)
    requires pos <= |data| && data[pos..] == WriteEnemyBody(e) + rest
    ensures ReadEnemy70At(data, pos, EnemyOffsets(e).0) == Ok(e.enemy70)
  {
    if e.enemy70.Some? {
      Enemy70SeekAt(data, pos, e, rest);
      ReadEnemy70AtOf(data, pos, EnemyOffsets(e).0, e.enemy70.value, Concat(EnemyPieces(e)[2..]) + rest);
    }
  }

  /** A seek to the stored offset of the other struct lands on its bytes. */
  lemma Enemy78SeekAt(data: seq<byte>, pos: nat, e: EnemyBody, rest: seq<byte>)
    requires pos <= |data| && data[pos..] == WriteEnemyBody(e) + rest
    ensures Seek(data, pos + EnemyOffsets(e).1) == Ok(WriteE78(e.enemy78) + (Concat(EnemyPieces(e)[3..]) + rest))
  {
    var ps := EnemyPieces(e);
    assert ps[2] == WriteE78(e.enemy78);
    EnemyWriteLayout(e);
    SeekPiece(data, pos, ps, rest, 2);
  }

  lemma ReadEnemy78AtOf(data: seq<byte>, pos: nat, off78: int, v: EnemyUnkStruct78, tail: seq<byte>)
    requires Seek(data, pos + off78) == Ok(WriteE78(v) + tail)
    ensures ReadEnemy78At(data, pos, off78) == Ok(v)
  {
    ReadWriteE78(v, tail);
  }

  lemma Enemy78ReadBack(data: seq<byte>, pos: nat, e: EnemyBody, rest: seq<byte>)
    requires pos <= |data| && data[pos..] == WriteEnemyBody(e) + rest
    ensures ReadEnemy78At(data, pos, EnemyOffsets(e).1) == Ok(e.enemy78)
  {
    Enemy78SeekAt(data, pos, e, rest);
    ReadEnemy78AtOf(data, pos, EnemyOffsets(e).1, e.enemy78, Concat(EnemyPieces(e)[3..]) + rest);
  }

  /** The payload the writer emits reads back as written, whatever follows
      it. */
  lemma ReadWriteEnemyBody(data: seq<byte>, pos: nat, e: EnemyBody, rest: seq<byte>)
    requires pos <= |data| && data[pos..] == WriteEnemyBody(e) + rest
    ensures ReadEnemyBody(data, pos) == Ok(e)
  {
    var (off70, off78) := EnemyOffsets(e);
    EnemyFixedReadBack(data, pos, e, rest);
    Enemy70ReadBack(data, pos, e, rest);
    Enemy78ReadBack(data, pos, e, rest);
    BuildEnemyFields(e, off70, off78);
  }

  /** The payload is at most 0x1000 bytes long. */
  lemma EnemyBodySize(e: EnemyBody)
    ensures |WriteEnemyBody(e)| <= 0x1000
  {
    var ps := EnemyPieces(e);
    if e.enemy70.Some? {
      EncodeAtMost(LayoutE70, FieldsE70(e.enemy70.value));
    }
    EncodeAtMost(LayoutE78, Constants(LayoutE78));
    ConcatAtMost(ps, 384);
  }
}
