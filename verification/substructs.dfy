/** The entity block and the nine auxiliary structs a part may carry
    (UnkStruct50 ... UnkStructA0). Each is a fixed-size block: a layout,
    the map from the struct's fields to the layout's values and back, and
    the reader and writer, which are inverse to each other. */
module SubStructs {
  import opened Ints
  import opened Results
  import opened Layout

  type U32x8 = s: seq<uint32> | |s| == 8 witness [0, 0, 0, 0, 0, 0, 0, 0]
  type U32x32 = s: seq<uint32> | |s| == 32 witness seq(32, _ => 0)

  // ---------------------------------------------------------------------
  // Entity block: always present, at the "entity data" offset.

  datatype EntityData = EntityData(
    entityId: uint32,
    unkE04: int32,
    unkE08: int32,
    unkE0C: byte,
    unkE0D: byte,
    unkE0E: byte,
    unkE0F: byte,
    unkE10: byte,
    unkE11: byte,
    unkE14: byte,
    unkE15: byte,
    unkE16: byte,
    unkE17: byte,
    unkE18: int32,
    entityGroupIds: U32x8,
    unkE3C: int16,
    unkE3F: byte)

  /** The entity block as constructed for a new part. */
  const DefaultEntity := EntityData(0, 0, 0, 0, 0, 0, 0, 0, 1, 0, 0, 0, 0, 0,
                                    [0, 0, 0, 0, 0, 0, 0, 0], -1, 0)

  /** The entity block, read as four runs of cells. */
  const EntityRuns: seq<seq<Cell>> :=
    [[U32, I32, I32, U8, U8, U8, U8, U8, U8],
     [Zero16, U8, U8, U8, U8, I32],
     Repeat(U32, 8),
     [I16, Zero8, U8]]

  function EntityFields(e: EntityData): (vss: seq<seq<int>>)
    ensures ConformsRuns(EntityRuns, vss)
  {
    [[e.entityId as int, e.unkE04 as int, e.unkE08 as int,
      e.unkE0C as int, e.unkE0D as int, e.unkE0E as int, e.unkE0F as int, e.unkE10 as int, e.unkE11 as int],
     [0, e.unkE14 as int, e.unkE15 as int, e.unkE16 as int, e.unkE17 as int, e.unkE18 as int],
     e.entityGroupIds,
     [e.unkE3C as int, 0, e.unkE3F as int]]
  }

  function BuildEntity(vss: seq<seq<int>>): (e: EntityData)
    requires ConformsRuns(EntityRuns, vss)
    ensures EntityFields(e) == vss
  {
    var a, b, c, d := vss[0], vss[1], vss[2], vss[3];
    assert Conforms(EntityRuns[0], a) && Conforms(EntityRuns[1], b);
    assert Conforms(EntityRuns[2], c) && Conforms(EntityRuns[3], d);
    assert vss == [a, b, c, d];
    assert a == [a[0], a[1], a[2], a[3], a[4], a[5], a[6], a[7], a[8]];
    assert b == [0, b[1], b[2], b[3], b[4], b[5]];
    assert d == [d[0], 0, d[2]];
    EntityData(a[0], a[1], a[2], a[3], a[4], a[5], a[6], a[7], a[8],
               b[1], b[2], b[3], b[4], b[5], c, d[0], d[2])
  }

  lemma BuildEntityFields(e: EntityData)
    ensures BuildEntity(EntityFields(e)) == e
  {
  }

  function WriteEntity(e: EntityData): seq<byte>
  {
    EncodeRuns(EntityRuns, EntityFields(e))
  }

  /** Accepts exactly the writer's output: whatever it returns, writing it
      back yields the bytes it consumed. */
  function ReadEntity(bytes: seq<byte>): (r: Result<(EntityData, seq<byte>)>)
    ensures r.Ok? ==> bytes == WriteEntity(r.value.0) + r.value.1
  {
    var (vss, rest) :- DecodeRuns(EntityRuns, bytes);
    DecodeRunsSound(EntityRuns, bytes);
    Ok((BuildEntity(vss), rest))
  }

  lemma ReadWriteEntity(e: EntityData, rest: seq<byte>)
    ensures ReadEntity(WriteEntity(e) + rest) == Ok((e, rest))
  {
    DecodeEncodeRuns(EntityRuns, EntityFields(e), rest);
    BuildEntityFields(e);
  }

  // ---------------------------------------------------------------------
  // UnkStruct50: display/draw groups and collision mask.

  datatype UnkStruct50 = UnkStruct50(displayGroups: U32x8, drawGroups: U32x8, collisionMask: U32x32, unkC0: byte)

  const Layout50: seq<Cell> :=
    Repeat(U32, 8) + Repeat(U32, 8) + Repeat(U32, 32)
    + [U8, Zero8, Zero8, Zero8, MinusOne16, Zero16]
    + Repeat(Zero32, 48)

  function Fields50(s: UnkStruct50): (vs: seq<int>)
    ensures Conforms(Layout50, vs)
  {
    s.displayGroups + s.drawGroups + s.collisionMask + [s.unkC0 as int, 0, 0, 0, -1, 0] + Repeat(0, 48)
  }

  function Build50(vs: seq<int>): (s: UnkStruct50)
    requires Conforms(Layout50, vs)
    ensures Fields50(s) == vs
  {
    UnkStruct50(vs[0..8], vs[8..16], vs[16..48], vs[48])
  }

  lemma Build50Fields50(s: UnkStruct50)
    ensures Build50(Fields50(s)) == s
  {
  }

  function Write50(s: UnkStruct50): seq<byte>
  {
    Encode(Layout50, Fields50(s))
  }

  /** Accepts exactly the writer's output: whatever it returns, writing it
      back yields the bytes it consumed. */
  function Read50(bytes: seq<byte>): (r: Result<(UnkStruct50, seq<byte>)>)
    ensures r.Ok? ==> bytes == Write50(r.value.0) + r.value.1
  {
    var (vs, rest) :- Decode(Layout50, bytes);
    DecodeSound(Layout50, bytes);
    Ok((Build50(vs), rest))
  }

  lemma ReadWrite50(s: UnkStruct50, rest: seq<byte>)
    ensures Read50(Write50(s) + rest) == Ok((s, rest))
  {
    DecodeEncode(Layout50, Fields50(s), rest);
    Build50Fields50(s);
  }

  // ---------------------------------------------------------------------
  // UnkStruct58

  datatype UnkStruct58 = UnkStruct58(unk00: int32, dispGroups: U32x8)

  const Layout58: seq<Cell> := [I32] + Repeat(U32, 8) + [Zero16, MinusOne16] + Repeat(Zero32, 8)

  function Fields58(s: UnkStruct58): (vs: seq<int>)
    ensures Conforms(Layout58, vs)
  {
    [s.unk00 as int] + s.dispGroups + [0, -1] + Repeat(0, 8)
  }

  function Build58(vs: seq<int>): (s: UnkStruct58)
    requires Conforms(Layout58, vs)
    ensures Fields58(s) == vs
  {
    UnkStruct58(vs[0], vs[1..9])
  }

  lemma Build58Fields58(s: UnkStruct58)
    ensures Build58(Fields58(s)) == s
  {
  }

  function Write58(s: UnkStruct58): seq<byte>
  {
    Encode(Layout58, Fields58(s))
  }

  /** Accepts exactly the writer's output: whatever it returns, writing it
      back yields the bytes it consumed. */
  function Read58(bytes: seq<byte>): (r: Result<(UnkStruct58, seq<byte>)>)
    ensures r.Ok? ==> bytes == Write58(r.value.0) + r.value.1
  {
    var (vs, rest) :- Decode(Layout58, bytes);
    DecodeSound(Layout58, bytes);
    Ok((Build58(vs), rest))
  }

  lemma ReadWrite58(s: UnkStruct58, rest: seq<byte>)
    ensures Read58(Write58(s) + rest) == Ok((s, rest))
  {
    DecodeEncode(Layout58, Fields58(s), rest);
    Build58Fields58(s);
  }

  // ---------------------------------------------------------------------
  // UnkStruct70

  datatype UnkStruct70 = UnkStruct70(unk00: int32, unk04: int32)

  const Layout70: seq<Cell> := [I32, I32] + Repeat(Zero32, 6)

  function Fields70(s: UnkStruct70): (vs: seq<int>)
    ensures Conforms(Layout70, vs)
  {
    [s.unk00 as int, s.unk04 as int] + Repeat(0, 6)
  }

  function Build70(vs: seq<int>): (s: UnkStruct70)
    requires Conforms(Layout70, vs)
    ensures Fields70(s) == vs
  {
    UnkStruct70(vs[0], vs[1])
  }

  lemma Build70Fields70(s: UnkStruct70)
    ensures Build70(Fields70(s)) == s
  {
  }

  function Write70(s: UnkStruct70): seq<byte>
  {
    Encode(Layout70, Fields70(s))
  }

  /** Accepts exactly the writer's output: whatever it returns, writing it
      back yields the bytes it consumed. */
  function Read70(bytes: seq<byte>): (r: Result<(UnkStruct70, seq<byte>)>)
    ensures r.Ok? ==> bytes == Write70(r.value.0) + r.value.1
  {
    var (vs, rest) :- Decode(Layout70, bytes);
    DecodeSound(Layout70, bytes);
    Ok((Build70(vs), rest))
  }

  lemma ReadWrite70(s: UnkStruct70, rest: seq<byte>)
    ensures Read70(Write70(s) + rest) == Ok((s, rest))
  {
    DecodeEncode(Layout70, Fields70(s), rest);
    Build70Fields70(s);
  }

  // ---------------------------------------------------------------------
  // UnkStruct78: graphics-parameter overrides.

  datatype UnkStruct78 = UnkStruct78(
    transitionTime: FloatBits,
    gparamSubIdBase: sbyte,
    gparamSubIdOverride1: sbyte,
    gparamSubIdOverride2: sbyte)

  const Layout78: seq<Cell> :=
    Repeat(Zero32, 4) + [F32, MinusOne32, S8, S8, S8, MinusOne8] + Repeat(Zero32, 13)

  function Fields78(s: UnkStruct78): (vs: seq<int>)
    ensures Conforms(Layout78, vs)
  {
    Repeat(0, 4)
    + [s.transitionTime as int, -1, s.gparamSubIdBase as int, s.gparamSubIdOverride1 as int,
       s.gparamSubIdOverride2 as int, -1]
    + Repeat(0, 13)
  }

  function Build78(vs: seq<int>): (s: UnkStruct78)
    requires Conforms(Layout78, vs)
    ensures Fields78(s) == vs
  {
    UnkStruct78(vs[4], vs[6], vs[7], vs[8])
  }

  lemma Build78Fields78(s: UnkStruct78)
    ensures Build78(Fields78(s)) == s
  {
  }

  function Write78(s: UnkStruct78): seq<byte>
  {
    Encode(Layout78, Fields78(s))
  }

  /** Accepts exactly the writer's output: whatever it returns, writing it
      back yields the bytes it consumed. */
  function Read78(bytes: seq<byte>): (r: Result<(UnkStruct78, seq<byte>)>)
    ensures r.Ok? ==> bytes == Write78(r.value.0) + r.value.1
  {
    var (vs, rest) :- Decode(Layout78, bytes);
    DecodeSound(Layout78, bytes);
    Ok((Build78(vs), rest))
  }

  lemma ReadWrite78(s: UnkStruct78, rest: seq<byte>)
    ensures Read78(Write78(s) + rest) == Ok((s, rest))
  {
    DecodeEncode(Layout78, Fields78(s), rest);
    Build78Fields78(s);
  }

  // ---------------------------------------------------------------------
  // UnkStruct80

  datatype UnkStruct80 = UnkStruct80(unk00: int32, unk04: int32, unk08: int32, unk0C: int32, unk10: int32, unk14: int32)

  const Layout80: seq<Cell> := [I32, I32, I32, I32, I32, I32, MinusOne32, Zero32]

  function Fields80(s: UnkStruct80): (vs: seq<int>)
    ensures Conforms(Layout80, vs)
  {
    [s.unk00 as int, s.unk04 as int, s.unk08 as int, s.unk0C as int, s.unk10 as int, s.unk14 as int, -1, 0]
  }

  function Build80(vs: seq<int>): (s: UnkStruct80)
    requires Conforms(Layout80, vs)
    ensures Fields80(s) == vs
  {
    UnkStruct80(vs[0], vs[1], vs[2], vs[3], vs[4], vs[5])
  }

  lemma Build80Fields80(s: UnkStruct80)
    ensures Build80(Fields80(s)) == s
  {
  }

  function Write80(s: UnkStruct80): seq<byte>
  {
    Encode(Layout80, Fields80(s))
  }

  /** Accepts exactly the writer's output: whatever it returns, writing it
      back yields the bytes it consumed. */
  function Read80(bytes: seq<byte>): (r: Result<(UnkStruct80, seq<byte>)>)
    ensures r.Ok? ==> bytes == Write80(r.value.0) + r.value.1
  {
    var (vs, rest) :- Decode(Layout80, bytes);
    DecodeSound(Layout80, bytes);
    Ok((Build80(vs), rest))
  }

  lemma ReadWrite80(s: UnkStruct80, rest: seq<byte>)
    ensures Read80(Write80(s) + rest) == Ok((s, rest))
  {
    DecodeEncode(Layout80, Fields80(s), rest);
    Build80Fields80(s);
  }

  // ---------------------------------------------------------------------
  // UnkStruct88

  datatype UnkStruct88 = UnkStruct88(unk00: byte, unk01: byte)

  const Layout88: seq<Cell> := [U8, U8, Zero16] + Repeat(Zero32, 7)

  function Fields88(s: UnkStruct88): (vs: seq<int>)
    ensures Conforms(Layout88, vs)
  {
    [s.unk00 as int, s.unk01 as int, 0] + Repeat(0, 7)
  }

  function Build88(vs: seq<int>): (s: UnkStruct88)
    requires Conforms(Layout88, vs)
    ensures Fields88(s) == vs
  {
    UnkStruct88(vs[0], vs[1])
  }

  lemma Build88Fields88(s: UnkStruct88)
    ensures Build88(Fields88(s)) == s
  {
  }

  function Write88(s: UnkStruct88): seq<byte>
  {
    Encode(Layout88, Fields88(s))
  }

  /** Accepts exactly the writer's output: whatever it returns, writing it
      back yields the bytes it consumed. */
  function Read88(bytes: seq<byte>): (r: Result<(UnkStruct88, seq<byte>)>)
    ensures r.Ok? ==> bytes == Write88(r.value.0) + r.value.1
  {
    var (vs, rest) :- Decode(Layout88, bytes);
    DecodeSound(Layout88, bytes);
    Ok((Build88(vs), rest))
  }

  lemma ReadWrite88(s: UnkStruct88, rest: seq<byte>)
    ensures Read88(Write88(s) + rest) == Ok((s, rest))
  {
    DecodeEncode(Layout88, Fields88(s), rest);
    Build88Fields88(s);
  }

  // ---------------------------------------------------------------------
  // UnkStruct90

  datatype UnkStruct90 = UnkStruct90(unk00: int32)

  const Layout90: seq<Cell> := [I32] + Repeat(Zero32, 7)

  function Fields90(s: UnkStruct90): (vs: seq<int>)
    ensures Conforms(Layout90, vs)
  {
    [s.unk00 as int] + Repeat(0, 7)
  }

  function Build90(vs: seq<int>): (s: UnkStruct90)
    requires Conforms(Layout90, vs)
    ensures Fields90(s) == vs
  {
    UnkStruct90(vs[0])
  }

  lemma Build90Fields90(s: UnkStruct90)
    ensures Build90(Fields90(s)) == s
  {
  }

  function Write90(s: UnkStruct90): seq<byte>
  {
    Encode(Layout90, Fields90(s))
  }

  /** Accepts exactly the writer's output: whatever it returns, writing it
      back yields the bytes it consumed. */
  function Read90(bytes: seq<byte>): (r: Result<(UnkStruct90, seq<byte>)>)
    ensures r.Ok? ==> bytes == Write90(r.value.0) + r.value.1
  {
    var (vs, rest) :- Decode(Layout90, bytes);
    DecodeSound(Layout90, bytes);
    Ok((Build90(vs), rest))
  }

  lemma ReadWrite90(s: UnkStruct90, rest: seq<byte>)
    ensures Read90(Write90(s) + rest) == Ok((s, rest))
  {
    DecodeEncode(Layout90, Fields90(s), rest);
    Build90Fields90(s);
  }

  // ---------------------------------------------------------------------
  // UnkStruct98 and UnkStructA0 hold no data: every cell is asserted.

  datatype UnkStruct98 = UnkStruct98

  const Layout98: ConstantLayout := [MinusOne32, Zero32, Zero32, MinusOne32, Zero32, MinusOne32, Zero32, Zero32]


  function Write98(s: UnkStruct98): seq<byte>
  {
    Encode(Layout98, Constants(Layout98))
  }

  function Read98(bytes: seq<byte>): (r: Result<(UnkStruct98, seq<byte>)>)
    ensures r.Ok? ==> bytes == Write98(r.value.0) + r.value.1
  {
    var (vs, rest) :- Decode(Layout98, bytes);
    DecodeSound(Layout98, bytes);
    ConformsConstant(Layout98, vs);
    Ok((UnkStruct98, rest))
  }

  lemma ReadWrite98(s: UnkStruct98, rest: seq<byte>)
    ensures Read98(Write98(s) + rest) == Ok((s, rest))
  {
    DecodeEncode(Layout98, Constants(Layout98), rest);
  }

  datatype UnkStructA0 = UnkStructA0

  const LayoutA0: ConstantLayout := Repeat(Zero32, 8)


  function WriteA0(s: UnkStructA0): seq<byte>
  {
    Encode(LayoutA0, Constants(LayoutA0))
  }

  function ReadA0(bytes: seq<byte>): (r: Result<(UnkStructA0, seq<byte>)>)
    ensures r.Ok? ==> bytes == WriteA0(r.value.0) + r.value.1
  {
    var (vs, rest) :- Decode(LayoutA0, bytes);
    DecodeSound(LayoutA0, bytes);
    ConformsConstant(LayoutA0, vs);
    Ok((UnkStructA0, rest))
  }

  lemma ReadWriteA0(s: UnkStructA0, rest: seq<byte>)
    ensures ReadA0(WriteA0(s) + rest) == Ok((s, rest))
  {
    DecodeEncode(LayoutA0, Constants(LayoutA0), rest);
  }
}
