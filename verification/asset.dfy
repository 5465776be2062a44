/** The asset payload: a fixed head ending in four offsets, measured from
    the start of the payload, to four nested structs that are always
    written and always read. From format version 52 on, sixteen zero words
    follow the offsets. */
module AssetPayload {
  import opened Ints
  import opened Results
  import opened Layout

  // ---------------------------------------------------------------------
  // The four nested structs.

  datatype AssetUnkStruct60 = AssetUnkStruct60(unk00: int16, unk04: int32)

  const Layout60: seq<Cell> :=
    [I16, MinusOne16, I32, Zero32, Zero32, Zero32, MinusOne32, MinusOne32] + Repeat(Zero32, 9)

  function Fields60(s: AssetUnkStruct60): (vs: seq<int>)
    ensures |vs| == |Layout60|
  {
    [s.unk00 as int, -1, s.unk04 as int, 0, 0, 0, -1, -1] + Repeat(0, 9)
  }

  lemma Fields60Conform(s: AssetUnkStruct60)
    ensures Conforms(Layout60, Fields60(s))
  {
  }

  function Build60(vs: seq<int>): (s: AssetUnkStruct60)
    requires Conforms(Layout60, vs)
    ensures Fields60(s) == vs
  {
    AssetUnkStruct60(vs[0], vs[2])
  }

  function Write60(s: AssetUnkStruct60): (r: seq<byte>)
    ensures |r| <= 0x100
  {
    EncodeLength(Layout60, Fields60(s));
    SizeBounds(Layout60);
    Encode(Layout60, Fields60(s))
  }

  function Read60(bytes: seq<byte>): (r: Result<(AssetUnkStruct60, seq<byte>)>)
    ensures r.Ok? ==> bytes == Write60(r.value.0) + r.value.1
  {
    var (vs, rest) :- Decode(Layout60, bytes);
    DecodeSound(Layout60, bytes);
    Ok((Build60(vs), rest))
  }

  lemma ReadWrite60(s: AssetUnkStruct60, rest: seq<byte>)
    ensures Read60(Write60(s) + rest) == Ok((s, rest))
  {
    Fields60Conform(s);
    DecodeEncode(Layout60, Fields60(s), rest);
  }

  datatype AssetUnkStruct68 = AssetUnkStruct68(unk14: FloatBits, unk1C: int32)

  const Layout68: seq<Cell> :=
    [Zero32, MinusOne32, MinusOne32, Zero32, Zero32, F32, MinusOne32, I32] + Repeat(Zero32, 8)

  function Fields68(s: AssetUnkStruct68): (vs: seq<int>)
    ensures |vs| == |Layout68|
  {
    [0, -1, -1, 0, 0, s.unk14 as int, -1, s.unk1C as int] + Repeat(0, 8)
  }

  lemma Fields68Conform(s: AssetUnkStruct68)
    ensures Conforms(Layout68, Fields68(s))
  {
  }

  function Build68(vs: seq<int>): (s: AssetUnkStruct68)
    requires Conforms(Layout68, vs)
    ensures Fields68(s) == vs
  {
    AssetUnkStruct68(vs[5], vs[7])
  }

  function Write68(s: AssetUnkStruct68): (r: seq<byte>)
    ensures |r| <= 0x100
  {
    EncodeLength(Layout68, Fields68(s));
    SizeBounds(Layout68);
    Encode(Layout68, Fields68(s))
  }

  function Read68(bytes: seq<byte>): (r: Result<(AssetUnkStruct68, seq<byte>)>)
    ensures r.Ok? ==> bytes == Write68(r.value.0) + r.value.1
  {
    var (vs, rest) :- Decode(Layout68, bytes);
    DecodeSound(Layout68, bytes);
    Ok((Build68(vs), rest))
  }

  lemma ReadWrite68(s: AssetUnkStruct68, rest: seq<byte>)
    ensures Read68(Write68(s) + rest) == Ok((s, rest))
  {
    Fields68Conform(s);
    DecodeEncode(Layout68, Fields68(s), rest);
  }

  datatype AssetUnkStruct70 = AssetUnkStruct70(unk00: int32, unk04: FloatBits)

  const Layout70: seq<Cell> := [I32, F32, MinusOne8, Zero8, Zero16] + Repeat(Zero32, 13)

  function Fields70(s: AssetUnkStruct70): (vs: seq<int>)
    ensures |vs| == |Layout70|
  {
    [s.unk00 as int, s.unk04 as int, -1, 0, 0] + Repeat(0, 13)
  }

  lemma Fields70Conform(s: AssetUnkStruct70)
    ensures Conforms(Layout70, Fields70(s))
  {
  }

  function Build70(vs: seq<int>): (s: AssetUnkStruct70)
    requires Conforms(Layout70, vs)
    ensures Fields70(s) == vs
  {
    AssetUnkStruct70(vs[0], vs[1])
  }

  function Write70(s: AssetUnkStruct70): (r: seq<byte>)
    ensures |r| <= 0x100
  {
    EncodeLength(Layout70, Fields70(s));
    SizeBounds(Layout70);
    Encode(Layout70, Fields70(s))
  }

  function Read70(bytes: seq<byte>): (r: Result<(AssetUnkStruct70, seq<byte>)>)
    ensures r.Ok? ==> bytes == Write70(r.value.0) + r.value.1
  {
    var (vs, rest) :- Decode(Layout70, bytes);
    DecodeSound(Layout70, bytes);
    Ok((Build70(vs), rest))
  }

  lemma ReadWrite70(s: AssetUnkStruct70, rest: seq<byte>)
    ensures Read70(Write70(s) + rest) == Ok((s, rest))
  {
    Fields70Conform(s);
    DecodeEncode(Layout70, Fields70(s), rest);
  }

  datatype AssetUnkStruct78 = AssetUnkStruct78(unk00: byte, unk01: sbyte, unk02: sbyte)

  const Layout78: seq<Cell> := [U8, S8, S8, Zero8] + Repeat(Zero32, 15)

  function Fields78(s: AssetUnkStruct78): (vs: seq<int>)
    ensures |vs| == |Layout78|
  {
    [s.unk00 as int, s.unk01 as int, s.unk02 as int, 0] + Repeat(0, 15)
  }

  lemma Fields78Conform(s: AssetUnkStruct78)
    ensures Conforms(Layout78, Fields78(s))
  {
  }

  function Build78(vs: seq<int>): (s: AssetUnkStruct78)
    requires Conforms(Layout78, vs)
    ensures Fields78(s) == vs
  {
    AssetUnkStruct78(vs[0], vs[1], vs[2])
  }

  function Write78(s: AssetUnkStruct78): (r: seq<byte>)
    ensures |r| <= 0x100
  {
    EncodeLength(Layout78, Fields78(s));
    SizeBounds(Layout78);
    Encode(Layout78, Fields78(s))
  }

  function Read78(bytes: seq<byte>): (r: Result<(AssetUnkStruct78, seq<byte>)>)
    ensures r.Ok? ==> bytes == Write78(r.value.0) + r.value.1
  {
    var (vs, rest) :- Decode(Layout78, bytes);
    DecodeSound(Layout78, bytes);
    Ok((Build78(vs), rest))
  }

  lemma ReadWrite78(s: AssetUnkStruct78, rest: seq<byte>)
    ensures Read78(Write78(s) + rest) == Ok((s, rest))
  {
    Fields78Conform(s);
    DecodeEncode(Layout78, Fields78(s), rest);
  }

  // ---------------------------------------------------------------------
  // The head.

  type I32x4 = s: seq<int32> | |s| == 4 witness [0, 0, 0, 0]

  datatype AssetBody = AssetBody(
    version: int32,   // the format version the writer lays the payload out for
    unk00: bool,
    unk01: byte,
    unk03: sbyte,
    unk04: int32,
    unk10: byte,
    unk11: bool,
    unk12: bool,
    unk13: bool,
    unk14: int16,
    unk1C: int16,
    unk1E: int16,
    unk20: int32,
    unk24: int32,
    unk28: int32,
    unk2C: int32,
    partIndices: I32x4,
    unk44: int32,
    unk48: int32,
    unk4C: byte,
    unk4D: byte,
    unk4E: int16,
    unk50: int32,
    unk54: int32,
    unk5C: int32,
    s60: AssetUnkStruct60,
    s68: AssetUnkStruct68,
    s70: AssetUnkStruct70,
    s78: AssetUnkStruct78)

  /** The first version whose asset payload carries the sixteen zero words. */
  const GapVersion := 52

  /** The head, read as five runs: four runs of fields, then the four
      nested-struct offsets. */
  const AssetRuns: seq<seq<Cell>> :=
    [[Boolean, U8, Zero8, S8, I32, Zero32, Zero32, U8, Boolean, Boolean, Boolean, I16],
     [MinusOne16, MinusOne32, I16, I16, I32, I32, I32, I32],
     [I32, I32, I32, I32, MinusOne32, I32, I32, U8, U8, I16, I32, I32],
     [MinusOne32, I32],
     [I64, I64, I64, I64]]

  /** The sixteen zero words of the newer versions. */
  const AssetGap: ConstantLayout := Repeat(Zero32, 16)

  function BoolValue(b: bool): int
  {
    if b then 1 else 0
  }

  /** The head's contents for a body and the four offsets. */
  function AssetFields(a: AssetBody, offs: AssetOffsets): (vss: seq<seq<int>>)
  {
      [[BoolValue(a.unk00), a.unk01 as int, 0, a.unk03 as int, a.unk04 as int, 0, 0,
        a.unk10 as int, BoolValue(a.unk11), BoolValue(a.unk12), BoolValue(a.unk13), a.unk14 as int],
       [-1, -1, a.unk1C as int, a.unk1E as int, a.unk20 as int, a.unk24 as int, a.unk28 as int, a.unk2C as int],
       a.partIndices + [-1, a.unk44 as int, a.unk48 as int, a.unk4C as int, a.unk4D as int,
                        a.unk4E as int, a.unk50 as int, a.unk54 as int],
       [-1, a.unk5C as int],
       [offs.o60 as int, offs.o68 as int, offs.o70 as int, offs.o78 as int]]
  }

  lemma AssetFieldsConform(a: AssetBody, offs: AssetOffsets)
    ensures ConformsRuns(AssetRuns, AssetFields(a, offs))
  {
    var vss := AssetFields(a, offs);
    AssetRun0Conforms(a, offs);
    AssetRun1Conforms(a, offs);
    AssetRun2Conforms(a, offs);
    assert Conforms(AssetRuns[3], vss[3]);
    assert Conforms(AssetRuns[4], vss[4]);
  }

  lemma AssetRun0Conforms(a: AssetBody, offs: AssetOffsets)
    ensures Conforms(AssetRuns[0], AssetFields(a, offs)[0])
  {
    var run, vs := AssetRuns[0], AssetFields(a, offs)[0];
    assert forall i :: 0 <= i < |run| ==> Fits(run[i], vs[i]);
  }

  lemma AssetRun1Conforms(a: AssetBody, offs: AssetOffsets)
    ensures Conforms(AssetRuns[1], AssetFields(a, offs)[1])
  {
    var run, vs := AssetRuns[1], AssetFields(a, offs)[1];
    assert forall i :: 0 <= i < |run| ==> Fits(run[i], vs[i]);
  }

  lemma AssetRun2Conforms(a: AssetBody, offs: AssetOffsets)
    ensures Conforms(AssetRuns[2], AssetFields(a, offs)[2])
  {
    var run, vs := AssetRuns[2], AssetFields(a, offs)[2];
    assert forall i :: 0 <= i < |run| ==> Fits(run[i], vs[i]);
  }

  /** The four offsets a head stores. */
  datatype AssetOffsets = AssetOffsets(o60: int64, o68: int64, o70: int64, o78: int64)

  function StoredOffsets(vss: seq<seq<int>>): (offs: AssetOffsets)
    requires ConformsRuns(AssetRuns, vss)
  {
    assert Conforms(AssetRuns[4], vss[4]);
    AssetOffsets(vss[4][0], vss[4][1], vss[4][2], vss[4][3])
  }

  function BuildAsset(vss: seq<seq<int>>, version: int32, s60: AssetUnkStruct60, s68: AssetUnkStruct68,
                      s70: AssetUnkStruct70, s78: AssetUnkStruct78): (a: AssetBody)
    requires ConformsRuns(AssetRuns, vss)
    ensures AssetFields(a, StoredOffsets(vss)) == vss
    ensures a.version == version && a.s60 == s60 && a.s68 == s68 && a.s70 == s70 && a.s78 == s78
  {
    var p, q, r, t, u := vss[0], vss[1], vss[2], vss[3], vss[4];
    assert Conforms(AssetRuns[0], p) && Conforms(AssetRuns[1], q);
    assert Conforms(AssetRuns[2], r) && Conforms(AssetRuns[3], t);
    assert Conforms(AssetRuns[4], u);
    assert vss == [p, q, r, t, u];
    assert p == [p[0], p[1], 0, p[3], p[4], 0, 0, p[7], p[8], p[9], p[10], p[11]];
    assert q == [-1, -1, q[2], q[3], q[4], q[5], q[6], q[7]];
    assert r == r[..4] + [-1, r[5], r[6], r[7], r[8], r[9], r[10], r[11]];
    assert t == [-1, t[1]];
    assert u == [u[0], u[1], u[2], u[3]];
    AssetBody(version, p[0] == 1, p[1], p[3], p[4], p[7], p[8] == 1, p[9] == 1, p[10] == 1, p[11],
              q[2], q[3], q[4], q[5], q[6], q[7], r[..4], r[5], r[6], r[7], r[8], r[9], r[10], r[11],
              t[1], s60, s68, s70, s78)
  }

  lemma BuildAssetFields(a: AssetBody, offs: AssetOffsets)
    ensures ConformsRuns(AssetRuns, AssetFields(a, offs))
    ensures StoredOffsets(AssetFields(a, offs)) == offs
    ensures BuildAsset(AssetFields(a, offs), a.version, a.s60, a.s68, a.s70, a.s78) == a
  {
    AssetFieldsConform(a, offs);
  }

  // ---------------------------------------------------------------------
  // Writing.

  /** Bytes from the payload start to the end of the head, without the
      sixteen zero words. */
  function AssetHeadSize(): (n: nat)
    ensures 5 <= n <= 8 * 12 * 5
  {
    RunsSizeBounds(AssetRuns, 12);
    RunsSize(AssetRuns)
  }

  /** The sixteen zero words when the version calls for them, else nothing. */
  function AssetGapBytes(version: int): (r: seq<byte>)
    ensures |r| <= 0x100
  {
    EncodeLength(AssetGap, Constants(AssetGap));
    SizeBounds(AssetGap);
    if version >= GapVersion then Encode(AssetGap, Constants(AssetGap)) else []
  }

  /** Where the writer puts the nested structs, from the payload start: one
      after the other, right after the head and the zero words. */
  function AssetLayoutOffsets(a: AssetBody): (offs: AssetOffsets)
  {
    var o60 := AssetHeadSize() + |AssetGapBytes(a.version)|;
    var o68 := o60 + |Write60(a.s60)|;
    var o70 := o68 + |Write68(a.s68)|;
    var o78 := o70 + |Write70(a.s70)|;
    AssetOffsets(o60, o68, o70, o78)
  }

  function WriteAssetHead(a: AssetBody): (r: seq<byte>)
    ensures |r| == AssetHeadSize()
  {
    var fields := AssetFields(a, AssetLayoutOffsets(a));
    AssetFieldsConform(a, AssetLayoutOffsets(a));
    EncodeRunsLength(AssetRuns, fields);
    EncodeRuns(AssetRuns, fields)
  }

  /** The four nested structs, one after the other. */
  function WriteAssetNested(a: AssetBody): seq<byte>
  {
    Write60(a.s60) + (Write68(a.s68) + (Write70(a.s70) + Write78(a.s78)))
  }

  /** What the writer emits after the head: the zero words (possibly none),
      then the nested structs. */
  function WriteAssetTail(a: AssetBody): seq<byte>
  {
    AssetGapBytes(a.version) + WriteAssetNested(a)
  }

  function WriteAssetBody(a: AssetBody): seq<byte>
  {
    WriteAssetHead(a) + WriteAssetTail(a)
  }

  /** Each nested struct's bytes sit at the offset the head stores for it,
      counted from the start of the payload. */
  lemma AssetWriteLayout(a: AssetBody)
    ensures var body, offs := WriteAssetBody(a), AssetLayoutOffsets(a);
            && offs.o78 + |Write78(a.s78)| == |body|
            && body[offs.o60..offs.o68] == Write60(a.s60)
            && body[offs.o68..offs.o70] == Write68(a.s68)
            && body[offs.o70..offs.o78] == Write70(a.s70)
            && body[offs.o78..] == Write78(a.s78)
  {
    var head, gap, nested := WriteAssetHead(a), AssetGapBytes(a.version), WriteAssetNested(a);
    var front := head + gap;
    assert |front| == AssetLayoutOffsets(a).o60;
    AppendAssoc(head, gap, nested);
    assert WriteAssetBody(a) == front + nested;
    SliceFour(front, Write60(a.s60), Write68(a.s68), Write70(a.s70), Write78(a.s78));
  }

  /** The zero words are there exactly from version 52 on: sixteen words,
      every byte zero. */
  lemma {:induction false} AssetGapIffVersion(version: int)
    ensures |AssetGapBytes(version)| == if version >= GapVersion then 64 else 0
    ensures forall i :: 0 <= i < |AssetGapBytes(version)| ==> AssetGapBytes(version)[i] == 0
  {
    if version >= GapVersion {
      ZeroWords(16);
    }
  }

  lemma {:induction false} ZeroWords(n: nat)
    ensures var cells := Repeat(Zero32, n);
            var bs := Encode(cells, Constants(cells));
            |bs| == 4 * n && forall i :: 0 <= i < |bs| ==> bs[i] == 0
  {
    var cells := Repeat(Zero32, n);
    if n > 0 {
      ZeroWords(n - 1);
      assert cells[1..] == Repeat(Zero32, n - 1);
      assert Constants(cells)[1..] == Constants(cells[1..]);
      assert ToLE(0, 4) == [0, 0, 0, 0];
    }
  }

  // ---------------------------------------------------------------------
  // Reading.

  /** The head at `pos`, returning its runs and the bytes after it. */
  function ReadAssetHead(data: seq<byte>, pos: nat): (r: Result<(seq<seq<int>>, seq<byte>)>)
    ensures r.Ok? ==> ConformsRuns(AssetRuns, r.value.0)
  {
    DecodeRuns(AssetRuns, Suffix(data, pos))
  }

  /** The zero words, demanded right after the head only when the version
      calls for them. */
  function ReadAssetGap(after: seq<byte>, version: int): (r: Result<()>)
  {
    if version >= GapVersion then
      var _ :- Decode(AssetGap, after);
      Ok(())
    else Ok(())
  }

  function ReadAt60(data: seq<byte>, pos: int): Result<AssetUnkStruct60>
  {
    var at :- Seek(data, pos);
    var (s, _) :- Read60(at);
    Ok(s)
  }

  function ReadAt68(data: seq<byte>, pos: int): Result<AssetUnkStruct68>
  {
    var at :- Seek(data, pos);
    var (s, _) :- Read68(at);
    Ok(s)
  }

  function ReadAt70(data: seq<byte>, pos: int): Result<AssetUnkStruct70>
  {
    var at :- Seek(data, pos);
    var (s, _) :- Read70(at);
    Ok(s)
  }

  function ReadAt78(data: seq<byte>, pos: int): Result<AssetUnkStruct78>
  {
    var at :- Seek(data, pos);
    var (s, _) :- Read78(at);
    Ok(s)
  }

  /** The four nested structs, each at `pos` plus its offset. */
  function ReadAssetNested(data: seq<byte>, pos: int, offs: AssetOffsets)
    : Result<(AssetUnkStruct60, AssetUnkStruct68, AssetUnkStruct70, AssetUnkStruct78)>
  {
    var s60 :- ReadAt60(data, pos + offs.o60);
    var s68 :- ReadAt68(data, pos + offs.o68);
    var s70 :- ReadAt70(data, pos + offs.o70);
    var s78 :- ReadAt78(data, pos + offs.o78);
    Ok((s60, s68, s70, s78))
  }

  /** Reads the payload at `pos` as a part of format `version` reads it:
      the head, the zero words when the version calls for them, then each
      nested struct at `pos` plus its stored offset. The result records
      `version`. */
  function ReadAssetBody(data: seq<byte>, pos: nat, version: int32): (r: Result<AssetBody>)
    ensures r.Ok? ==> r.value.version == version
    ensures r.Ok? ==> ReadAssetHead(data, pos).Ok?
  {
    var (vss, after) :- ReadAssetHead(data, pos);
    var _ :- ReadAssetGap(after, version);
    var n :- ReadAssetNested(data, pos, StoredOffsets(vss));
    Ok(BuildAsset(vss, version, n.0, n.1, n.2, n.3))
  }

  // ---------------------------------------------------------------------
  // Reading back what was written.

  lemma AssetHeadReadBack(data: seq<byte>, pos: nat, a: AssetBody, rest: seq<byte>)
    requires Suffix(data, pos) == WriteAssetBody(a) + rest
    ensures ReadAssetHead(data, pos) == Ok((AssetFields(a, AssetLayoutOffsets(a)), WriteAssetTail(a) + rest))
  {
    var fields := AssetFields(a, AssetLayoutOffsets(a));
    var tail := WriteAssetTail(a);
    AssetFieldsConform(a, AssetLayoutOffsets(a));
    AppendAssoc(WriteAssetHead(a), tail, rest);
    DecodeEncodeRuns(AssetRuns, fields, tail + rest);
  }

  lemma AssetGapReadBack(a: AssetBody, rest: seq<byte>)
    ensures ReadAssetGap(WriteAssetTail(a) + rest, a.version) == Ok(())
  {
    if a.version >= GapVersion {
      var nested := WriteAssetNested(a) + rest;
      AppendAssoc(AssetGapBytes(a.version), WriteAssetNested(a), rest);
      assert WriteAssetTail(a) + rest == Encode(AssetGap, Constants(AssetGap)) + nested;
      DecodeEncode(AssetGap, Constants(AssetGap), nested);
    }
  }

  /** Each nested struct reads back wherever a seek lands on its bytes. */
  lemma ReadAt60Of(data: seq<byte>, p: int, s: AssetUnkStruct60, rest: seq<byte>)
    requires Seek(data, p) == Ok(Write60(s) + rest)
    ensures ReadAt60(data, p) == Ok(s)
  {
    ReadWrite60(s, rest);
  }

  lemma ReadAt68Of(data: seq<byte>, p: int, s: AssetUnkStruct68, rest: seq<byte>)
    requires Seek(data, p) == Ok(Write68(s) + rest)
    ensures ReadAt68(data, p) == Ok(s)
  {
    ReadWrite68(s, rest);
  }

  lemma ReadAt70Of(data: seq<byte>, p: int, s: AssetUnkStruct70, rest: seq<byte>)
    requires Seek(data, p) == Ok(Write70(s) + rest)
    ensures ReadAt70(data, p) == Ok(s)
  {
    ReadWrite70(s, rest);
  }

  lemma ReadAt78Of(data: seq<byte>, p: int, s: AssetUnkStruct78, rest: seq<byte>)
    requires Seek(data, p) == Ok(Write78(s) + rest)
    ensures ReadAt78(data, p) == Ok(s)
  {
    ReadWrite78(s, rest);
  }

  /** Past the head, a seek to each stored offset lands on that nested
      struct, followed by the structs after it. */
  lemma AssetNestedAt(data: seq<byte>, pos: nat, a: AssetBody, rest: seq<byte>)
    requires Suffix(data, pos + AssetHeadSize()) == WriteAssetTail(a) + rest
    ensures var offs := AssetLayoutOffsets(a);
            && Seek(data, pos + offs.o60) == Ok(Write60(a.s60) + ((Write68(a.s68) + (Write70(a.s70) + Write78(a.s78))) + rest))
            && Seek(data, pos + offs.o68) == Ok(Write68(a.s68) + ((Write70(a.s70) + Write78(a.s78)) + rest))
            && Seek(data, pos + offs.o70) == Ok(Write70(a.s70) + (Write78(a.s78) + rest))
            && Seek(data, pos + offs.o78) == Ok(Write78(a.s78) + rest)
  {
    SuffixChain(data, pos + AssetHeadSize(), AssetGapBytes(a.version),
                Write60(a.s60), Write68(a.s68), Write70(a.s70), Write78(a.s78), rest);
  }

  /** The four reads succeed wherever seeks land on the structs' bytes. */
  lemma ReadAtEach(data: seq<byte>, p60: int, p68: int, p70: int, p78: int, a: AssetBody,
                   r60: seq<byte>, r68: seq<byte>, r70: seq<byte>, r78: seq<byte>)
    requires Seek(data, p60) == Ok(Write60(a.s60) + r60)
    requires Seek(data, p68) == Ok(Write68(a.s68) + r68)
    requires Seek(data, p70) == Ok(Write70(a.s70) + r70)
    requires Seek(data, p78) == Ok(Write78(a.s78) + r78)
    ensures ReadAt60(data, p60) == Ok(a.s60)
    ensures ReadAt68(data, p68) == Ok(a.s68)
    ensures ReadAt70(data, p70) == Ok(a.s70)
    ensures ReadAt78(data, p78) == Ok(a.s78)
  {
    ReadAt60Of(data, p60, a.s60, r60);
    ReadAt68Of(data, p68, a.s68, r68);
    ReadAt70Of(data, p70, a.s70, r70);
    ReadAt78Of(data, p78, a.s78, r78);
  }

  /** The nested reader succeeds when its four reads do. */
  lemma ReadAssetNestedOf(data: seq<byte>, pos: int, a: AssetBody, offs: AssetOffsets)
    requires ReadAt60(data, pos + offs.o60) == Ok(a.s60)
    requires ReadAt68(data, pos + offs.o68) == Ok(a.s68)
    requires ReadAt70(data, pos + offs.o70) == Ok(a.s70)
    requires ReadAt78(data, pos + offs.o78) == Ok(a.s78)
    ensures ReadAssetNested(data, pos, offs) == Ok((a.s60, a.s68, a.s70, a.s78))
  {
  }

  /** The nested reader succeeds wherever seeks to the four stored offsets
      land on the structs' bytes. */
  lemma NestedFromSeeks(data: seq<byte>, pos: int, offs: AssetOffsets, a: AssetBody,
                        r60: seq<byte>, r68: seq<byte>, r70: seq<byte>, r78: seq<byte>)
    requires Seek(data, pos + offs.o60) == Ok(Write60(a.s60) + r60)
    requires Seek(data, pos + offs.o68) == Ok(Write68(a.s68) + r68)
    requires Seek(data, pos + offs.o70) == Ok(Write70(a.s70) + r70)
    requires Seek(data, pos + offs.o78) == Ok(Write78(a.s78) + r78)
    ensures ReadAssetNested(data, pos, offs) == Ok((a.s60, a.s68, a.s70, a.s78))
  {
    ReadAtEach(data, pos + offs.o60, pos + offs.o68, pos + offs.o70, pos + offs.o78, a, r60, r68, r70, r78);
    ReadAssetNestedOf(data, pos, a, offs);
  }

  /** The four nested structs read back at the offsets the writer stores,
      given the bytes that follow the head. */
  lemma AssetNestedReadBack(data: seq<byte>, pos: nat, a: AssetBody, rest: seq<byte>)
    requires Suffix(data, pos + AssetHeadSize()) == WriteAssetTail(a) + rest
    ensures ReadAssetNested(data, pos, AssetLayoutOffsets(a)) == Ok((a.s60, a.s68, a.s70, a.s78))
  {
    var w68, w70, w78 := Write68(a.s68), Write70(a.s70), Write78(a.s78);
    AssetNestedAt(data, pos, a, rest);
    NestedFromSeeks(data, pos, AssetLayoutOffsets(a), a, (w68 + (w70 + w78)) + rest, (w70 + w78) + rest, w78 + rest, rest);
  }

  /** The tail starts right after the head. */
  lemma AssetTailAfterHead(data: seq<byte>, pos: nat, a: AssetBody, rest: seq<byte>)
    requires Suffix(data, pos) == WriteAssetBody(a) + rest
    ensures Suffix(data, pos + AssetHeadSize()) == WriteAssetTail(a) + rest
  {
    AppendAssoc(WriteAssetHead(a), WriteAssetTail(a), rest);
    SuffixStep(data, pos, WriteAssetHead(a), WriteAssetTail(a) + rest);
  }

  /** The payload reader succeeds once its head, zero words and nested
      structs do, and rebuilds the body from them. */
  lemma ReadAssetBodyFrom(data: seq<byte>, pos: nat, a: AssetBody, version: int32, after: seq<byte>)
    requires ReadAssetHead(data, pos) == Ok((AssetFields(a, AssetLayoutOffsets(a)), after))
    requires ReadAssetGap(after, version) == Ok(())
    requires ReadAssetNested(data, pos, AssetLayoutOffsets(a)) == Ok((a.s60, a.s68, a.s70, a.s78))
    ensures ReadAssetBody(data, pos, version) == Ok(a.(version := version))
  {
    BuildAssetFields(a, AssetLayoutOffsets(a));
  }

  /** Read with the version it was written for, or with any version below
      52 (which never demands the zero words), the payload reads back as
      written, whatever follows it, except that it records the version it
      was read with. */
  lemma ReadAssetBodyWithVersion(data: seq<byte>, pos: nat, a: AssetBody, rest: seq<byte>, version: int32)
    requires Suffix(data, pos) == WriteAssetBody(a) + rest
    requires version == a.version || version < GapVersion
    ensures ReadAssetBody(data, pos, version) == Ok(a.(version := version))
  {
    AssetHeadReadBack(data, pos, a, rest);
    if version >= GapVersion {
      AssetGapReadBack(a, rest);
    }
    AssetTailAfterHead(data, pos, a, rest);
    AssetNestedReadBack(data, pos, a, rest);
    ReadAssetBodyFrom(data, pos, a, version, WriteAssetTail(a) + rest);
  }

  /** Read with the version it was written for, the payload reads back as
      written, whatever follows it. */
  lemma ReadWriteAssetBody(data: seq<byte>, pos: nat, a: AssetBody, rest: seq<byte>)
    requires pos <= |data| && data[pos..] == WriteAssetBody(a) + rest
    ensures ReadAssetBody(data, pos, a.version) == Ok(a)
  {
    SuffixIs(data, pos);
    ReadAssetBodyWithVersion(data, pos, a, rest, a.version);
  }

  /** Rewritten with a version below 52, a payload written for version 52
      or later loses its sixteen zero words: it is 64 bytes shorter. */
  lemma RewriteBelowGapShorter(a: AssetBody, version: int32)
    requires a.version >= GapVersion && version < GapVersion
    ensures |WriteAssetBody(a.(version := version))| + 64 == |WriteAssetBody(a)|
  {
    AssetGapIffVersion(a.version);
    AssetGapIffVersion(version);
  }

  /** The payload is at most 0x1000 bytes long. */
  lemma AssetBodySize(a: AssetBody)
    ensures |WriteAssetBody(a)| <= 0x1000
  {
  }
}
