/** The fixed 0xC0-byte header every part record starts with: name and
    layout-path offsets, the type tag, indices, the transform, and the
    eleven section offsets, all relative to the start of the record. */
module PartHeader {
  import opened Ints
  import opened Results
  import opened Layout
  import opened PartTypes

  datatype Vector3 = Vector3(x: FloatBits, y: FloatBits, z: FloatBits)

  /** The eleven section offsets, in header order: T50, T58, entity data,
      type data, T70, T78, T80, T88, T90, T98, TA0. */
  type Offsets = s: seq<int64> | |s| == 11 witness [0, 0, 0, 0, 0, 0, 0, 0, 0, 0, 0]

  datatype Header = Header(
    kind: PartType,
    nameOffset: int64,
    localIndex: int32,
    modelIndex: int32,
    sourceOffset: int64,
    position: Vector3,
    rotation: Vector3,
    scale: Vector3,
    unkT44: int32,
    offsets: Offsets)

  const HeaderSize: nat := 0xC0

  /** The header of a `kind` record, as four runs of cells. The reader
      demands the kind's own tag at offset 8, a zero word, the constants
      -1 and 1 after the transform, and three trailing zero longs. */
  function HeaderRuns(kind: PartType): seq<seq<Cell>>
  {
    [[I64, Fixed(W32, false, Code(kind)), I32, I32, Zero32, I64],
     Repeat(F32, 9) + [I32, MinusOne32, Fixed(W32, true, 1)],
     Repeat(I64, 11),
     Repeat(Zero64, 3)]
  }

  function VectorFields(v: Vector3): seq<int>
  {
    [v.x as int, v.y as int, v.z as int]
  }

  function HeaderFields(h: Header): (vss: seq<seq<int>>)
    ensures ConformsRuns(HeaderRuns(h.kind), vss)
  {
    var vss := [[h.nameOffset as int, Code(h.kind) as int, h.localIndex as int, h.modelIndex as int,
                 0, h.sourceOffset as int],
                VectorFields(h.position) + VectorFields(h.rotation) + VectorFields(h.scale)
                + [h.unkT44 as int, -1, 1],
                h.offsets,
                [0, 0, 0]];
    assert Conforms(HeaderRuns(h.kind)[0], vss[0]);
    assert Conforms(HeaderRuns(h.kind)[1], vss[1]);
    assert Conforms(HeaderRuns(h.kind)[2], vss[2]);
    assert Conforms(HeaderRuns(h.kind)[3], vss[3]);
    vss
  }

  function BuildHeader(kind: PartType, vss: seq<seq<int>>): (h: Header)
    requires ConformsRuns(HeaderRuns(kind), vss)
    ensures h.kind == kind && HeaderFields(h) == vss
  {
    var a, b, c, d := vss[0], vss[1], vss[2], vss[3];
    assert Conforms(HeaderRuns(kind)[0], a) && Conforms(HeaderRuns(kind)[1], b);
    assert Conforms(HeaderRuns(kind)[2], c) && Conforms(HeaderRuns(kind)[3], d);
    assert vss == [a, b, c, d];
    assert a == [a[0], Code(kind), a[2], a[3], 0, a[5]];
    assert b == [b[0], b[1], b[2]] + [b[3], b[4], b[5]] + [b[6], b[7], b[8]] + [b[9], -1, 1];
    assert d == [0, 0, 0];
    Header(kind, a[0], a[2], a[3], a[5],
           Vector3(b[0], b[1], b[2]), Vector3(b[3], b[4], b[5]), Vector3(b[6], b[7], b[8]),
           b[9], c)
  }

  lemma BuildHeaderFields(h: Header)
    ensures BuildHeader(h.kind, HeaderFields(h)) == h
  {
  }

  function WriteHeader(h: Header): (r: seq<byte>)
  {
    EncodeRuns(HeaderRuns(h.kind), HeaderFields(h))
  }

  /** The header is exactly 0xC0 bytes long, whatever it holds. */
  lemma HeaderLength(h: Header)
    ensures |WriteHeader(h)| == HeaderSize
  {
    var runs := HeaderRuns(h.kind);
    EncodeRunsLength(runs, HeaderFields(h));
    FourRunsSize(runs);
    HeaderRun0Size(h.kind);
    HeaderRun1Size(h.kind);
    SizeRepeat(I64, 11);
    SizeRepeat(Zero64, 3);
  }

  lemma FourRunsSize(runs: seq<seq<Cell>>)
    requires |runs| == 4
    ensures RunsSize(runs) == Size(runs[0]) + Size(runs[1]) + Size(runs[2]) + Size(runs[3])
  {
    var r1, r2, r3 := runs[1..], runs[2..], runs[3..];
    assert r1[1..] == r2 && r2[1..] == r3 && r3[1..] == [];
    assert RunsSize(r3) == Size(runs[3]);
    assert RunsSize(r2) == Size(runs[2]) + RunsSize(r3);
    assert RunsSize(r1) == Size(runs[1]) + RunsSize(r2);
  }

  lemma HeaderRun0Size(kind: PartType)
    ensures Size(HeaderRuns(kind)[0]) == 32
  {
    var r := HeaderRuns(kind)[0];
    assert r[5..][1..] == [];
    assert Size(r[5..]) == 8;
    assert r[4..][1..] == r[5..];
    assert Size(r[4..]) == 12;
    assert r[3..][1..] == r[4..];
    assert Size(r[3..]) == 16;
    assert r[2..][1..] == r[3..];
    assert Size(r[2..]) == 20;
    assert r[1..][1..] == r[2..];
    assert Size(r[1..]) == 24;
  }

  lemma HeaderRun1Size(kind: PartType)
    ensures Size(HeaderRuns(kind)[1]) == 48
  {
    var t := [I32, MinusOne32, Fixed(W32, true, 1)];
    assert t[2..][1..] == [];
    assert Size(t[2..]) == 4;
    assert t[1..][1..] == t[2..];
    assert Size(t[1..]) == 8;
    SizeRepeat(F32, 9);
    SizeConcat(Repeat(F32, 9), t);
  }

  /** Reads the header of a record expected to be of `kind`; a tag word
      naming another kind fails like any other asserted field. */
  function ReadHeader(bytes: seq<byte>, kind: PartType): (r: Result<(Header, seq<byte>)>)
    ensures r.Ok? ==> r.value.0.kind == kind && bytes == WriteHeader(r.value.0) + r.value.1
  {
    var (vss, rest) :- DecodeRuns(HeaderRuns(kind), bytes);
    DecodeRunsSound(HeaderRuns(kind), bytes);
    Ok((BuildHeader(kind, vss), rest))
  }

  /** A header reads back as written, whatever follows it. */
  lemma ReadWriteHeader(h: Header, rest: seq<byte>)
    ensures ReadHeader(WriteHeader(h) + rest, h.kind) == Ok((h, rest))
  {
    DecodeEncodeRuns(HeaderRuns(h.kind), HeaderFields(h), rest);
    BuildHeaderFields(h);
  }

  /** Bytes 8 to 12 of a header hold the kind's tag, little-endian. */
  lemma TagAt(h: Header)
    ensures |WriteHeader(h)| == HeaderSize
    ensures WriteHeader(h)[8..12] == ToLE(Code(h.kind), 4)
  {
    HeaderLength(h);
    var runs, vss := HeaderRuns(h.kind), HeaderFields(h);
    var head := Encode(runs[0], vss[0]);
    EncodeSecond(runs[0], vss[0]);
    TagCell(h.kind);
    EncodeRunsFirst(runs, vss);
    assert WriteHeader(h)[8..12] == head[8..12];
  }

  lemma TagCell(kind: PartType)
    ensures var c := HeaderRuns(kind)[0][1];
            c.Fixed? && EncodeCell(c, c.value) == ToLE(Code(kind), 4)
  {
    var n := Code(kind);
    assert n < 14;
    assert Raw(W32, n) == n;
  }

  /** A header written for one kind is refused when read as any other. */
  lemma HeaderRefusesOtherKind(h: Header, rest: seq<byte>, kind: PartType)
    requires kind != h.kind
    ensures ReadHeader(WriteHeader(h) + rest, kind).Fail?
  {
    var bytes := WriteHeader(h) + rest;
    var r := ReadHeader(bytes, kind);
    if r.Ok? {
      var h' := r.value.0;
      TagAt(h);
      TagAt(h');
      assert bytes[8..12] == WriteHeader(h)[8..12];
      assert bytes[8..12] == WriteHeader(h')[8..12];
      assert Pow256(4) == 0x1_0000_0000;
      ToLEInjective(Code(h.kind), Code(kind), 4);
      CodeRoundTrip(h.kind);
      CodeRoundTrip(kind);
    }
  }
}
