/** Fixed-layout binary blocks.

    Every fixed block of the format (the header, the entity block, the
    auxiliary structs, the fixed part of each type payload) is read as a
    straight sequence of little-endian scalars, some of which are
    "asserted": the reader fails unless they hold one known constant, and
    the writer always emits that constant. A block is described here by its
    layout, one `Cell` per scalar in file order, and its contents by a
    sequence of integers of the same length (an asserted cell carries its
    constant). Encoding and decoding are defined once over layouts and
    proved inverse to each other once; each block then only maps its
    fields to and from a value sequence. */
module Layout {
  import opened Ints
  import opened Results

  datatype Width = W8 | W16 | W32 | W64

  function ByteCount(w: Width): nat
  {
    match w
    case W8 => 1
    case W16 => 2
    case W32 => 4
    case W64 => 8
  }

  function Modulus(w: Width): nat
  {
    match w
    case W8 => 0x100
    case W16 => 0x1_0000
    case W32 => 0x1_0000_0000
    case W64 => 0x1_0000_0000_0000_0000
  }

  /** Half the modulus: the bound of the signed range. */
  function Half(w: Width): nat
  {
    match w
    case W8 => 0x80
    case W16 => 0x8000
    case W32 => 0x8000_0000
    case W64 => 0x8000_0000_0000_0000
  }

  lemma ModulusIsPow(w: Width)
    ensures Modulus(w) == Pow256(ByteCount(w))
  {
    assert Pow256(2) == 0x1_0000;
    assert Pow256(4) == 0x1_0000_0000;
    assert Pow256(8) == 0x1_0000_0000_0000_0000;
  }

  /** One scalar of a block, as the reader treats it. */
  datatype Cell =
    | Unsigned(w: Width)                        // ReadByte/ReadUInt32/ReadSingle (raw bits)
    | Signed(w: Width)                          // ReadSByte/ReadInt16/ReadInt32/ReadInt64
    | Boolean                                   // ReadBoolean: one byte, 0 or 1
    | Code8(codes: set<int>)                    // ReadEnum8: one byte naming an enum member
    | Fixed(w: Width, signed: bool, value: int) // Assert*: the reader demands `value`

  function WidthOf(c: Cell): Width
  {
    match c
    case Unsigned(w) => w
    case Signed(w) => w
    case Boolean => W8
    case Code8(_) => W8
    case Fixed(w, _, _) => w
  }

  predicate InRange(w: Width, signed: bool, v: int)
  {
    if signed then -(Half(w) as int) <= v < Half(w) else 0 <= v < Modulus(w)
  }

  /** `v` is a value the cell can hold (for an asserted cell: its constant). */
  predicate Fits(c: Cell, v: int)
  {
    match c
    case Unsigned(w) => InRange(w, false, v)
    case Signed(w) => InRange(w, true, v)
    case Boolean => v == 0 || v == 1
    case Code8(codes) => v in codes && 0 <= v < 0x100
    case Fixed(w, s, value) => v == value && InRange(w, s, v)
  }

  /** `vs` is a possible content of a block with layout `cells`. */
  predicate Conforms(cells: seq<Cell>, vs: seq<int>)
  {
    |cells| == |vs| && forall i :: 0 <= i < |cells| ==> Fits(cells[i], vs[i])
  }

  /** A block laid out as two consecutive blocks conforms exactly when
      each part does. */
  lemma ConformsAppend(a: seq<Cell>, b: seq<Cell>, x: seq<int>, y: seq<int>)
    requires |a| == |x|
    ensures Conforms(a + b, x + y) <==> Conforms(a, x) && Conforms(b, y)
  {
    if Conforms(a, x) && Conforms(b, y) {
      forall i | 0 <= i < |a + b|
        ensures Fits((a + b)[i], (x + y)[i])
      {
        if i >= |a| {
          assert (a + b)[i] == b[i - |a|] && (x + y)[i] == y[i - |x|];
        }
      }
    }
    if Conforms(a + b, x + y) {
      forall i | 0 <= i < |a|
        ensures Fits(a[i], x[i])
      {
        assert (a + b)[i] == a[i] && (x + y)[i] == x[i];
      }
      forall i | 0 <= i < |b|
        ensures Fits(b[i], y[i])
      {
        assert (a + b)[|a| + i] == b[i] && (x + y)[|x| + i] == y[i];
      }
    }
  }

  /** A block all of whose cells are asserted constants. */
  predicate Constant(cells: seq<Cell>)
  {
    forall i :: 0 <= i < |cells| ==> cells[i].Fixed? && InRange(cells[i].w, cells[i].signed, cells[i].value)
  }

  type ConstantLayout = cells: seq<Cell> | Constant(cells) witness []

  /** The one content of such a block. */
  function Constants(cells: seq<Cell>): (vs: seq<int>)
    requires Constant(cells)
    ensures Conforms(cells, vs)
  {
    seq(|cells|, i requires 0 <= i < |cells| => cells[i].value)
  }

  lemma ConformsConstant(cells: seq<Cell>, vs: seq<int>)
    requires Constant(cells) && Conforms(cells, vs)
    ensures vs == Constants(cells)
  {
  }

  /** Two's-complement representation of `v` in `w` (wraps like a C# cast). */
  function Raw(w: Width, v: int): nat
  {
    match w
    case W8 => v % 0x100
    case W16 => v % 0x1_0000
    case W32 => v % 0x1_0000_0000
    case W64 => v % 0x1_0000_0000_0000_0000
  }

  function FromRaw(w: Width, signed: bool, u: nat): int
  {
    if signed && u >= Half(w) then u - Modulus(w) else u
  }

  lemma RawRoundTrip(w: Width, signed: bool, v: int)
    requires InRange(w, signed, v)
    ensures Raw(w, v) < Modulus(w)
    ensures FromRaw(w, signed, Raw(w, v)) == v
  {
  }

  lemma FromRawInRange(w: Width, signed: bool, u: nat)
    requires u < Modulus(w)
    ensures InRange(w, signed, FromRaw(w, signed, u))
    ensures Raw(w, FromRaw(w, signed, u)) == u
  {
  }

  function EncodeCell(c: Cell, v: int): (r: seq<byte>)
    ensures |r| == ByteCount(WidthOf(c))
  {
    ToLE(Raw(WidthOf(c), v), ByteCount(WidthOf(c)))
  }


  /** The writer: every cell in order; an asserted cell writes its constant. */
  function Encode(cells: seq<Cell>, vs: seq<int>): (r: seq<byte>)
    requires |cells| == |vs|
  {
    if |cells| == 0 then []
    else
      var v := if cells[0].Fixed? then cells[0].value else vs[0];
      EncodeCell(cells[0], v) + Encode(cells[1..], vs[1..])
  }

  /** Whether the cell's raw bits are read as two's complement. */
  predicate SignedCell(c: Cell)
  {
    c.Signed? || (c.Fixed? && c.signed)
  }

  /** Whether the reader takes a value it has read for this cell. */
  predicate Accepts(c: Cell, v: int)
  {
    match c
    case Boolean => v == 0 || v == 1
    case Code8(codes) => v in codes
    case Fixed(_, _, value) => v == value
    case _ => true
  }

  /** How the reader fails on a value it does not take. */
  function Refusal(c: Cell): Error
  {
    match c
    case Boolean => InvalidBoolean
    case Code8(_) => UndefinedEnumValue
    case _ => AssertionFailed
  }

  /** Reads one cell from the front of `s`, returning its value and the
      bytes after it; fails when `s` is too short or the value is refused. */
  function DecodeCell(c: Cell, s: seq<byte>): (r: Result<(int, seq<byte>)>)
    ensures r.Ok? ==> Fits(c, r.value.0)
  {
    var n := ByteCount(WidthOf(c));
    if |s| < n then Fail(EndOfData)
    else
      var u := FromLE(s[..n]);
      var v := FromRaw(WidthOf(c), SignedCell(c), u);
      ModulusIsPow(WidthOf(c));
      FromRawInRange(WidthOf(c), SignedCell(c), u);
      if Accepts(c, v) then Ok((v, s[n..])) else Fail(Refusal(c))
  }

  /** What the cell reader accepts is the cell writer's output for it. */
  lemma DecodeCellSound(c: Cell, s: seq<byte>)
    requires DecodeCell(c, s).Ok?
    ensures s == EncodeCell(c, DecodeCell(c, s).value.0) + DecodeCell(c, s).value.1
  {
    var n := ByteCount(WidthOf(c));
    var bs := s[..n];
    ModulusIsPow(WidthOf(c));
    ToFromLE(bs);
    FromRawInRange(WidthOf(c), SignedCell(c), FromLE(bs));
    assert s == bs + s[n..];
  }

  lemma DecodeEncodeCell(c: Cell, v: int, rest: seq<byte>)
    requires Fits(c, v)
    ensures DecodeCell(c, EncodeCell(c, v) + rest) == Ok((v, rest))
  {
    var w := WidthOf(c);
    var e := EncodeCell(c, v);
    assert (e + rest)[..|e|] == e;
    assert (e + rest)[|e|..] == rest;
    ModulusIsPow(w);
    RawRoundTrip(w, SignedCell(c), v);
    FromToLE(Raw(w, v), ByteCount(w));
  }

  /** The reader: every cell in order, failing at the first refused cell;
      returns the values and the bytes after the block. */
  function Decode(cells: seq<Cell>, s: seq<byte>): (r: Result<(seq<int>, seq<byte>)>)
    ensures r.Ok? ==> Conforms(cells, r.value.0)
    decreases |cells|
  {
    if |cells| == 0 then Ok(([], s))
    else match DecodeCell(cells[0], s)
      case Fail(e) => Fail(e)
      case Ok((v, s1)) =>
        match Decode(cells[1..], s1)
        case Fail(e) => Fail(e)
        case Ok((rest, s2)) =>
          assert ([v] + rest)[1..] == rest;
          Ok(([v] + rest, s2))
  }

  lemma ConformsTail(cells: seq<Cell>, vs: seq<int>)
    requires Conforms(cells, vs) && |cells| > 0
    ensures Fits(cells[0], vs[0]) && Conforms(cells[1..], vs[1..])
  {
    forall i | 0 <= i < |cells| - 1
      ensures Fits(cells[1..][i], vs[1..][i])
    {
      assert cells[1..][i] == cells[i + 1] && vs[1..][i] == vs[i + 1];
    }
  }

  /** One unfolding of `Encode` on conforming values. */
  lemma EncodeStep(cells: seq<Cell>, vs: seq<int>)
    requires Conforms(cells, vs) && |cells| > 0
    ensures Encode(cells, vs) == EncodeCell(cells[0], vs[0]) + Encode(cells[1..], vs[1..])
  {
  }

  /** The reader recovers what the writer wrote and leaves exactly what
      follows it. */
  lemma {:induction false} DecodeEncode(cells: seq<Cell>, vs: seq<int>, rest: seq<byte>)
    requires Conforms(cells, vs)
    ensures Decode(cells, Encode(cells, vs) + rest) == Ok((vs, rest))
    decreases |cells|
  {
    if |cells| == 0 {
      assert vs == [];
      assert Encode(cells, vs) + rest == rest;
    } else {
      ConformsTail(cells, vs);
      EncodeStep(cells, vs);
      var head := EncodeCell(cells[0], vs[0]);
      var tail := Encode(cells[1..], vs[1..]);
      assert Encode(cells, vs) + rest == head + (tail + rest);
      DecodeEncodeCell(cells[0], vs[0], tail + rest);
      DecodeEncode(cells[1..], vs[1..], rest);
      assert [vs[0]] + vs[1..] == vs;
    }
  }

  /** Whatever the reader accepts is exactly the writer's output for the
      values it returns, followed by the bytes it leaves. */
  lemma {:induction false} DecodeSound(cells: seq<Cell>, s: seq<byte>)
    requires Decode(cells, s).Ok?
    ensures var (vs, rest) := Decode(cells, s).value;
            s == Encode(cells, vs) + rest
    decreases |cells|
  {
    if |cells| > 0 {
      var (v, s1) := DecodeCell(cells[0], s).value;
      var (tail, rest) := Decode(cells[1..], s1).value;
      DecodeCellSound(cells[0], s);
      DecodeSound(cells[1..], s1);
      var vs := [v] + tail;
      assert vs[1..] == tail;
      assert Encode(cells, vs) == EncodeCell(cells[0], v) + Encode(cells[1..], tail);
      assert s == EncodeCell(cells[0], v) + (Encode(cells[1..], tail) + rest);
    }
  }

  /** The reader succeeds exactly on the inputs that begin with an
      encoding of some conforming content. */
  lemma DecodeAcceptsExactlyEncodings(cells: seq<Cell>, s: seq<byte>)
    ensures Decode(cells, s).Ok? <==>
            exists vs, rest :: Conforms(cells, vs) && s == Encode(cells, vs) + rest
  {
    if exists vs, rest :: Conforms(cells, vs) && s == Encode(cells, vs) + rest {
      var vs, rest :| Conforms(cells, vs) && s == Encode(cells, vs) + rest;
      DecodeEncode(cells, vs, rest);
    }
    if Decode(cells, s).Ok? {
      DecodeSound(cells, s);
    }
  }

  /** The second cell of a block sits right after the first. */
  lemma EncodeSecond(cells: seq<Cell>, vs: seq<int>)
    requires |cells| == |vs| >= 2
    ensures var a, b := ByteCount(WidthOf(cells[0])), ByteCount(WidthOf(cells[1]));
            && a + b <= |Encode(cells, vs)|
            && Encode(cells, vs)[a..a + b]
               == EncodeCell(cells[1], if cells[1].Fixed? then cells[1].value else vs[1])
  {
    assert cells[1..][0] == cells[1] && vs[1..][0] == vs[1];
  }

  /** Byte width of a layout: every encoding of it has this length. */
  function Size(cells: seq<Cell>): nat
  {
    if |cells| == 0 then 0 else ByteCount(WidthOf(cells[0])) + Size(cells[1..])
  }

  lemma {:induction false} EncodeLength(cells: seq<Cell>, vs: seq<int>)
    requires |cells| == |vs|
    ensures |Encode(cells, vs)| == Size(cells)
    decreases |cells|
  {
    if |cells| > 0 {
      EncodeLength(cells[1..], vs[1..]);
    }
  }

  /** No encoding takes more than eight bytes a cell. */
  lemma EncodeAtMost(cells: seq<Cell>, vs: seq<int>)
    requires |cells| == |vs|
    ensures |Encode(cells, vs)| <= 8 * |cells|
  {
    EncodeLength(cells, vs);
    SizeBounds(cells);
  }

  lemma {:induction false} SizeConcat(a: seq<Cell>, b: seq<Cell>)
    ensures Size(a + b) == Size(a) + Size(b)
    decreases |a|
  {
    if |a| > 0 {
      assert (a + b)[1..] == a[1..] + b;
      SizeConcat(a[1..], b);
    } else {
      assert a + b == b;
    }
  }

  lemma {:induction false} SizeRepeat(c: Cell, n: nat)
    ensures Size(Repeat(c, n)) == n * ByteCount(WidthOf(c))
  {
    if n > 0 {
      assert Repeat(c, n)[1..] == Repeat(c, n - 1);
      SizeRepeat(c, n - 1);
    }
  }

  /** Every cell takes between one and eight bytes. */
  lemma {:induction false} SizeBounds(cells: seq<Cell>)
    ensures |cells| <= Size(cells) <= 8 * |cells|
  {
    if |cells| > 0 {
      SizeBounds(cells[1..]);
    }
  }

  // ---------------------------------------------------------------------
  // Blocks read as several consecutive runs of cells.

  /** Each run's content conforms to its layout. */
  predicate ConformsRuns(layouts: seq<seq<Cell>>, vss: seq<seq<int>>)
  {
    |layouts| == |vss| && forall i :: 0 <= i < |layouts| ==> Conforms(layouts[i], vss[i])
  }

  function EncodeRuns(layouts: seq<seq<Cell>>, vss: seq<seq<int>>): seq<byte>
    requires ConformsRuns(layouts, vss)
  {
    if |layouts| == 0 then [] else Encode(layouts[0], vss[0]) + EncodeRuns(layouts[1..], vss[1..])
  }

  function DecodeRuns(layouts: seq<seq<Cell>>, s: seq<byte>): (r: Result<(seq<seq<int>>, seq<byte>)>)
    ensures r.Ok? ==> ConformsRuns(layouts, r.value.0)
    decreases |layouts|
  {
    if |layouts| == 0 then Ok(([], s))
    else match Decode(layouts[0], s)
      case Fail(e) => Fail(e)
      case Ok((vs, s1)) =>
        match DecodeRuns(layouts[1..], s1)
        case Fail(e) => Fail(e)
        case Ok((rest, s2)) =>
          assert ([vs] + rest)[1..] == rest;
          Ok(([vs] + rest, s2))
  }

  /** The first run is written first. */
  lemma EncodeRunsFirst(layouts: seq<seq<Cell>>, vss: seq<seq<int>>)
    requires ConformsRuns(layouts, vss) && |layouts| > 0
    ensures Encode(layouts[0], vss[0]) <= EncodeRuns(layouts, vss)
  {
  }

  lemma {:induction false} DecodeEncodeRuns(layouts: seq<seq<Cell>>, vss: seq<seq<int>>, rest: seq<byte>)
    requires ConformsRuns(layouts, vss)
    ensures DecodeRuns(layouts, EncodeRuns(layouts, vss) + rest) == Ok((vss, rest))
    decreases |layouts|
  {
    if |layouts| == 0 {
      assert vss == [];
      assert EncodeRuns(layouts, vss) + rest == rest;
    } else {
      var head := Encode(layouts[0], vss[0]);
      var tail := EncodeRuns(layouts[1..], vss[1..]);
      assert ConformsRuns(layouts[1..], vss[1..]) by {
        forall i | 0 <= i < |layouts| - 1
          ensures Conforms(layouts[1..][i], vss[1..][i])
        {
          assert layouts[1..][i] == layouts[i + 1] && vss[1..][i] == vss[i + 1];
        }
      }
      assert EncodeRuns(layouts, vss) + rest == head + (tail + rest);
      DecodeEncode(layouts[0], vss[0], tail + rest);
      DecodeEncodeRuns(layouts[1..], vss[1..], rest);
      assert [vss[0]] + vss[1..] == vss;
    }
  }

  lemma {:induction false} DecodeRunsSound(layouts: seq<seq<Cell>>, s: seq<byte>)
    requires DecodeRuns(layouts, s).Ok?
    ensures var (vss, rest) := DecodeRuns(layouts, s).value;
            s == EncodeRuns(layouts, vss) + rest
    decreases |layouts|
  {
    if |layouts| > 0 {
      var (vs, s1) := Decode(layouts[0], s).value;
      DecodeSound(layouts[0], s);
      DecodeRunsSound(layouts[1..], s1);
      var (vss, rest) := DecodeRuns(layouts, s).value;
      assert vss[0] == vs && vss[1..] == DecodeRuns(layouts[1..], s1).value.0;
    }
  }

  /** Byte width of a run sequence. */
  function RunsSize(layouts: seq<seq<Cell>>): nat
  {
    if |layouts| == 0 then 0 else Size(layouts[0]) + RunsSize(layouts[1..])
  }

  lemma {:induction false} EncodeRunsLength(layouts: seq<seq<Cell>>, vss: seq<seq<int>>)
    requires ConformsRuns(layouts, vss)
    ensures |EncodeRuns(layouts, vss)| == RunsSize(layouts)
    decreases |layouts|
  {
    if |layouts| > 0 {
      EncodeLength(layouts[0], vss[0]);
      assert ConformsRuns(layouts[1..], vss[1..]) by {
        forall i | 0 <= i < |layouts| - 1
          ensures Conforms(layouts[1..][i], vss[1..][i])
        {
          assert layouts[1..][i] == layouts[i + 1] && vss[1..][i] == vss[i + 1];
        }
      }
      EncodeRunsLength(layouts[1..], vss[1..]);
    }
  }

  /** A run sequence is at least as wide as its first run and at most
      eight bytes per cell when no run has more than `n` cells. */
  lemma {:induction false} RunsSizeBounds(layouts: seq<seq<Cell>>, n: nat)
    requires forall i :: 0 <= i < |layouts| ==> |layouts[i]| <= n
    ensures |layouts| > 0 ==> |layouts[0]| <= RunsSize(layouts)
    ensures RunsSize(layouts) <= 8 * n * |layouts|
    decreases |layouts|
  {
    if |layouts| > 0 {
      SizeBounds(layouts[0]);
      assert forall i :: 0 <= i < |layouts| - 1 ==> layouts[1..][i] == layouts[i + 1];
      RunsSizeBounds(layouts[1..], n);
      assert 8 * n * |layouts| == 8 * n + 8 * n * (|layouts| - 1);
    }
  }

  // ---------------------------------------------------------------------
  // Pieces laid end to end, and seeking to them.

  /** Byte strings laid end to end, as a writer emits consecutive pieces. */
  function Concat(pieces: seq<seq<byte>>): seq<byte>
  {
    if |pieces| == 0 then [] else pieces[0] + Concat(pieces[1..])
  }

  /** Where piece `i` starts in the concatenation: the total length of the
      pieces before it. */
  function Start(pieces: seq<seq<byte>>, i: nat): nat
    requires i <= |pieces|
  {
    if i == 0 then 0 else |pieces[0]| + Start(pieces[1..], i - 1)
  }

  lemma {:induction false} StartNext(pieces: seq<seq<byte>>, i: nat)
    requires i < |pieces|
    ensures Start(pieces, i + 1) == Start(pieces, i) + |pieces[i]|
  {
    if i > 0 {
      StartNext(pieces[1..], i - 1);
    }
  }

  /** Cutting a concatenation where piece `i` starts leaves the pieces from
      `i` on. */
  lemma {:induction false} DropPieces(pieces: seq<seq<byte>>, i: nat)
    requires i <= |pieces|
    ensures Start(pieces, i) <= |Concat(pieces)|
    ensures Concat(pieces)[Start(pieces, i)..] == Concat(pieces[i..])
  {
    if i > 0 {
      DropPieces(pieces[1..], i - 1);
      assert pieces[1..][i - 1..] == pieces[i..];
      assert (pieces[0] + Concat(pieces[1..]))[|pieces[0]|..] == Concat(pieces[1..]);
    }
  }

  /** Pieces of at most `b` bytes each make at most `b` bytes per piece. */
  lemma {:induction false} ConcatAtMost(pieces: seq<seq<byte>>, b: nat)
    requires forall i :: 0 <= i < |pieces| ==> |pieces[i]| <= b
    ensures |Concat(pieces)| <= |pieces| * b
  {
    if |pieces| > 0 {
      assert forall i :: 0 <= i < |pieces| - 1 ==> pieces[1..][i] == pieces[i + 1];
      ConcatAtMost(pieces[1..], b);
      assert |pieces| * b == b + (|pieces| - 1) * b;
    }
  }

  /** Moving the cursor to absolute position `pos`: a stream position cannot
      be negative; past the end there is nothing left to read. */
  function Seek(data: seq<byte>, pos: int): (r: Result<seq<byte>>)
    ensures r.Ok? <==> pos >= 0
    ensures r.Ok? ==> r.value == Suffix(data, pos)
  {
    if pos < 0 then Fail(NegativeSeek) else Ok(Suffix(data, pos))
  }

  /** What is left to read from position `pos` on. */
  function Suffix(data: seq<byte>, pos: nat): (r: seq<byte>)
    ensures |r| == if pos <= |data| then |data| - pos else 0
    decreases pos
  {
    if pos == 0 then data
    else if |data| == 0 then []
    else Suffix(data[1..], pos - 1)
  }

  /** Within the data, the suffix is the slice from `pos` on. */
  lemma {:induction false} SuffixIs(data: seq<byte>, pos: nat)
    ensures pos <= |data| ==> Suffix(data, pos) == data[pos..]
    ensures pos > |data| ==> Suffix(data, pos) == []
    decreases pos
  {
    if pos > 0 && |data| > 0 {
      SuffixIs(data[1..], pos - 1);
      if pos <= |data| {
        assert data[1..][pos - 1..] == data[pos..];
      }
    }
  }

  /** Reading past a block that starts at `pos` leaves what follows it. */
  lemma SuffixStep(data: seq<byte>, pos: nat, block: seq<byte>, rest: seq<byte>)
    requires Suffix(data, pos) == block + rest
    ensures Suffix(data, pos + |block|) == rest
  {
    SuffixIs(data, pos);
    SuffixIs(data, pos + |block|);
    if pos <= |data| {
      assert data[pos + |block|..] == data[pos..][|block|..];
      assert (block + rest)[|block|..] == rest;
    }
  }

  /** Skipping `k` bytes into a block written at `start` leaves the rest
      of the block, then whatever followed it. */
  lemma SuffixSkip(data: seq<byte>, start: nat, k: nat, block: seq<byte>, rest: seq<byte>)
    requires start <= |data| && data[start..] == block + rest
    requires k <= |block|
    ensures Suffix(data, start + k) == block[k..] + rest
  {
    SuffixIs(data, start + k);
    assert data[start + k..] == data[start..][k..];
    assert (block + rest)[k..] == block[k..] + rest;
  }

  /** Five blocks written one after the other from `pos`: a seek past the
      first lands on the second, and so on. */
  lemma SuffixChain(data: seq<byte>, pos: nat, b0: seq<byte>, b1: seq<byte>, b2: seq<byte>,
                    b3: seq<byte>, b4: seq<byte>, rest: seq<byte>)
    requires Suffix(data, pos) == (b0 + (b1 + (b2 + (b3 + b4)))) + rest
    ensures Seek(data, pos + |b0|) == Ok(b1 + ((b2 + (b3 + b4)) + rest))
    ensures Seek(data, pos + |b0| + |b1|) == Ok(b2 + ((b3 + b4) + rest))
    ensures Seek(data, pos + |b0| + |b1| + |b2|) == Ok(b3 + (b4 + rest))
    ensures Seek(data, pos + |b0| + |b1| + |b2| + |b3|) == Ok(b4 + rest)
  {
    var t1 := b1 + (b2 + (b3 + b4));
    var t2 := b2 + (b3 + b4);
    var t3 := b3 + b4;
    AppendAssoc(b0, t1, rest);
    SuffixStep(data, pos, b0, t1 + rest);
    AppendAssoc(b1, t2, rest);
    SuffixStep(data, pos + |b0|, b1, t2 + rest);
    AppendAssoc(b2, t3, rest);
    SuffixStep(data, pos + |b0| + |b1|, b2, t3 + rest);
    AppendAssoc(b3, b4, rest);
    SuffixStep(data, pos + |b0| + |b1| + |b2|, b3, b4 + rest);
  }

  /** Pieces written from `start` on are found again by seeking to `start`
      plus their start in the concatenation. */
  lemma SeekPiece(data: seq<byte>, start: nat, pieces: seq<seq<byte>>, rest: seq<byte>, i: nat)
    requires start <= |data| && data[start..] == Concat(pieces) + rest
    requires i < |pieces|
    ensures Seek(data, start + Start(pieces, i)) == Ok(pieces[i] + (Concat(pieces[i + 1..]) + rest))
  {
    var k := Start(pieces, i);
    var block := Concat(pieces);
    var here, later := pieces[i], Concat(pieces[i + 1..]);
    DropPieces(pieces, i);
    ConcatFrom(pieces, i);
    assert block[k..] == here + later;
    SuffixSkip(data, start, k, block, rest);
    AppendAssoc(here, later, rest);
    var tail := Suffix(data, start + k);
    assert tail == here + (later + rest);
    assert Seek(data, start + k) == Ok(tail);
  }

  /** `bytes` occupy the data from `pos` on. */
  predicate WrittenAt(data: seq<byte>, pos: int, bytes: seq<byte>)
  {
    0 <= pos && pos + |bytes| <= |data| && data[pos..pos + |bytes|] == bytes
  }

  /** Seeking to bytes written at `pos` finds them, followed by the rest. */
  lemma WrittenAtSeek(data: seq<byte>, pos: int, bytes: seq<byte>)
    requires WrittenAt(data, pos, bytes)
    ensures pos <= |data| && data[pos..] == bytes + data[pos + |bytes|..]
    ensures Seek(data, pos) == Ok(bytes + data[pos + |bytes|..])
  {
    SuffixIs(data, pos);
    assert data[pos..] == data[pos..pos + |bytes|] + data[pos + |bytes|..];
  }

  /** Bytes written inside a block are found in the data where the block
      was written, shifted by the block's position. */
  lemma WrittenWithin(data: seq<byte>, pos: int, block: seq<byte>, k: int, bytes: seq<byte>)
    requires WrittenAt(data, pos, block) && WrittenAt(block, k, bytes)
    ensures WrittenAt(data, pos + k, bytes)
  {
    forall i | 0 <= i < |bytes|
      ensures data[pos + k + i] == bytes[i]
    {
      assert block[k + i] == bytes[i];
      assert data[pos..pos + |block|][k + i] == data[pos + k + i];
    }
    assert data[pos + k..pos + k + |bytes|] == bytes;
  }

  /** A prefix of a block sits where the block does. */
  lemma PrefixWrittenAt(data: seq<byte>, pos: int, block: seq<byte>, prefix: seq<byte>)
    requires WrittenAt(data, pos, block) && prefix <= block
    ensures WrittenAt(data, pos, prefix)
  {
    assert data[pos..pos + |prefix|] == data[pos..pos + |block|][..|prefix|];
  }

  /** Each piece sits at its start in the concatenation. */
  lemma PieceWrittenAt(pieces: seq<seq<byte>>, i: nat)
    requires i < |pieces|
    ensures WrittenAt(Concat(pieces), Start(pieces, i), pieces[i])
  {
    DropPieces(pieces, i);
    ConcatFrom(pieces, i);
    var all, k := Concat(pieces), Start(pieces, i);
    assert all[k..] == pieces[i] + Concat(pieces[i + 1..]);
    assert all[k..k + |pieces[i]|] == all[k..][..|pieces[i]|];
  }

  /** A piece written after a head sits at the head's length plus its start
      among the pieces. */
  lemma PieceAfter(head: seq<byte>, pieces: seq<seq<byte>>, i: nat)
    requires i < |pieces|
    ensures WrittenAt(head + Concat(pieces), |head| + Start(pieces, i), pieces[i])
  {
    var all := head + Concat(pieces);
    assert all[|head|..|head| + |Concat(pieces)|] == Concat(pieces);
    PieceWrittenAt(pieces, i);
    WrittenWithin(all, |head|, Concat(pieces), Start(pieces, i), pieces[i]);
  }

  /** Where each of four blocks written after `front` sits in the whole. */
  lemma SliceFour(front: seq<byte>, b0: seq<byte>, b1: seq<byte>, b2: seq<byte>, b3: seq<byte>)
    ensures var all, k := front + (b0 + (b1 + (b2 + b3))), |front|;
            && all[k..k + |b0|] == b0
            && all[k + |b0|..k + |b0| + |b1|] == b1
            && all[k + |b0| + |b1|..k + |b0| + |b1| + |b2|] == b2
            && all[k + |b0| + |b1| + |b2|..] == b3
  {
    var all, k := front + (b0 + (b1 + (b2 + b3))), |front|;
    assert all[k..] == b0 + (b1 + (b2 + b3));
    assert all[k + |b0|..] == b1 + (b2 + b3);
    assert all[k + |b0| + |b1|..] == b2 + b3;
  }

  lemma AppendAssoc(a: seq<byte>, b: seq<byte>, c: seq<byte>)
    ensures (a + b) + c == a + (b + c)
  {
  }

  /** The first piece written at `start` is what is left to read there. */
  lemma FirstPiece(data: seq<byte>, start: nat, pieces: seq<seq<byte>>, rest: seq<byte>)
    requires start <= |data| && data[start..] == Concat(pieces) + rest
    requires 0 < |pieces|
    ensures Suffix(data, start) == pieces[0] + (Concat(pieces[1..]) + rest)
  {
    SuffixIs(data, start);
    AppendAssoc(pieces[0], Concat(pieces[1..]), rest);
  }

  lemma ConcatFrom(pieces: seq<seq<byte>>, i: nat)
    requires i < |pieces|
    ensures Concat(pieces[i..]) == pieces[i] + Concat(pieces[i + 1..])
  {
    assert pieces[i..][0] == pieces[i] && pieces[i..][1..] == pieces[i + 1..];
  }

  // Layout building blocks.

  const U8 := Unsigned(W8)
  const S8 := Signed(W8)
  const I16 := Signed(W16)
  const U32 := Unsigned(W32)
  const I32 := Signed(W32)
  const I64 := Signed(W64)
  const F32 := Unsigned(W32)  // a float, kept as its bit pattern
  const Zero8 := Fixed(W8, false, 0)
  const MinusOne8 := Fixed(W8, true, -1)
  const Zero16 := Fixed(W16, true, 0)
  const MinusOne16 := Fixed(W16, true, -1)
  const Zero32 := Fixed(W32, true, 0)
  const MinusOne32 := Fixed(W32, true, -1)
  const Zero64 := Fixed(W64, true, 0)

  function Repeat<T>(x: T, n: nat): (r: seq<T>)
    ensures |r| == n && forall i :: 0 <= i < n ==> r[i] == x
  {
    seq(n, _ => x)
  }
}
