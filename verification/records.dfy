/** One part record. The 0xC0-byte header is followed by the name, the
    layout path (padded to an 8-byte boundary of the file), then the
    sections in a fixed order: T50, T58, entity data, type data, T70, T78,
    T80, T88, T90, T98, TA0. A slot section is there only when the kind
    declares the slot; the header stores each section's offset from the
    record start, or 0 for a slot the kind lacks. The six passthrough
    kinds are read like the others and then take a byte blob from where
    the last read stopped, but are written as that blob alone. */
module Records {
  import opened Ints
  import opened Results
  import opened Layout
  import opened Utf16
  import opened PartTypes
  import opened Slots
  import opened PartHeader
  import opened TypeDatas
  import Sub = SubStructs

  /** The auxiliary structs of a part, one optional value per slot. */
  datatype SlotTable = SlotTable(
    t50: Option<SlotValue>,
    t58: Option<SlotValue>,
    t70: Option<SlotValue>,
    t78: Option<SlotValue>,
    t80: Option<SlotValue>,
    t88: Option<SlotValue>,
    t90: Option<SlotValue>,
    t98: Option<SlotValue>,
    tA0: Option<SlotValue>)
  {
    function Get(s: Slot): Option<SlotValue>
    {
      match s
      case T50 => t50
      case T58 => t58
      case T70 => t70
      case T78 => t78
      case T80 => t80
      case T88 => t88
      case T90 => t90
      case T98 => t98
      case TA0 => tA0
    }
  }

  datatype Part = Part(
    kind: PartType,
    name: WString,
    localIndex: int32,
    modelIndex: int32,
    layoutPath: WString,
    position: Vector3,
    rotation: Vector3,
    scale: Vector3,
    unkT44: int32,
    entity: Sub.EntityData,
    slots: SlotTable,
    data: TypeData)

  /** A .NET string holds fewer than 2^30 code units. */
  const MaxUnits: nat := 0x4000_0000

  /** What an object of the kind's class can hold: the kind's own payload,
      structs only in the slots the kind declares and each of its slot's
      type, and names of a length a string can have. */
  predicate Valid(p: Part)
  {
    && Carries(p.kind, p.data)
    && |p.name| < MaxUnits && |p.layoutPath| < MaxUnits
    && forall s: Slot :: p.slots.Get(s).Some? ==> HasSlot(p.kind, s) && SlotOf(p.slots.Get(s).value) == s
  }

  /** Every slot the kind declares holds a struct; a part read from a file
      can lack one whose stored offset was zero. */
  predicate Complete(p: Part)
  {
    forall s: Slot :: HasSlot(p.kind, s) ==> p.slots.Get(s).Some?
  }

  /** Names the terminated-string reader gives back whole. */
  predicate Terminable(p: Part)
  {
    NoNul(p.name) && NoNul(p.layoutPath)
  }

  // ---------------------------------------------------------------------
  // Sections.

  datatype Section = SlotSection(slot: Slot) | EntitySection | TypeSection

  /** The sections in header, write and read order. */
  const Sections: seq<Section> :=
    [SlotSection(T50), SlotSection(T58), EntitySection, TypeSection,
     SlotSection(T70), SlotSection(T78), SlotSection(T80), SlotSection(T88),
     SlotSection(T90), SlotSection(T98), SlotSection(TA0)]

  /** Where a slot's offset sits among the header's eleven offsets. */
  function SlotIndex(s: Slot): (k: nat)
    ensures k < 11 && Sections[k] == SlotSection(s)
  {
    match s
    case T50 => 0
    case T58 => 1
    case T70 => 4
    case T78 => 5
    case T80 => 6
    case T88 => 7
    case T90 => 8
    case T98 => 9
    case TA0 => 10
  }

  /** Whether a `kind` record has the section: the entity and type
      sections always, a slot section when the kind declares the slot. */
  predicate Present(kind: PartType, sec: Section)
  {
    match sec
    case SlotSection(s) => HasSlot(kind, s)
    case _ => true
  }

  lemma EntitySize(e: Sub.EntityData)
    ensures |Sub.WriteEntity(e)| <= 0x1000
  {
    EncodeRunsLength(Sub.EntityRuns, Sub.EntityFields(e));
    RunsSizeBounds(Sub.EntityRuns, 9);
  }

  /** The bytes the writer emits for a section; nothing for a slot the
      kind lacks. */
  function SectionBytes(p: Part, sec: Section): (r: seq<byte>)
    requires Valid(p) && Complete(p)
    ensures |r| <= 0x1000
    ensures !Present(p.kind, sec) ==> r == []
  {
    match sec
    case SlotSection(s) =>
      if HasSlot(p.kind, s) then
        SlotValueSize(p.slots.Get(s).value);
        WriteSlotValue(p.slots.Get(s).value)
      else []
    case EntitySection =>
      EntitySize(p.entity);
      Sub.WriteEntity(p.entity)
    case TypeSection =>
      TypeDataSize(p.data);
      WriteTypeData(p.data)
  }

  // ---------------------------------------------------------------------
  // Writing.

  /** Zero bytes up to the next multiple of 8 of the file position `pos`. */
  function Padding(pos: nat): (r: seq<byte>)
    ensures |r| < 8 && (pos + |r|) % 8 == 0
    ensures forall i :: 0 <= i < |r| ==> r[i] == 0
  {
    Repeat(0, (8 - pos % 8) % 8)
  }

  /** What follows the header of a record written at file position `start`:
      the name, the layout path with the padding, then the eleven sections. */
  function Pieces(p: Part, start: nat): (ps: seq<seq<byte>>)
    requires Valid(p) && Complete(p)
    ensures |ps| == 13
  {
    var nameZ, layoutZ := WriteZ(p.name), WriteZ(p.layoutPath);
    [nameZ, layoutZ + Padding(start + HeaderSize + |nameZ| + |layoutZ|)]
    + seq(11, k requires 0 <= k < 11 => SectionBytes(p, Sections[k]))
  }

  lemma PiecesSize(p: Part, start: nat)
    requires Valid(p) && Complete(p)
    ensures |Concat(Pieces(p, start))| <= 13 * 0x1_0000_0000
  {
    var ps := Pieces(p, start);
    forall i | 0 <= i < 13
      ensures |ps[i]| <= 0x1_0000_0000
    {
      if i >= 2 {
        assert ps[i] == SectionBytes(p, Sections[i - 2]);
      }
    }
    ConcatAtMost(ps, 0x1_0000_0000);
  }

  /** The offset the writer stores for section `k`: its position less the
      record start, or 0 when the record lacks it. */
  function SectionOffset(p: Part, start: nat, k: nat): (off: int64)
    requires Valid(p) && Complete(p) && k < 11
    ensures Present(p.kind, Sections[k]) ==> off as int == HeaderSize + Start(Pieces(p, start), 2 + k)
    ensures !Present(p.kind, Sections[k]) ==> off == 0
  {
    if Present(p.kind, Sections[k]) then
      PiecesSize(p, start);
      DropPieces(Pieces(p, start), 2 + k);
      HeaderSize + Start(Pieces(p, start), 2 + k)
    else 0
  }

  /** The header the writer fills in for a record at file position `start`. */
  function RecordHeader(p: Part, start: nat): (h: Header)
    requires Valid(p) && Complete(p)
    ensures h.kind == p.kind && h.nameOffset as int == HeaderSize
    ensures h.sourceOffset as int == HeaderSize + |WriteZ(p.name)|
    ensures forall k :: 0 <= k < 11 ==> h.offsets[k] == SectionOffset(p, start, k)
  {
    Header(p.kind, HeaderSize, p.localIndex, p.modelIndex, HeaderSize + |WriteZ(p.name)|,
           p.position, p.rotation, p.scale, p.unkT44,
           seq(11, k requires 0 <= k < 11 => SectionOffset(p, start, k)))
  }

  /** The record of a part with every declared slot filled. */
  function WriteRecord(p: Part, start: nat): seq<byte>
    requires Valid(p) && Complete(p)
  {
    WriteHeader(RecordHeader(p, start)) + Concat(Pieces(p, start))
  }

  /** Writes a part at file position `start`. A passthrough kind writes its
      blob and pads it to an 8-byte boundary; any other kind writes the
      record, and fails if a declared slot is empty. */
  function WritePart(p: Part, start: nat): (r: Result<seq<byte>>)
    requires Valid(p)
    ensures p.data.RawData? ==>
              && r.Ok?
              && p.data.bytes <= r.value
              && |r.value| < |p.data.bytes| + 8
              && (start + |r.value|) % 8 == 0
              && forall i :: |p.data.bytes| <= i < |r.value| ==> r.value[i] == 0
    ensures !p.data.RawData? ==> (r.Ok? <==> Complete(p))
  {
    match p.data
    case RawData(bytes) => Ok(bytes + Padding(start + |bytes|))
    case _ => if Complete(p) then Ok(WriteRecord(p, start)) else Fail(MissingSubStruct)
  }

  // ---------------------------------------------------------------------
  // Where the writer puts things.

  /** Piece `i` of the record sits at the header size plus its start among
      the pieces. */
  lemma RecordPiece(p: Part, start: nat, i: nat)
    requires Valid(p) && Complete(p) && i < 13
    ensures var ps := Pieces(p, start);
            WrittenAt(WriteRecord(p, start), HeaderSize + Start(ps, i), ps[i])
  {
    HeaderLength(RecordHeader(p, start));
    PieceAfter(WriteHeader(RecordHeader(p, start)), Pieces(p, start), i);
  }

  /** The header comes first. */
  lemma RecordStartsWithHeader(p: Part, start: nat)
    requires Valid(p) && Complete(p)
    ensures WrittenAt(WriteRecord(p, start), 0, WriteHeader(RecordHeader(p, start)))
  {
    var head := WriteHeader(RecordHeader(p, start));
    assert (head + Concat(Pieces(p, start)))[0..|head|] == head;
  }

  /** The name and the layout path sit at the offsets the header stores. */
  lemma RecordStrings(p: Part, start: nat)
    requires Valid(p) && Complete(p)
    ensures var r, h := WriteRecord(p, start), RecordHeader(p, start);
            && WrittenAt(r, h.nameOffset as int, WriteZ(p.name))
            && WrittenAt(r, h.sourceOffset as int, WriteZ(p.layoutPath))
  {
    var ps, h := Pieces(p, start), RecordHeader(p, start);
    var layoutZ := WriteZ(p.layoutPath);
    HeaderLength(h);
    assert layoutZ <= ps[1];
    LeadingPieces(WriteHeader(h), ps, WriteZ(p.name), layoutZ);
  }

  lemma LeadingPieces(head: seq<byte>, ps: seq<seq<byte>>, first: seq<byte>, second: seq<byte>)
    requires |ps| >= 2 && ps[0] == first && second <= ps[1]
    ensures WrittenAt(head + Concat(ps), |head|, first)
    ensures WrittenAt(head + Concat(ps), |head| + |first|, second)
  {
    FirstPieceAfter(head, ps);
    SecondPieceAfter(head, ps);
    PrefixWrittenAt(head + Concat(ps), |head| + |first|, ps[1], second);
  }

  lemma FirstPieceAfter(head: seq<byte>, ps: seq<seq<byte>>)
    requires |ps| >= 1
    ensures WrittenAt(head + Concat(ps), |head|, ps[0])
  {
    PieceAfter(head, ps, 0);
  }

  lemma SecondPieceAfter(head: seq<byte>, ps: seq<seq<byte>>)
    requires |ps| >= 2
    ensures WrittenAt(head + Concat(ps), |head| + |ps[0]|, ps[1])
  {
    PieceAfter(head, ps, 1);
    StartNext(ps, 0);
  }

  /** The first section, T50, which every kind declares, starts on an
      8-byte boundary of the file. */
  lemma RecordAligned(p: Part, start: nat)
    requires Valid(p) && Complete(p)
    ensures (start + RecordHeader(p, start).offsets[0]) % 8 == 0
  {
    var ps := Pieces(p, start);
    assert HasSlot(p.kind, T50);
    StartNext(ps, 0);
    StartNext(ps, 1);
  }

  /** Each section sits at the offset the header stores for it; a slot the
      kind lacks has offset 0. */
  lemma SectionInRecord(p: Part, start: nat, k: nat)
    requires Valid(p) && Complete(p) && k < 11
    ensures var r, off := WriteRecord(p, start), RecordHeader(p, start).offsets[k];
            && (off == 0 <==> !Present(p.kind, Sections[k]))
            && (Present(p.kind, Sections[k]) ==> WrittenAt(r, off as int, SectionBytes(p, Sections[k])))
  {
    var ps, h := Pieces(p, start), RecordHeader(p, start);
    assert h.offsets[k] == SectionOffset(p, start, k);
    assert ps[2 + k] == SectionBytes(p, Sections[k]);
    RecordPiece(p, start, 2 + k);
  }

  // ---------------------------------------------------------------------
  // Reading.

  /** A terminated string at a stored offset; the cursor does not move. */
  function ReadStringAt(data: seq<byte>, start: nat, off: int64): Result<WString>
  {
    var bytes :- Seek(data, start + off);
    ReadZ(bytes)
  }

  /** A slot the reader skipped, or the struct it read and what followed. */
  type SlotRead = Option<(SlotValue, seq<byte>)>

  /** Reads `slot` at a stored offset: not at all when the kind lacks the
      slot or the offset is zero for a slot read only when non-zero; the
      struct of that slot, and what follows it, otherwise. */
  function ReadSlotAt(data: seq<byte>, start: nat, kind: PartType, slot: Slot, off: int64)
    : (r: Result<SlotRead>)
    ensures !HasSlot(kind, slot) ==> r == Ok(None)
    ensures r.Ok? ==> (r.value.Some? <==> HasSlot(kind, slot) && (off != 0 || !SkippedWhenZero(slot)))
    ensures HasSlot(kind, slot) && (off != 0 || !SkippedWhenZero(slot)) && start + off < 0 ==> r == Fail(NegativeSeek)
  {
    if !HasSlot(kind, slot) || (SkippedWhenZero(slot) && off == 0) then Ok(None)
    else
      var bytes :- Seek(data, start + off);
      var (v, rest) :- ReadSlotValue(slot, bytes);
      Ok(Some((v, rest)))
  }

  function ValueOf(r: SlotRead): Option<SlotValue>
  {
    if r.Some? then Some(r.value.0) else None
  }

  function ReadEntityAt(data: seq<byte>, start: nat, off: int64): Result<Sub.EntityData>
  {
    var bytes :- Seek(data, start + off);
    var (e, _) :- Sub.ReadEntity(bytes);
    Ok(e)
  }

  /** The file position of a stored offset; a stream cannot be moved before
      its start. */
  function Position(start: nat, off: int64): (r: Result<nat>)
    ensures r.Ok? <==> start + off >= 0
    ensures r.Ok? ==> r.value == start + off
  {
    if start + off < 0 then Fail(NegativeSeek) else Ok(start + off)
  }

  /** What the reader takes before the type data: the name, the layout
      path, T50, T58 and the entity data. */
  datatype Front = Front(name: WString, layoutPath: WString, r50: SlotRead, r58: SlotRead, entity: Sub.EntityData)

  function ReadFront(data: seq<byte>, start: nat, kind: PartType, h: Header): (r: Result<Front>)
    ensures r.Ok? ==> (r.value.r58.Some? ==> HasSlot(kind, T58))
  {
    var name :- ReadStringAt(data, start, h.nameOffset);
    var layoutPath :- ReadStringAt(data, start, h.sourceOffset);
    var r50 :- ReadSlotAt(data, start, kind, T50, h.offsets[0]);
    var r58 :- ReadSlotAt(data, start, kind, T58, h.offsets[1]);
    var entity :- ReadEntityAt(data, start, h.offsets[2]);
    Ok(Front(name, layoutPath, r50, r58, entity))
  }

  /** The reads of the slots after the type data. */
  datatype BackReads = BackReads(
    r70: SlotRead,
    r78: SlotRead,
    r80: SlotRead,
    r88: SlotRead,
    r90: SlotRead,
    r98: SlotRead,
    rA0: SlotRead)

  function ReadBack(data: seq<byte>, start: nat, kind: PartType, offs: Offsets): (r: Result<BackReads>)
    ensures r.Ok? ==> var b := r.value;
              && (b.r70.Some? ==> HasSlot(kind, T70)) && (b.r78.Some? ==> HasSlot(kind, T78))
              && (b.r80.Some? ==> HasSlot(kind, T80)) && (b.r90.Some? ==> HasSlot(kind, T90))
              && (b.rA0.Some? ==> HasSlot(kind, TA0))
  {
    var r70 :- ReadSlotAt(data, start, kind, T70, offs[4]);
    var r78 :- ReadSlotAt(data, start, kind, T78, offs[5]);
    var r80 :- ReadSlotAt(data, start, kind, T80, offs[6]);
    var r88 :- ReadSlotAt(data, start, kind, T88, offs[7]);
    var r90 :- ReadSlotAt(data, start, kind, T90, offs[8]);
    var r98 :- ReadSlotAt(data, start, kind, T98, offs[9]);
    var rA0 :- ReadSlotAt(data, start, kind, TA0, offs[10]);
    Ok(BackReads(r70, r78, r80, r88, r90, r98, rA0))
  }

  function Table(r50: SlotRead, r58: SlotRead, b: BackReads): SlotTable
  {
    SlotTable(ValueOf(r50), ValueOf(r58), ValueOf(b.r70), ValueOf(b.r78), ValueOf(b.r80),
              ValueOf(b.r88), ValueOf(b.r90), ValueOf(b.r98), ValueOf(b.rA0))
  }

  /** What is left to read after the last struct the reader read, starting
      from `cursor`. */
  function Latest(cursor: seq<byte>, done: seq<SlotRead>): seq<byte>
    decreases |done|
  {
    if |done| == 0 then cursor
    else Latest(if done[0].Some? then done[0].value.1 else cursor, done[1..])
  }

  function LastCursor(cursor: seq<byte>, b: BackReads): seq<byte>
  {
    Latest(cursor, [b.r70, b.r78, b.r80, b.r88, b.r90, b.r98, b.rA0])
  }

  /** A C# cast of a long to an int: the low 32 bits, as two's complement. */
  function Int32Of(n: int64): int32
  {
    RawRoundTrip(W32, true, FromRaw(W32, true, Raw(W32, n)));
    FromRawInRange(W32, true, Raw(W32, n));
    FromRaw(W32, true, Raw(W32, n))
  }

  /** Takes `length` bytes, cast to an int, from what is left to read; a
      negative count or too few bytes fail. */
  function ReadRaw(rest: seq<byte>, length: int64): (r: Result<seq<byte>>)
    ensures r.Ok? <==> 0 <= Int32Of(length) <= |rest|
    ensures r.Ok? ==> r.value == rest[..Int32Of(length)]
    ensures Int32Of(length) < 0 ==> r == Fail(NegativeLength)
  {
    var n := Int32Of(length);
    if n < 0 then Fail(NegativeLength)
    else if n > |rest| then Fail(EndOfData)
    else Ok(rest[..n])
  }

  /** Reads a `kind` record at file position `start` of a file of format
      `version`, in the order the reader works: the header, the name and
      layout path, T50 and T58, the entity data, the type data, then the
      other slots. A passthrough kind then takes `length` bytes from where
      the last read stopped. */
  function ReadPart(data: seq<byte>, start: nat, kind: PartType, version: int32, length: int64): (r: Result<Part>)
    ensures r.Ok? ==> r.value.kind == kind
    ensures r.Ok? && IsRaw(kind) ==> r.value.data.RawData? && |r.value.data.bytes| == Int32Of(length)
    ensures r.Ok? && IsRaw(kind) ==>
              && ReadHeader(Suffix(data, start), kind).Ok?
              && RawAfterLastSlot(data, start, ReadHeader(Suffix(data, start), kind).value.0.offsets, r.value)
  {
    var (h, _) :- ReadHeader(Suffix(data, start), kind);
    var f :- ReadFront(data, start, kind, h);
    var typePos :- Position(start, h.offsets[3]);
    var d :- ReadTypeData(data, typePos, kind, version);
    var back :- ReadBack(data, start, kind, h.offsets);
    var part := Part(kind, f.name, h.localIndex, h.modelIndex, f.layoutPath, h.position, h.rotation, h.scale,
                     h.unkT44, f.entity, Table(f.r50, f.r58, back), d);
    if IsRaw(kind) then
      var bytes :- ReadRaw(LastCursor(Suffix(data, typePos), back), length);
      var q := part.(data := RawData(bytes));
      BackReadA0(data, start, kind, h.offsets, back);
      BackRead98(data, start, kind, h.offsets, back);
      RawLanding(data, start, kind, h.offsets, back, Suffix(data, typePos), length, q);
      Ok(q)
    else
      Ok(part)
  }

  /** The cursor after the reads is the one the last struct read left. */
  lemma {:induction false} LatestSkipped(cursor: seq<byte>, done: seq<SlotRead>)
    requires forall j :: 0 <= j < |done| ==> done[j].None?
    ensures Latest(cursor, done) == cursor
    decreases |done|
  {
    if |done| > 0 {
      LatestSkipped(cursor, done[1..]);
    }
  }

  lemma {:induction false} LatestAt(cursor: seq<byte>, done: seq<SlotRead>, i: nat)
    requires i < |done| && done[i].Some?
    requires forall j :: i < j < |done| ==> done[j].None?
    ensures Latest(cursor, done) == done[i].value.1
    decreases |done|
  {
    var next := if done[0].Some? then done[0].value.1 else cursor;
    if i == 0 {
      LatestSkipped(next, done[1..]);
    } else {
      LatestAt(next, done[1..], i - 1);
    }
  }

  /** A slot read from a stored offset was found whole at that offset, and
      reading goes on right after it. */
  lemma SlotReadAt(data: seq<byte>, start: nat, kind: PartType, slot: Slot, off: int64)
    requires ReadSlotAt(data, start, kind, slot, off).Ok?
    requires ReadSlotAt(data, start, kind, slot, off).value.Some?
    requires slot == T98 || slot == TA0
    ensures var r := ReadSlotAt(data, start, kind, slot, off).value.value;
            var bytes := WriteSlotValue(r.0);
            && WrittenAt(data, start + off, bytes)
            && r.1 == Suffix(data, start + off + |bytes|)
  {
    var r := ReadSlotAt(data, start, kind, slot, off).value.value;
    var cursor := Suffix(data, start + off);
    assert ReadSlotValue(slot, cursor) == Ok(r);
    ReadTrailingSound(slot, cursor);
    TrailingSlotsNonEmpty(r.0);
    var bytes := WriteSlotValue(r.0);
    SuffixIs(data, start + off);
    assert start + off <= |data| && data[start + off..] == bytes + r.1;
    assert data[start + off..start + off + |bytes|] == bytes;
    SuffixStep(data, start + off, bytes, r.1);
  }

  /** Reading goes on after TA0 when it was read, and after T98 when TA0
      was not. */
  lemma LastCursorAfterA0(cursor: seq<byte>, b: BackReads)
    requires b.rA0.Some?
    ensures LastCursor(cursor, b) == b.rA0.value.1
  {
    LatestAt(cursor, [b.r70, b.r78, b.r80, b.r88, b.r90, b.r98, b.rA0], 6);
  }

  lemma LastCursorAfter98(cursor: seq<byte>, b: BackReads)
    requires b.r98.Some? && b.rA0.None?
    ensures LastCursor(cursor, b) == b.r98.value.1
  {
    LatestAt(cursor, [b.r70, b.r78, b.r80, b.r88, b.r90, b.r98, b.rA0], 5);
  }

  /** The last two back reads are those of T98 and TA0 at their offsets. */
  lemma BackRead98(data: seq<byte>, start: nat, kind: PartType, offs: Offsets, b: BackReads)
    requires ReadBack(data, start, kind, offs) == Ok(b)
    ensures ReadSlotAt(data, start, kind, T98, offs[9]) == Ok(b.r98)
  {
  }

  lemma BackReadA0(data: seq<byte>, start: nat, kind: PartType, offs: Offsets, b: BackReads)
    requires ReadBack(data, start, kind, offs) == Ok(b)
    ensures ReadSlotAt(data, start, kind, TA0, offs[10]) == Ok(b.rA0)
  {
  }

  /** When TA0 is read, reading goes on right after it. */
  lemma RawCursorA0(data: seq<byte>, start: nat, kind: PartType, off: int64, b: BackReads, cursor: seq<byte>)
    requires IsRaw(kind) && off != 0
    requires ReadSlotAt(data, start, kind, TA0, off) == Ok(b.rA0)
    ensures b.rA0.Some?
    ensures WrittenAt(data, start + off, WriteSlotValue(b.rA0.value.0))
    ensures LastCursor(cursor, b) == Suffix(data, start + off + |WriteSlotValue(b.rA0.value.0)|)
  {
    SlotReadAt(data, start, kind, TA0, off);
    LastCursorAfterA0(cursor, b);
  }

  /** When TA0 is skipped, reading goes on right after T98, which a
      passthrough kind always reads. */
  lemma RawCursor98(data: seq<byte>, start: nat, kind: PartType, off98: int64, offA0: int64, b: BackReads,
                    cursor: seq<byte>)
    requires IsRaw(kind) && offA0 == 0
    requires ReadSlotAt(data, start, kind, T98, off98) == Ok(b.r98)
    requires ReadSlotAt(data, start, kind, TA0, offA0) == Ok(b.rA0)
    ensures b.r98.Some?
    ensures WrittenAt(data, start + off98, WriteSlotValue(b.r98.value.0))
    ensures LastCursor(cursor, b) == Suffix(data, start + off98 + |WriteSlotValue(b.r98.value.0)|)
  {
    SlotReadAt(data, start, kind, T98, off98);
    LastCursorAfter98(cursor, b);
  }

  /** Where a passthrough part's bytes sit: right after the last struct its
      record's reader read, which is TA0 when the stored TA0 offset is
      non-zero, and T98 otherwise. */
  predicate RawAfterLastSlot(data: seq<byte>, start: nat, offs: Offsets, p: Part)
  {
    var last := if offs[10] != 0 then TA0 else T98;
    var off := if offs[10] != 0 then offs[10] else offs[9];
    && p.data.RawData?
    && p.slots.Get(last).Some?
    && WrittenAt(data, start + off, WriteSlotValue(p.slots.Get(last).value))
    && WrittenAt(data, start + off + |WriteSlotValue(p.slots.Get(last).value)|, p.data.bytes)
  }

  /** Where the bytes a passthrough read took sit in the data when TA0 was
      read, and when it was not. */
  lemma RawBytesAtA0(data: seq<byte>, start: nat, kind: PartType, off: int64, b: BackReads, cursor: seq<byte>,
                     length: int64, bytes: seq<byte>)
    requires IsRaw(kind) && off != 0
    requires ReadSlotAt(data, start, kind, TA0, off) == Ok(b.rA0)
    requires ReadRaw(LastCursor(cursor, b), length) == Ok(bytes)
    ensures b.rA0.Some?
    ensures WrittenAt(data, start + off, WriteSlotValue(b.rA0.value.0))
    ensures WrittenAt(data, start + off + |WriteSlotValue(b.rA0.value.0)|, bytes)
  {
    RawCursorA0(data, start, kind, off, b, cursor);
    var end := start + off + |WriteSlotValue(b.rA0.value.0)|;
    SuffixIs(data, end);
    assert WrittenAt(data, end, bytes);
  }

  lemma RawBytesAt98(data: seq<byte>, start: nat, kind: PartType, off98: int64, offA0: int64, b: BackReads,
                     cursor: seq<byte>, length: int64, bytes: seq<byte>)
    requires IsRaw(kind) && offA0 == 0
    requires ReadSlotAt(data, start, kind, T98, off98) == Ok(b.r98)
    requires ReadSlotAt(data, start, kind, TA0, offA0) == Ok(b.rA0)
    requires ReadRaw(LastCursor(cursor, b), length) == Ok(bytes)
    ensures b.r98.Some? && b.rA0.None?
    ensures WrittenAt(data, start + off98, WriteSlotValue(b.r98.value.0))
    ensures WrittenAt(data, start + off98 + |WriteSlotValue(b.r98.value.0)|, bytes)
  {
    RawCursor98(data, start, kind, off98, offA0, b, cursor);
    var end := start + off98 + |WriteSlotValue(b.r98.value.0)|;
    SuffixIs(data, end);
    assert WrittenAt(data, end, bytes);
  }

  /** The bytes a passthrough read took land right after its last struct:
      TA0 when it was read, T98 when it was not. */
  lemma RawLandingA0(data: seq<byte>, start: nat, offs: Offsets, b: BackReads, p: Part)
    requires offs[10] != 0 && b.rA0.Some? && p.slots.tA0 == ValueOf(b.rA0) && p.data.RawData?
    requires WrittenAt(data, start + offs[10], WriteSlotValue(b.rA0.value.0))
    requires WrittenAt(data, start + offs[10] + |WriteSlotValue(b.rA0.value.0)|, p.data.bytes)
    ensures RawAfterLastSlot(data, start, offs, p)
  {
  }

  lemma RawLanding98(data: seq<byte>, start: nat, offs: Offsets, b: BackReads, p: Part)
    requires offs[10] == 0 && b.r98.Some? && p.slots.t98 == ValueOf(b.r98) && p.data.RawData?
    requires WrittenAt(data, start + offs[9], WriteSlotValue(b.r98.value.0))
    requires WrittenAt(data, start + offs[9] + |WriteSlotValue(b.r98.value.0)|, p.data.bytes)
    ensures RawAfterLastSlot(data, start, offs, p)
  {
  }

  /** The bytes a passthrough read took land right after its last struct. */
  lemma RawLanding(data: seq<byte>, start: nat, kind: PartType, offs: Offsets, b: BackReads, cursor: seq<byte>,
                   length: int64, p: Part)
    requires IsRaw(kind)
    requires ReadSlotAt(data, start, kind, T98, offs[9]) == Ok(b.r98)
    requires ReadSlotAt(data, start, kind, TA0, offs[10]) == Ok(b.rA0)
    requires p.slots.t98 == ValueOf(b.r98) && p.slots.tA0 == ValueOf(b.rA0)
    requires p.data.RawData? && ReadRaw(LastCursor(cursor, b), length) == Ok(p.data.bytes)
    ensures RawAfterLastSlot(data, start, offs, p)
  {
    if offs[10] != 0 {
      RawLandingFromA0(data, start, kind, offs, b, cursor, length, p);
    } else {
      RawLandingFrom98(data, start, kind, offs, b, cursor, length, p);
    }
  }

  lemma RawLandingFromA0(data: seq<byte>, start: nat, kind: PartType, offs: Offsets, b: BackReads,
                         cursor: seq<byte>, length: int64, p: Part)
    requires IsRaw(kind) && offs[10] != 0
    requires ReadSlotAt(data, start, kind, TA0, offs[10]) == Ok(b.rA0)
    requires p.slots.tA0 == ValueOf(b.rA0)
    requires p.data.RawData? && ReadRaw(LastCursor(cursor, b), length) == Ok(p.data.bytes)
    ensures RawAfterLastSlot(data, start, offs, p)
  {
    RawBytesAtA0(data, start, kind, offs[10], b, cursor, length, p.data.bytes);
    RawLandingA0(data, start, offs, b, p);
  }

  lemma RawLandingFrom98(data: seq<byte>, start: nat, kind: PartType, offs: Offsets, b: BackReads,
                         cursor: seq<byte>, length: int64, p: Part)
    requires IsRaw(kind) && offs[10] == 0
    requires ReadSlotAt(data, start, kind, T98, offs[9]) == Ok(b.r98)
    requires ReadSlotAt(data, start, kind, TA0, offs[10]) == Ok(b.rA0)
    requires p.slots.t98 == ValueOf(b.r98)
    requires p.data.RawData? && ReadRaw(LastCursor(cursor, b), length) == Ok(p.data.bytes)
    ensures RawAfterLastSlot(data, start, offs, p)
  {
    RawBytesAt98(data, start, kind, offs[9], offs[10], b, cursor, length, p.data.bytes);
    RawLanding98(data, start, offs, b, p);
  }

  // ---------------------------------------------------------------------
  // Reading back what was written.

  /** A terminated string written at a stored offset reads back whole. */
  lemma ReadStringBack(data: seq<byte>, start: nat, off: int64, w: WString)
    requires NoNul(w) && WrittenAt(data, start + off, WriteZ(w))
    ensures ReadStringAt(data, start, off) == Ok(w)
  {
    WrittenAtSeek(data, start + off, WriteZ(w));
    ReadWriteZ(w, data[start + off + |WriteZ(w)|..]);
  }

  /** What the writer leaves for `slot` of a `kind` record at `start`: when
      the kind declares the slot, a non-zero offset and the value's bytes
      there; nothing otherwise. */
  predicate Placed(data: seq<byte>, start: nat, kind: PartType, slot: Slot, off: int64, v: Option<SlotValue>)
  {
    && (v.Some? <==> HasSlot(kind, slot))
    && (v.Some? ==> SlotOf(v.value) == slot && off != 0 && WrittenAt(data, start + off, WriteSlotValue(v.value)))
  }

  /** A placed slot reads back as written. */
  lemma ReadSlotBack(data: seq<byte>, start: nat, kind: PartType, slot: Slot, off: int64, v: Option<SlotValue>)
    requires Placed(data, start, kind, slot, off, v)
    ensures ReadSlotAt(data, start, kind, slot, off).Ok?
    ensures ValueOf(ReadSlotAt(data, start, kind, slot, off).value) == v
  {
    if v.Some? {
      var bytes := WriteSlotValue(v.value);
      var rest := data[start + off + |bytes|..];
      WrittenAtSeek(data, start + off, bytes);
      ReadWriteSlotValue(v.value, rest);
      assert ReadSlotAt(data, start, kind, slot, off) == Ok(Some((v.value, rest)));
    }
  }

  lemma ReadEntityBack(data: seq<byte>, start: nat, off: int64, e: Sub.EntityData)
    requires WrittenAt(data, start + off, Sub.WriteEntity(e))
    ensures ReadEntityAt(data, start, off) == Ok(e)
  {
    WrittenAtSeek(data, start + off, Sub.WriteEntity(e));
    Sub.ReadWriteEntity(e, data[start + off + |Sub.WriteEntity(e)|..]);
  }

  lemma ReadTypeBack(data: seq<byte>, start: nat, off: int64, kind: PartType, d: TypeData, version: int32)
    requires Carries(kind, d) && !d.RawData? && RereadableWith(d, version)
    requires WrittenAt(data, start + off, WriteTypeData(d))
    ensures Position(start, off) == Ok(start + off)
    ensures ReadTypeData(data, start + off, kind, version) == Ok(Reread(d, version))
  {
    WrittenAtSeek(data, start + off, WriteTypeData(d));
    ReadWriteTypeData(data, start + off, kind, d, data[start + off + |WriteTypeData(d)|..], version);
  }

  /** The front of a record reads back as placed. */
  lemma ReadFrontBack(data: seq<byte>, start: nat, kind: PartType, h: Header, p: Part)
    requires Terminable(p)
    requires WrittenAt(data, start + h.nameOffset, WriteZ(p.name))
    requires WrittenAt(data, start + h.sourceOffset, WriteZ(p.layoutPath))
    requires Placed(data, start, kind, T50, h.offsets[0], p.slots.t50)
    requires Placed(data, start, kind, T58, h.offsets[1], p.slots.t58)
    requires WrittenAt(data, start + h.offsets[2], Sub.WriteEntity(p.entity))
    ensures ReadFront(data, start, kind, h).Ok?
    ensures var f := ReadFront(data, start, kind, h).value;
            && f.name == p.name && f.layoutPath == p.layoutPath && f.entity == p.entity
            && ValueOf(f.r50) == p.slots.t50 && ValueOf(f.r58) == p.slots.t58
  {
    ReadStringBack(data, start, h.nameOffset, p.name);
    ReadStringBack(data, start, h.sourceOffset, p.layoutPath);
    ReadSlotBack(data, start, kind, T50, h.offsets[0], p.slots.t50);
    ReadSlotBack(data, start, kind, T58, h.offsets[1], p.slots.t58);
    ReadEntityBack(data, start, h.offsets[2], p.entity);
  }

  /** The slots after the type data read back as placed. */
  lemma ReadBackBack(data: seq<byte>, start: nat, kind: PartType, offs: Offsets, t: SlotTable)
    requires Placed(data, start, kind, T70, offs[4], t.t70)
    requires Placed(data, start, kind, T78, offs[5], t.t78)
    requires Placed(data, start, kind, T80, offs[6], t.t80)
    requires Placed(data, start, kind, T88, offs[7], t.t88)
    requires Placed(data, start, kind, T90, offs[8], t.t90)
    requires Placed(data, start, kind, T98, offs[9], t.t98)
    requires Placed(data, start, kind, TA0, offs[10], t.tA0)
    ensures ReadBack(data, start, kind, offs).Ok?
    ensures var b := ReadBack(data, start, kind, offs).value;
            && ValueOf(b.r70) == t.t70 && ValueOf(b.r78) == t.t78 && ValueOf(b.r80) == t.t80
            && ValueOf(b.r88) == t.t88 && ValueOf(b.r90) == t.t90 && ValueOf(b.r98) == t.t98
            && ValueOf(b.rA0) == t.tA0
  {
    ReadSlotBack(data, start, kind, T70, offs[4], t.t70);
    ReadSlotBack(data, start, kind, T78, offs[5], t.t78);
    ReadSlotBack(data, start, kind, T80, offs[6], t.t80);
    ReadSlotBack(data, start, kind, T88, offs[7], t.t88);
    ReadSlotBack(data, start, kind, T90, offs[8], t.t90);
    ReadSlotBack(data, start, kind, T98, offs[9], t.t98);
    ReadSlotBack(data, start, kind, TA0, offs[10], t.tA0);
  }

  /** The header fields a part shares with the header it is read from. */
  predicate Describes(h: Header, p: Part)
  {
    && h.kind == p.kind && h.localIndex == p.localIndex && h.modelIndex == p.modelIndex
    && h.position == p.position && h.rotation == p.rotation && h.scale == p.scale && h.unkT44 == p.unkT44
  }

  /** The reader assembles a part from what its steps return. */
  lemma AssemblePart(data: seq<byte>, start: nat, q: Part, h: Header, rest: seq<byte>, f: Front, b: BackReads,
                     version: int32, length: int64)
    requires !IsRaw(q.kind)
    requires Describes(h, q) && ReadHeader(Suffix(data, start), q.kind) == Ok((h, rest))
    requires ReadFront(data, start, q.kind, h) == Ok(f)
    requires f.name == q.name && f.layoutPath == q.layoutPath && f.entity == q.entity
    requires Position(start, h.offsets[3]) == Ok(start + h.offsets[3])
    requires ReadTypeData(data, start + h.offsets[3], q.kind, version) == Ok(q.data)
    requires ReadBack(data, start, q.kind, h.offsets) == Ok(b) && Table(f.r50, f.r58, b) == q.slots
    ensures ReadPart(data, start, q.kind, version, length) == Ok(q)
  {
  }

  // Where a written record puts each thing, in terms of the file holding it.

  lemma HeaderPlacedIn(data: seq<byte>, start: nat, p: Part)
    requires Valid(p) && Complete(p) && WrittenAt(data, start, WriteRecord(p, start))
    ensures start + HeaderSize <= |data|
    ensures var h := RecordHeader(p, start);
            ReadHeader(Suffix(data, start), p.kind) == Ok((h, data[start + HeaderSize..]))
  {
    var h := RecordHeader(p, start);
    var head := WriteHeader(h);
    HeaderLength(h);
    RecordStartsWithHeader(p, start);
    WrittenWithin(data, start, WriteRecord(p, start), 0, head);
    WrittenAtSeek(data, start, head);
    SuffixIs(data, start);
    ReadWriteHeader(h, data[start + HeaderSize..]);
  }

  lemma StringsPlacedIn(data: seq<byte>, start: nat, p: Part)
    requires Valid(p) && Complete(p) && WrittenAt(data, start, WriteRecord(p, start))
    ensures var h := RecordHeader(p, start);
            && WrittenAt(data, start + h.nameOffset, WriteZ(p.name))
            && WrittenAt(data, start + h.sourceOffset, WriteZ(p.layoutPath))
  {
    var r, h := WriteRecord(p, start), RecordHeader(p, start);
    RecordStrings(p, start);
    WrittenWithin(data, start, r, h.nameOffset as int, WriteZ(p.name));
    WrittenWithin(data, start, r, h.sourceOffset as int, WriteZ(p.layoutPath));
  }

  lemma SectionPlacedIn(data: seq<byte>, start: nat, p: Part, k: nat)
    requires Valid(p) && Complete(p) && k < 11 && WrittenAt(data, start, WriteRecord(p, start))
    requires Present(p.kind, Sections[k])
    ensures RecordHeader(p, start).offsets[k] != 0
    ensures WrittenAt(data, start + RecordHeader(p, start).offsets[k], SectionBytes(p, Sections[k]))
  {
    SectionInRecord(p, start, k);
    WrittenWithin(data, start, WriteRecord(p, start), RecordHeader(p, start).offsets[k] as int,
                  SectionBytes(p, Sections[k]));
  }

  lemma SlotPlacedIn(data: seq<byte>, start: nat, p: Part, s: Slot)
    requires Valid(p) && Complete(p) && WrittenAt(data, start, WriteRecord(p, start))
    ensures Placed(data, start, p.kind, s, RecordHeader(p, start).offsets[SlotIndex(s)], p.slots.Get(s))
  {
    var k := SlotIndex(s);
    if HasSlot(p.kind, s) {
      SectionPlacedIn(data, start, p, k);
      assert SectionBytes(p, Sections[k]) == WriteSlotValue(p.slots.Get(s).value);
    }
  }

  lemma FrontPlacedIn(data: seq<byte>, start: nat, p: Part)
    requires Valid(p) && Complete(p) && Terminable(p) && WrittenAt(data, start, WriteRecord(p, start))
    ensures var h := RecordHeader(p, start);
            && ReadFront(data, start, p.kind, h).Ok?
            && var f := ReadFront(data, start, p.kind, h).value;
            && f.name == p.name && f.layoutPath == p.layoutPath && f.entity == p.entity
            && ValueOf(f.r50) == p.slots.t50 && ValueOf(f.r58) == p.slots.t58
  {
    var h := RecordHeader(p, start);
    StringsPlacedIn(data, start, p);
    FrontSlotsPlaced(data, start, p, h);
    ReadFrontBack(data, start, p.kind, h, p);
  }

  lemma FrontSlotsPlaced(data: seq<byte>, start: nat, p: Part, h: Header)
    requires Valid(p) && Complete(p) && WrittenAt(data, start, WriteRecord(p, start))
    requires h == RecordHeader(p, start)
    ensures Placed(data, start, p.kind, T50, h.offsets[0], p.slots.t50)
    ensures Placed(data, start, p.kind, T58, h.offsets[1], p.slots.t58)
    ensures WrittenAt(data, start + h.offsets[2], Sub.WriteEntity(p.entity))
  {
    SlotPlacedIn(data, start, p, T50);
    SlotPlacedIn(data, start, p, T58);
    SectionPlacedIn(data, start, p, 2);
    assert SectionBytes(p, Sections[2]) == Sub.WriteEntity(p.entity);
  }

  lemma TypePlacedIn(data: seq<byte>, start: nat, p: Part, version: int32)
    requires Valid(p) && Complete(p) && !p.data.RawData? && RereadableWith(p.data, version)
    requires WrittenAt(data, start, WriteRecord(p, start))
    ensures var off := RecordHeader(p, start).offsets[3];
            && Position(start, off) == Ok(start + off)
            && ReadTypeData(data, start + off, p.kind, version) == Ok(Reread(p.data, version))
  {
    var off := RecordHeader(p, start).offsets[3];
    SectionPlacedIn(data, start, p, 3);
    assert SectionBytes(p, Sections[3]) == WriteTypeData(p.data);
    ReadTypeBack(data, start, off, p.kind, p.data, version);
  }

  lemma BackPlacedIn(data: seq<byte>, start: nat, p: Part)
    requires Valid(p) && Complete(p) && WrittenAt(data, start, WriteRecord(p, start))
    ensures var offs := RecordHeader(p, start).offsets;
            && ReadBack(data, start, p.kind, offs).Ok?
            && var b := ReadBack(data, start, p.kind, offs).value;
            && ValueOf(b.r70) == p.slots.t70 && ValueOf(b.r78) == p.slots.t78 && ValueOf(b.r80) == p.slots.t80
            && ValueOf(b.r88) == p.slots.t88 && ValueOf(b.r90) == p.slots.t90 && ValueOf(b.r98) == p.slots.t98
            && ValueOf(b.rA0) == p.slots.tA0
  {
    var offs := RecordHeader(p, start).offsets;
    BackSlotsPlaced(data, start, p, offs);
    ReadBackBack(data, start, p.kind, offs, p.slots);
  }

  lemma BackSlotsPlaced(data: seq<byte>, start: nat, p: Part, offs: Offsets)
    requires Valid(p) && Complete(p) && WrittenAt(data, start, WriteRecord(p, start))
    requires offs == RecordHeader(p, start).offsets
    ensures Placed(data, start, p.kind, T70, offs[4], p.slots.t70)
    ensures Placed(data, start, p.kind, T78, offs[5], p.slots.t78)
    ensures Placed(data, start, p.kind, T80, offs[6], p.slots.t80)
    ensures Placed(data, start, p.kind, T88, offs[7], p.slots.t88)
    ensures Placed(data, start, p.kind, T90, offs[8], p.slots.t90)
    ensures Placed(data, start, p.kind, T98, offs[9], p.slots.t98)
    ensures Placed(data, start, p.kind, TA0, offs[10], p.slots.tA0)
  {
    SlotsPlacedFirst(data, start, p, offs);
    SlotsPlacedMiddle(data, start, p, offs);
    SlotsPlacedLast(data, start, p, offs);
    SlotPlacedFinal(data, start, p, offs);
  }

  lemma SlotsPlacedFirst(data: seq<byte>, start: nat, p: Part, offs: Offsets)
    requires Valid(p) && Complete(p) && WrittenAt(data, start, WriteRecord(p, start))
    requires offs == RecordHeader(p, start).offsets
    ensures Placed(data, start, p.kind, T70, offs[4], p.slots.t70)
    ensures Placed(data, start, p.kind, T78, offs[5], p.slots.t78)
  {
    SlotPlacedIn(data, start, p, T70);
    SlotPlacedIn(data, start, p, T78);
  }

  lemma SlotsPlacedMiddle(data: seq<byte>, start: nat, p: Part, offs: Offsets)
    requires Valid(p) && Complete(p) && WrittenAt(data, start, WriteRecord(p, start))
    requires offs == RecordHeader(p, start).offsets
    ensures Placed(data, start, p.kind, T80, offs[6], p.slots.t80)
    ensures Placed(data, start, p.kind, T88, offs[7], p.slots.t88)
  {
    SlotPlacedIn(data, start, p, T80);
    SlotPlacedIn(data, start, p, T88);
  }

  lemma SlotsPlacedLast(data: seq<byte>, start: nat, p: Part, offs: Offsets)
    requires Valid(p) && Complete(p) && WrittenAt(data, start, WriteRecord(p, start))
    requires offs == RecordHeader(p, start).offsets
    ensures Placed(data, start, p.kind, T90, offs[8], p.slots.t90)
    ensures Placed(data, start, p.kind, T98, offs[9], p.slots.t98)
  {
    SlotPlacedIn(data, start, p, T90);
    SlotPlacedIn(data, start, p, T98);
  }

  lemma SlotPlacedFinal(data: seq<byte>, start: nat, p: Part, offs: Offsets)
    requires Valid(p) && Complete(p) && WrittenAt(data, start, WriteRecord(p, start))
    requires offs == RecordHeader(p, start).offsets
    ensures Placed(data, start, p.kind, TA0, offs[10], p.slots.tA0)
  {
    SlotPlacedIn(data, start, p, TA0);
  }

  /** A part written with every declared slot filled reads back from any
      file holding its record at the position it was written for, when
      read as its own kind: exactly as written when read with the version
      its asset payload was written for; with the version read recorded in
      an asset payload when read with a version below 52. */
  lemma ReadWritePart(data: seq<byte>, start: nat, p: Part, version: int32, length: int64)
    requires Valid(p) && Complete(p) && Terminable(p) && !p.data.RawData? && RereadableWith(p.data, version)
    requires WrittenAt(data, start, WriteRecord(p, start))
    ensures ReadPart(data, start, p.kind, version, length) == Ok(p.(data := Reread(p.data, version)))
    ensures ReadableWith(p.data, version) ==> ReadPart(data, start, p.kind, version, length) == Ok(p)
  {
    var h := RecordHeader(p, start);
    HeaderPlacedIn(data, start, p);
    FrontPlacedIn(data, start, p);
    TypePlacedIn(data, start, p, version);
    BackPlacedIn(data, start, p);
    CarriesRawIff(p.kind, p.data);
    var f := ReadFront(data, start, p.kind, h).value;
    var b := ReadBack(data, start, p.kind, h.offsets).value;
    AssemblePart(data, start, p.(data := Reread(p.data, version)), h, data[start + HeaderSize..], f, b,
                 version, length);
  }
}
