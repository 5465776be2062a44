/** The nine auxiliary-struct slots as one codec: a slot value is one of the
    nine structs, tagged with the slot it belongs in, and the slot decides
    which struct's reader applies. */
module Slots {
  import opened Ints
  import opened Results
  import opened Layout
  import opened PartTypes
  import S = SubStructs

  datatype SlotValue =
    | V50(s50: S.UnkStruct50)
    | V58(s58: S.UnkStruct58)
    | V70(s70: S.UnkStruct70)
    | V78(s78: S.UnkStruct78)
    | V80(s80: S.UnkStruct80)
    | V88(s88: S.UnkStruct88)
    | V90(s90: S.UnkStruct90)
    | V98(s98: S.UnkStruct98)
    | VA0(sA0: S.UnkStructA0)

  /** The slot a value belongs in. */
  function SlotOf(v: SlotValue): Slot
  {
    match v
    case V50(_) => T50
    case V58(_) => T58
    case V70(_) => T70
    case V78(_) => T78
    case V80(_) => T80
    case V88(_) => T88
    case V90(_) => T90
    case V98(_) => T98
    case VA0(_) => TA0
  }

  function WriteSlotValue(v: SlotValue): seq<byte>
  {
    match v
    case V50(s) => S.Write50(s)
    case V58(s) => S.Write58(s)
    case V70(s) => S.Write70(s)
    case V78(s) => S.Write78(s)
    case V80(s) => S.Write80(s)
    case V88(s) => S.Write88(s)
    case V90(s) => S.Write90(s)
    case V98(s) => S.Write98(s)
    case VA0(s) => S.WriteA0(s)
  }

  /** Reads the struct that belongs in `slot`. */
  function ReadSlotValue(slot: Slot, bytes: seq<byte>): Result<(SlotValue, seq<byte>)>
  {
    match slot
    case T50 => ReadV50(bytes)
    case T58 => ReadV58(bytes)
    case T70 => ReadV70(bytes)
    case T78 => ReadV78(bytes)
    case T80 => ReadV80(bytes)
    case T88 => ReadV88(bytes)
    case T90 => ReadV90(bytes)
    case T98 => ReadV98(bytes)
    case TA0 => ReadVA0(bytes)
  }

  /** Every slot value reads back from its own slot, whatever follows it. */
  lemma ReadWriteSlotValue(v: SlotValue, rest: seq<byte>)
    ensures ReadSlotValue(SlotOf(v), WriteSlotValue(v) + rest) == Ok((v, rest))
  {
    match v
    case V50(s) => ReadWriteV50(s, rest);
    case V58(s) => ReadWriteV58(s, rest);
    case V70(s) => ReadWriteV70(s, rest);
    case V78(s) => ReadWriteV78(s, rest);
    case V80(s) => ReadWriteV80(s, rest);
    case V88(s) => ReadWriteV88(s, rest);
    case V90(s) => ReadWriteV90(s, rest);
    case V98(s) => ReadWriteV98(s, rest);
    case VA0(s) => ReadWriteVA0(s, rest);
  }

  /** The readers of T98 and TA0 take exactly the bytes of the struct they
      return. */
  lemma ReadTrailingSound(slot: Slot, bytes: seq<byte>)
    requires slot == T98 || slot == TA0
    requires ReadSlotValue(slot, bytes).Ok?
    ensures var r := ReadSlotValue(slot, bytes).value;
            SlotOf(r.0) == slot && bytes == WriteSlotValue(r.0) + r.1
  {
    if slot == T98 {
      var (s, rest) := S.Read98(bytes).value;
      assert ReadSlotValue(slot, bytes) == Ok((V98(s), rest));
    } else {
      var (s, rest) := S.ReadA0(bytes).value;
      assert ReadSlotValue(slot, bytes) == Ok((VA0(s), rest));
    }
  }

  /** T98 and TA0, the structs a passthrough record ends with, are never
      empty. */
  lemma TrailingSlotsNonEmpty(v: SlotValue)
    requires v.V98? || v.VA0?
    ensures |WriteSlotValue(v)| >= 8
  {
    if v.V98? {
      EncodeLength(S.Layout98, Constants(S.Layout98));
      SizeBounds(S.Layout98);
    } else {
      EncodeLength(S.LayoutA0, Constants(S.LayoutA0));
      SizeBounds(S.LayoutA0);
    }
  }

  // One reader per slot, each wrapping the struct's own reader.

  function ReadV50(bytes: seq<byte>): (r: Result<(SlotValue, seq<byte>)>)
    ensures r.Ok? ==> r.value.0.V50?
  {
    var (s, rest) :- S.Read50(bytes);
    Ok((V50(s), rest))
  }

  lemma ReadWriteV50(s: S.UnkStruct50, rest: seq<byte>)
    ensures ReadSlotValue(T50, WriteSlotValue(V50(s)) + rest) == Ok((V50(s), rest))
  {
    S.ReadWrite50(s, rest);
  }

  function ReadV58(bytes: seq<byte>): (r: Result<(SlotValue, seq<byte>)>)
    ensures r.Ok? ==> r.value.0.V58?
  {
    var (s, rest) :- S.Read58(bytes);
    Ok((V58(s), rest))
  }

  lemma ReadWriteV58(s: S.UnkStruct58, rest: seq<byte>)
    ensures ReadSlotValue(T58, WriteSlotValue(V58(s)) + rest) == Ok((V58(s), rest))
  {
    S.ReadWrite58(s, rest);
  }

  function ReadV70(bytes: seq<byte>): (r: Result<(SlotValue, seq<byte>)>)
    ensures r.Ok? ==> r.value.0.V70?
  {
    var (s, rest) :- S.Read70(bytes);
    Ok((V70(s), rest))
  }

  lemma ReadWriteV70(s: S.UnkStruct70, rest: seq<byte>)
    ensures ReadSlotValue(T70, WriteSlotValue(V70(s)) + rest) == Ok((V70(s), rest))
  {
    S.ReadWrite70(s, rest);
  }

  function ReadV78(bytes: seq<byte>): (r: Result<(SlotValue, seq<byte>)>)
    ensures r.Ok? ==> r.value.0.V78?
  {
    var (s, rest) :- S.Read78(bytes);
    Ok((V78(s), rest))
  }

  lemma ReadWriteV78(s: S.UnkStruct78, rest: seq<byte>)
    ensures ReadSlotValue(T78, WriteSlotValue(V78(s)) + rest) == Ok((V78(s), rest))
  {
    S.ReadWrite78(s, rest);
  }

  function ReadV80(bytes: seq<byte>): (r: Result<(SlotValue, seq<byte>)>)
    ensures r.Ok? ==> r.value.0.V80?
  {
    var (s, rest) :- S.Read80(bytes);
    Ok((V80(s), rest))
  }

  lemma ReadWriteV80(s: S.UnkStruct80, rest: seq<byte>)
    ensures ReadSlotValue(T80, WriteSlotValue(V80(s)) + rest) == Ok((V80(s), rest))
  {
    S.ReadWrite80(s, rest);
  }

  function ReadV88(bytes: seq<byte>): (r: Result<(SlotValue, seq<byte>)>)
    ensures r.Ok? ==> r.value.0.V88?
  {
    var (s, rest) :- S.Read88(bytes);
    Ok((V88(s), rest))
  }

  lemma ReadWriteV88(s: S.UnkStruct88, rest: seq<byte>)
    ensures ReadSlotValue(T88, WriteSlotValue(V88(s)) + rest) == Ok((V88(s), rest))
  {
    S.ReadWrite88(s, rest);
  }

  function ReadV90(bytes: seq<byte>): (r: Result<(SlotValue, seq<byte>)>)
    ensures r.Ok? ==> r.value.0.V90?
  {
    var (s, rest) :- S.Read90(bytes);
    Ok((V90(s), rest))
  }

  lemma ReadWriteV90(s: S.UnkStruct90, rest: seq<byte>)
    ensures ReadSlotValue(T90, WriteSlotValue(V90(s)) + rest) == Ok((V90(s), rest))
  {
    S.ReadWrite90(s, rest);
  }

  function ReadV98(bytes: seq<byte>): (r: Result<(SlotValue, seq<byte>)>)
    ensures r.Ok? ==> r.value.0.V98?
  {
    var (s, rest) :- S.Read98(bytes);
    Ok((V98(s), rest))
  }

  lemma ReadWriteV98(s: S.UnkStruct98, rest: seq<byte>)
    ensures ReadSlotValue(T98, WriteSlotValue(V98(s)) + rest) == Ok((V98(s), rest))
  {
    S.ReadWrite98(s, rest);
  }

  function ReadVA0(bytes: seq<byte>): (r: Result<(SlotValue, seq<byte>)>)
    ensures r.Ok? ==> r.value.0.VA0?
  {
    var (s, rest) :- S.ReadA0(bytes);
    Ok((VA0(s), rest))
  }

  lemma ReadWriteVA0(s: S.UnkStructA0, rest: seq<byte>)
    ensures ReadSlotValue(TA0, WriteSlotValue(VA0(s)) + rest) == Ok((VA0(s), rest))
  {
    S.ReadWriteA0(s, rest);
  }

  /** No slot struct is longer than 0x400 bytes. */
  lemma SlotValueSize(v: SlotValue)
    ensures |WriteSlotValue(v)| <= 0x400
  {
    match v
    case V50(s) => EncodeAtMost(S.Layout50, S.Fields50(s));
    case V58(s) => EncodeAtMost(S.Layout58, S.Fields58(s));
    case V70(s) => EncodeAtMost(S.Layout70, S.Fields70(s));
    case V78(s) => EncodeAtMost(S.Layout78, S.Fields78(s));
    case V80(s) => EncodeAtMost(S.Layout80, S.Fields80(s));
    case V88(s) => EncodeAtMost(S.Layout88, S.Fields88(s));
    case V90(s) => EncodeAtMost(S.Layout90, S.Fields90(s));
    case V98(s) => EncodeAtMost(S.Layout98, Constants(S.Layout98));
    case VA0(s) => EncodeAtMost(S.LayoutA0, Constants(S.LayoutA0));
  }
}
