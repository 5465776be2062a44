/** The part kinds, their 32-bit type codes, and the per-kind table of
    auxiliary-struct slots. */
module PartTypes {
  import opened Results

  datatype PartType =
    | MapPiece | Object | Enemy | Item | Player | Collision | NPCWander
    | Protoboss | Navmesh | DummyAsset | DummyEnemy | ConnectCollision
    | Invalid | Asset

  /** The value of the type tag written at offset 8 of a record. */
  function Code(t: PartType): nat
  {
    match t
    case MapPiece => 0
    case Object => 1
    case Enemy => 2
    case Item => 3
    case Player => 4
    case Collision => 5
    case NPCWander => 6
    case Protoboss => 7
    case Navmesh => 8
    case DummyAsset => 9
    case DummyEnemy => 10
    case ConnectCollision => 11
    case Invalid => 12
    case Asset => 13
  }

  /** The kind a tag value names, if any. */
  function FromCode(c: int): (r: Option<PartType>)
    ensures r.Some? <==> 0 <= c < 14
    ensures r.Some? ==> Code(r.value) == c
  {
    match c
    case 0 => Some(MapPiece)
    case 1 => Some(Object)
    case 2 => Some(Enemy)
    case 3 => Some(Item)
    case 4 => Some(Player)
    case 5 => Some(Collision)
    case 6 => Some(NPCWander)
    case 7 => Some(Protoboss)
    case 8 => Some(Navmesh)
    case 9 => Some(DummyAsset)
    case 10 => Some(DummyEnemy)
    case 11 => Some(ConnectCollision)
    case 12 => Some(Invalid)
    case 13 => Some(Asset)
    case _ => None
  }

  /** Tags and kinds are in one-to-one correspondence. */
  lemma CodeRoundTrip(t: PartType)
    ensures FromCode(Code(t)) == Some(t)
  {
  }

  /** The kinds whose payload is kept as an opaque byte blob. */
  predicate IsRaw(t: PartType)
  {
    t in {Object, Item, NPCWander, Protoboss, Navmesh, Invalid}
  }

  type RawType = t: PartType | IsRaw(t) witness Object

  /** The nine auxiliary-struct slots, in header order. */
  datatype Slot = T50 | T58 | T70 | T78 | T80 | T88 | T90 | T98 | TA0

  /** Which slots a kind declares. */
  function SlotsOf(t: PartType): set<Slot>
  {
    match t
    case MapPiece => {T50, T70, T80, T88, T90, T98, TA0}
    case Enemy => {T50, T70, T88, T98}
    case DummyEnemy => {T50, T70, T88, T98}
    case Player => {T50, T88, T98}
    case Collision => {T50, T58, T70, T78, T88, T98, TA0}
    case DummyAsset => {T50, T70, T88, T98}
    case ConnectCollision => {T50, T58, T88, T98, TA0}
    case Asset => {T50, T58, T70, T80, T88, T90, T98, TA0}
    case _ => {T50, T70, T80, T88, T90, T98, TA0}
  }

  predicate HasSlot(t: PartType, s: Slot)
  {
    s in SlotsOf(t)
  }

  /** Slots the reader skips when their stored offset is zero, even if the
      kind declares them; the others are read whenever declared. */
  predicate SkippedWhenZero(s: Slot)
  {
    s in {T58, T70, T78, T80, T90, TA0}
  }
}
