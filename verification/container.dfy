/** The part container of a map file: one list per kind, the order in
    which the lists are written, and the entry reader that peeks at a
    record's type tag to pick the kind to read it as. */
module Parts {
  import opened Ints
  import opened Results
  import opened Layout
  import opened PartTypes
  import opened PartHeader
  import opened TypeDatas
  import opened Records
  import A = AssetPayload

  /** The kinds in the order their lists are written. */
  const EntryOrder: seq<PartType> :=
    [MapPiece, Enemy, Player, Collision, DummyAsset, DummyEnemy, ConnectCollision,
     Asset, Object, Item, NPCWander, Protoboss, Navmesh, Invalid]

  /** Where a kind's list comes in the written order. */
  function Rank(kind: PartType): (n: nat)
    ensures n < |EntryOrder| && EntryOrder[n] == kind
  {
    match kind
    case MapPiece => 0
    case Enemy => 1
    case Player => 2
    case Collision => 3
    case DummyAsset => 4
    case DummyEnemy => 5
    case ConnectCollision => 6
    case Asset => 7
    case Object => 8
    case Item => 9
    case NPCWander => 10
    case Protoboss => 11
    case Navmesh => 12
    case Invalid => 13
  }

  /** The fourteen per-kind lists (MapPieces, Enemies, Players, ...), kept
      in the order they are written: the list of `kind` is at `Rank(kind)`. */
  type Lists = ls: seq<seq<Part>> | |ls| == |EntryOrder|
    witness [[], [], [], [], [], [], [], [], [], [], [], [], [], []]

  datatype PartsParam = PartsParam(version: int32, lists: Lists)
  {
    /** The list that holds parts of `kind`. */
    function List(kind: PartType): seq<Part>
    {
      lists[Rank(kind)]
    }
  }

  /** An empty container for files of `version`. */
  function NewParam(version: int32): (c: PartsParam)
    ensures c.version == version
    ensures forall kind: PartType :: c.List(kind) == []
  {
    PartsParam(version, [[], [], [], [], [], [], [], [], [], [], [], [], [], []])
  }

  /** Appends a part to the list of its kind. */
  function Add(c: PartsParam, p: Part): (r: PartsParam)
    ensures r.version == c.version
    ensures r.List(p.kind) == c.List(p.kind) + [p]
    ensures forall kind: PartType :: kind != p.kind ==> r.List(kind) == c.List(kind)
  {
    var k := Rank(p.kind);
    PartsParam(c.version, c.lists[k := c.lists[k] + [p]])
  }

  /** Every list holds only parts of its own kind. */
  predicate Routed(c: PartsParam)
  {
    forall kind: PartType, i :: 0 <= i < |c.List(kind)| ==> c.List(kind)[i].kind == kind
  }

  lemma NewParamRouted(version: int32)
    ensures Routed(NewParam(version))
  {
  }

  /** Adding keeps every list to its own kind. */
  lemma AddKeepsRouted(c: PartsParam, p: Part)
    requires Routed(c)
    ensures Routed(Add(c, p))
  {
    var r := Add(c, p);
    forall kind: PartType, i | 0 <= i < |r.List(kind)|
      ensures r.List(kind)[i].kind == kind
    {
      if kind == p.kind && i == |c.List(kind)| {
        assert r.List(kind)[i] == p;
      } else {
        assert r.List(kind)[i] == c.List(kind)[i];
      }
    }
  }

  // ---------------------------------------------------------------------
  // The order parts are written in.

  /** Lists one after the other. */
  function Flatten(ls: seq<seq<Part>>): seq<Part>
  {
    if |ls| == 0 then [] else ls[0] + Flatten(ls[1..])
  }

  /** Every part, list after list, in the written order. */
  function GetEntries(c: PartsParam): seq<Part>
  {
    Flatten(c.lists)
  }

  /** The number of parts in the lists written up to and including the
      list of `kind`. */
  function CountThrough(c: PartsParam, kind: PartType): nat
  {
    |Flatten(c.lists[..Rank(kind) + 1])|
  }

  /** Flattening after appending to list `k`: the new part comes right
      after the parts of lists 0 to `k`. */
  lemma {:induction false} FlattenAfterAppend(ls: seq<seq<Part>>, k: nat, p: Part)
    requires k < |ls|
    ensures var f, n := Flatten(ls), |Flatten(ls[..k + 1])|;
            && n <= |f|
            && Flatten(ls[k := ls[k] + [p]]) == f[..n] + [p] + f[n..]
    decreases k
  {
    var ls' := ls[k := ls[k] + [p]];
    var f, n := Flatten(ls), |Flatten(ls[..k + 1])|;
    assert ls[..k + 1][0] == ls[0];
    assert ls[..k + 1][1..] == ls[1..][..k];
    if k == 0 {
      assert ls[..1][1..] == [];
      assert ls'[1..] == ls[1..];
      assert n == |ls[0]|;
      assert f[..n] == ls[0] && f[n..] == Flatten(ls[1..]);
    } else {
      assert ls'[0] == ls[0];
      assert ls'[1..] == ls[1..][k - 1 := ls[1..][k - 1] + [p]];
      FlattenAfterAppend(ls[1..], k - 1, p);
      var g, m := Flatten(ls[1..]), |Flatten(ls[1..][..k])|;
      assert n == |ls[0]| + m;
      assert f[..n] == ls[0] + g[..m];
      assert f[n..] == g[m..];
    }
  }

  /** Adding a part inserts it into the entries right after the parts of
      its own kind and of every kind written before it; all other entries
      keep their order. */
  lemma EntriesAfterAdd(c: PartsParam, p: Part)
    ensures var e, n := GetEntries(c), CountThrough(c, p.kind);
            && n <= |e|
            && GetEntries(Add(c, p)) == e[..n] + [p] + e[n..]
  {
    FlattenAfterAppend(c.lists, Rank(p.kind), p);
  }

  /** No part of `g` ranks before `m`. */
  predicate RankedFrom(g: seq<Part>, m: nat)
  {
    forall i :: 0 <= i < |g| ==> m <= Rank(g[i].kind)
  }

  /** The parts of `g` come grouped by kind, in the written order. */
  predicate InRankOrder(g: seq<Part>)
  {
    forall i, j :: 0 <= i < j < |g| ==> Rank(g[i].kind) <= Rank(g[j].kind)
  }

  /** List `k` of `ls` holds only parts of rank `m + k`. */
  predicate RanksFrom(ls: seq<seq<Part>>, m: nat)
  {
    forall k, i :: 0 <= k < |ls| && 0 <= i < |ls[k]| ==> Rank(ls[k][i].kind) == m + k
  }

  /** Dropping the first list moves the ranks up by one. */
  lemma RanksFromRest(ls: seq<seq<Part>>, m: nat)
    requires RanksFrom(ls, m) && |ls| > 0
    ensures RanksFrom(ls[1..], m + 1)
  {
    var rest: seq<seq<Part>> := ls[1..];
    forall k, i | 0 <= k < |rest| && 0 <= i < |rest[k]|
      ensures Rank(rest[k][i].kind) == m + 1 + k
    {
      assert rest[k] == ls[k + 1];
    }
  }

  /** The lists of a routed container, in the written order, rank from 0. */
  lemma RoutedRanks(c: PartsParam)
    requires Routed(c)
    ensures RanksFrom(c.lists, 0)
  {
    forall k, i | 0 <= k < |c.lists| && 0 <= i < |c.lists[k]|
      ensures Rank(c.lists[k][i].kind) == k
    {
      assert c.lists[k] == c.List(EntryOrder[k]);
    }
  }

  /** Lists whose list `k` holds only parts of rank `m + k` flatten to
      parts in rank order, none ranking before `m`. */
  lemma {:induction false} FlattenSorted(ls: seq<seq<Part>>, m: nat)
    requires RanksFrom(ls, m)
    ensures RankedFrom(Flatten(ls), m) && InRankOrder(Flatten(ls))
    decreases |ls|
  {
    if |ls| > 0 {
      var head: seq<Part>, rest: seq<seq<Part>> := ls[0], ls[1..];
      RanksFromRest(ls, m);
      FlattenSorted(rest, m + 1);
      var tail := Flatten(rest);
      var g := head + tail;
      assert Flatten(ls) == g;
      forall i | 0 <= i < |g|
        ensures m <= Rank(g[i].kind)
      {
        if i >= |head| {
          assert g[i] == tail[i - |head|];
        } else {
          assert g[i] == ls[0][i];
        }
      }
      forall i, j | 0 <= i < j < |g|
        ensures Rank(g[i].kind) <= Rank(g[j].kind)
      {
        if j < |head| {
          assert g[i] == ls[0][i] && g[j] == ls[0][j];
        } else if i < |head| {
          assert g[i] == ls[0][i] && g[j] == tail[j - |head|];
        } else {
          assert g[i] == tail[i - |head|] && g[j] == tail[j - |head|];
        }
      }
    }
  }

  /** In a container whose lists hold only their own kinds, the entries
      come grouped by kind, in the written order. */
  lemma EntriesInOrder(c: PartsParam)
    requires Routed(c)
    ensures InRankOrder(GetEntries(c))
  {
    RoutedRanks(c);
    FlattenSorted(c.lists, 0);
  }

  /** The parts of `g` of `kind`, in order. */
  function OfKind(g: seq<Part>, kind: PartType): (r: seq<Part>)
    ensures |r| <= |g|
    ensures forall i :: 0 <= i < |r| ==> r[i].kind == kind
  {
    if |g| == 0 then []
    else (if g[0].kind == kind then [g[0]] else []) + OfKind(g[1..], kind)
  }

  lemma {:induction false} OfKindConcat(a: seq<Part>, b: seq<Part>, kind: PartType)
    ensures OfKind(a + b, kind) == OfKind(a, kind) + OfKind(b, kind)
  {
    if |a| > 0 {
      var first := if a[0].kind == kind then [a[0]] else [];
      assert (a + b)[0] == a[0];
      assert (a + b)[1..] == a[1..] + b;
      assert OfKind(a + b, kind) == first + OfKind(a[1..] + b, kind);
      assert OfKind(a, kind) == first + OfKind(a[1..], kind);
      OfKindConcat(a[1..], b, kind);
    } else {
      assert a + b == b;
    }
  }

  /** Distinct kinds come at distinct places in the written order. */
  lemma RankInjective(a: PartType, b: PartType)
    ensures Rank(a) == Rank(b) ==> a == b
  {
  }

  /** A list of parts all of rank `n` is kept whole by the filter for the
      kind of rank `n` and dropped by every other. */
  lemma {:induction false} OfKindUniform(l: seq<Part>, n: nat, kind: PartType)
    requires forall i :: 0 <= i < |l| ==> Rank(l[i].kind) == n
    ensures OfKind(l, kind) == if Rank(kind) == n then l else []
  {
    if |l| > 0 {
      var tail := l[1..];
      assert forall i :: 0 <= i < |tail| ==> tail[i] == l[i + 1];
      OfKindUniform(tail, n, kind);
      RankInjective(l[0].kind, kind);
      var first := if l[0].kind == kind then [l[0]] else [];
      assert OfKind(l, kind) == first + OfKind(tail, kind);
      if Rank(kind) == n {
        assert first == [l[0]];
        assert l == [l[0]] + tail;
      } else {
        assert first == [];
      }
    }
  }

  /** Filtering ranked lists by kind picks out the one list of that rank. */
  lemma {:induction false} FlattenOfKind(ls: seq<seq<Part>>, m: nat, kind: PartType)
    requires RanksFrom(ls, m)
    ensures OfKind(Flatten(ls), kind) == if m <= Rank(kind) < m + |ls| then ls[Rank(kind) - m] else []
    decreases |ls|
  {
    if |ls| > 0 {
      var rest: seq<seq<Part>> := ls[1..];
      RanksFromRest(ls, m);
      var head: seq<Part> := ls[0];
      FlattenOfKind(rest, m + 1, kind);
      assert Flatten(ls) == head + Flatten(rest);
      OfKindConcat(head, Flatten(rest), kind);
      assert forall i :: 0 <= i < |head| ==> Rank(head[i].kind) == m + 0;
      OfKindUniform(head, m, kind);
      if Rank(kind) == m {
        assert OfKind(Flatten(ls), kind) == head + [];
      } else if m + 1 <= Rank(kind) < m + |ls| {
        assert rest[Rank(kind) - m - 1] == ls[Rank(kind) - m];
        assert OfKind(Flatten(ls), kind) == [] + rest[Rank(kind) - m - 1];
      } else {
        assert OfKind(Flatten(ls), kind) == [] + [];
      }
    }
  }

  /** In a routed container, the entries of each kind are that kind's list:
      with the ordering above, the entries are the lists one after another. */
  lemma EntriesOfKind(c: PartsParam, kind: PartType)
    requires Routed(c)
    ensures OfKind(GetEntries(c), kind) == c.List(kind)
  {
    RoutedRanks(c);
    FlattenOfKind(c.lists, 0, kind);
  }

  // ---------------------------------------------------------------------
  // Reading entries.

  /** The type tag of the record at `start`, read as a 32-bit int at offset
      8 without moving the cursor; a value naming no kind is refused. */
  function PeekKind(data: seq<byte>, start: nat): (r: Result<PartType>)
    ensures start + 12 > |data| ==> r == Fail(EndOfData)
    ensures start + 12 <= |data| ==>
              var tag := FromRaw(W32, true, FromLE(data[start + 8..start + 12]));
              && (r.Ok? <==> 0 <= tag < 14)
              && (r.Ok? ==> Code(r.value) == tag)
              && (r.Fail? ==> r.error == UndefinedEnumValue)
  {
    SuffixIs(data, start + 8);
    var bytes := Suffix(data, start + 8);
    assert start + 12 <= |data| ==> bytes[..4] == data[start + 8..start + 12];
    var (tag, _) :- DecodeCell(I32, bytes);
    match FromCode(tag)
    case Some(kind) => Ok(kind)
    case None => Fail(UndefinedEnumValue)
  }

  /** The tag the writer puts at offset 8 is peeked as the record's kind. */
  lemma PeekTag(data: seq<byte>, start: nat, kind: PartType)
    requires WrittenAt(data, start + 8, ToLE(Code(kind), 4))
    ensures PeekKind(data, start) == Ok(kind)
  {
    var n := Code(kind);
    assert n < 14;
    assert Raw(W32, n) == n;
    var tagBytes := ToLE(n, 4);
    WrittenAtSeek(data, start + 8, tagBytes);
    DecodeEncodeCell(I32, n, data[start + 12..]);
    CodeRoundTrip(kind);
  }

  /** A written record carries its kind's tag at offset 8. */
  lemma TagInRecord(data: seq<byte>, start: nat, p: Part)
    requires Valid(p) && Complete(p) && WrittenAt(data, start, WriteRecord(p, start))
    ensures WrittenAt(data, start + 8, ToLE(Code(p.kind), 4))
  {
    var h := RecordHeader(p, start);
    var head := WriteHeader(h);
    TagAt(h);
    RecordStartsWithHeader(p, start);
    WrittenWithin(data, start, WriteRecord(p, start), 0, head);
    WrittenWithin(data, start, head, 8, ToLE(Code(p.kind), 4));
  }

  /** Reads the entry at `start` of a file of `version` as the kind its tag
      names, and adds it to the list of that kind. A passthrough kind takes
      `length` bytes after its last struct. The part constructors are not
      given the format version, so the version goes unused: an asset
      payload is read as if for version 0. */
  function ReadEntry(c: PartsParam, data: seq<byte>, start: nat, version: int32, length: int64)
    : (r: Result<(Part, PartsParam)>)
    ensures PeekKind(data, start).Fail? ==> r == Fail(PeekKind(data, start).error)
    ensures r.Ok? ==> PeekKind(data, start) == Ok(r.value.0.kind)
    ensures r.Ok? ==> r.value.1 == Add(c, r.value.0)
  {
    var kind :- PeekKind(data, start);
    var p :- ReadPart(data, start, kind, 0, length);
    Ok((p, Add(c, p)))
  }

  /** Any entry the entry reader can take back comes back with its payload
      as rebuilt by a version-0 reader, whatever the file's version. */
  lemma ReadWriteEntry(c: PartsParam, data: seq<byte>, start: nat, p: Part, version: int32, length: int64)
    requires Valid(p) && Complete(p) && Terminable(p) && !p.data.RawData? && RereadableWith(p.data, 0)
    requires WrittenAt(data, start, WriteRecord(p, start))
    ensures var q := p.(data := Reread(p.data, 0));
            ReadEntry(c, data, start, version, length) == Ok((q, Add(c, q)))
  {
    TagInRecord(data, start, p);
    PeekTag(data, start, p.kind);
    ReadWritePart(data, start, p, 0, length);
  }

  /** An asset written for version 52 or later and read by the entry reader
      comes back recording version 0, so writing it again leaves out the
      sixteen zero words: its payload is 64 bytes shorter. */
  lemma EntryDropsAssetVersion(c: PartsParam, data: seq<byte>, start: nat, p: Part, version: int32, length: int64)
    requires Valid(p) && Complete(p) && Terminable(p)
    requires p.data.AssetData? && p.data.asset.version >= A.GapVersion
    requires WrittenAt(data, start, WriteRecord(p, start))
    ensures var q := p.(data := AssetData(p.data.asset.(version := 0)));
            && ReadEntry(c, data, start, version, length) == Ok((q, Add(c, q)))
            && |A.WriteAssetBody(q.data.asset)| + 64 == |A.WriteAssetBody(p.data.asset)|
  {
    var q := p.(data := AssetData(p.data.asset.(version := 0)));
    assert q == p.(data := Reread(p.data, 0));
    ReadWriteEntry(c, data, start, p, version, length);
    A.RewriteBelowGapShorter(p.data.asset, 0);
  }

  /** The entry reader corrected to hand the file's version to the part
      reader, so that an asset payload is read for the format it was
      written in. */
  function ReadEntryAtVersion(c: PartsParam, data: seq<byte>, start: nat, version: int32, length: int64)
    : (r: Result<(Part, PartsParam)>)
    ensures PeekKind(data, start).Fail? ==> r == Fail(PeekKind(data, start).error)
    ensures r.Ok? ==> PeekKind(data, start) == Ok(r.value.0.kind)
    ensures r.Ok? ==> r.value.1 == Add(c, r.value.0)
  {
    var kind :- PeekKind(data, start);
    var p :- ReadPart(data, start, kind, version, length);
    Ok((p, Add(c, p)))
  }

  /** Through the corrected reader, an entry written with every declared
      slot filled reads back exactly as written, and lands in the list of
      its kind. */
  lemma ReadWriteEntryAtVersion(c: PartsParam, data: seq<byte>, start: nat, p: Part, version: int32, length: int64)
    requires Valid(p) && Complete(p) && Terminable(p) && !p.data.RawData? && ReadableWith(p.data, version)
    requires WrittenAt(data, start, WriteRecord(p, start))
    ensures ReadEntryAtVersion(c, data, start, version, length) == Ok((p, Add(c, p)))
  {
    TagInRecord(data, start, p);
    PeekTag(data, start, p.kind);
    ReadWritePart(data, start, p, version, length);
  }
}
