/**
 What the rules of the DL/T 645 point table (src/DLT645/DLT645PointTable.cc) come to for its callers:
 which requests are valid, what is stored of them, what is refused, and how points that share a data
 identifier lie.
 */
module PointRules {
  import opened Wrappers
  import opened Bytes
  import opened PointTable

  // ---------- validity ----------

  /** Which lengths, positions and accesses go with a type. */
  predicate FitsType(f: Fields) {
    match f.dtype
    case Unspecified => false
    case Bool =>
      (match f.bitIndex
       case None => f.dataLen == 1 && f.byteIndex == None
       case Some(bit) => bit <= 7 && PlaceByte(f.byteIndex) < f.dataLen && f.access == ReadOnly)
    case Uint16 => f.dataLen == 2
    case Uint32 => f.dataLen == 4
    case Float => f.dataLen == 4
    case OtherType(_) => true
  }

  /** A bit is in the first octet unless the request says otherwise. */
  function PlaceByte(byteIndex: Option<nat>): nat {
    match byteIndex case None => 0 case Some(n) => n
  }

  /** Valid fields fit their type and the 32-bit length, may be accessed, and have numbers that parse. */
  lemma ValidByType(f: Fields)
    ensures ValidFields(f) <==>
              && FitsType(f) && f.access != NoAccess && f.dataLen != 0 && f.dataLen <= 0xFFFF_FFFF
              && f.scale != None && f.offset != None && f.deadband != None
  {
  }

  /** A block is valid if its length fits 32 bits and is what its valid items add up to in 32 bits. */
  lemma ValidBlocks(b: BlockRequest)
    ensures ValidBlock(b) <==>
              && ValidDi(b.di) && 1 <= b.dataLen <= 0xFFFF_FFFF && |b.items| >= 1
              && (forall i :: 0 <= i < |b.items| ==> b.items[i].tag != "" && ValidFields(b.items[i].fields))
              && Sum(Lengths(b.items)) % 0x1_0000_0000 == b.dataLen
  {
    WrappedSumIsMod(Lengths(b.items));
    forall i | i in b.items ensures ValidItem(i) <==> i.tag != "" && ValidFields(i.fields) {
    }
  }

  lemma ValidIdentifiers(di: string)
    ensures ValidDi(di) <==>
              |di| == 8 && forall i :: 0 <= i < |di| ==> di[i] in "0123456789abcdefABCDEF"
  {
    forall c: char ensures IsHexChar(c) <==> c in "0123456789abcdefABCDEF" {
      HexCharacters(c);
    }
  }

  lemma HexCharacters(c: char)
    ensures IsHexChar(c) <==> c in "0123456789abcdefABCDEF"
  {
    var digits := "0123456789abcdefABCDEF";
    assert forall i :: 0 <= i < 10 ==> digits[i] == '0' + i as char;
    assert forall i :: 10 <= i < 16 ==> digits[i] == 'a' + (i - 10) as char;
    assert forall i :: 16 <= i < 22 ==> digits[i] == 'A' + (i - 16) as char;
    if IsHexChar(c) {
      var i := if c <= '9' then (c - '0') as int else if c <= 'F' then (c - 'A') as int + 16 else (c - 'a') as int + 10;
      assert digits[i] == c;
    }
  }

  // ---------- what is stored ----------

  /** The definition has what the request says; a scale of zero becomes one, and a position in a value only
      counts for a bit. */
  predicate DefinedBy(d: Def, f: Fields) {
    && d.dataLen == f.dataLen && d.dtype == f.dtype && d.access == f.access
    && f.scale.Some? && (if f.scale.value == 0 then d.scale == 1 else d.scale == f.scale.value)
    && f.offset == Some(d.offset) && f.deadband == Some(d.deadband)
    && d.bitIndex == f.bitIndex && d.byteIndex == (if f.bitIndex == None then None else Some(PlaceByte(f.byteIndex)))
  }

  /** What is stored of valid fields. */
  lemma DefinesAsRequested(f: Fields)
    requires ValidFields(f)
    ensures DefinedBy(Define(f), f)
  {
  }

  lemma ItemsAreAsRequested(b: BlockRequest, i: nat)
    requires ValidBlock(b) && i < |b.items|
    ensures b.items[i] in b.items
    ensures var item, asked := BlockOf(b).items[i], b.items[i];
            && item.tag == asked.tag && DefinedBy(item.def, asked.fields)
            && item.trimRightSpace == (asked.trimRightSpace != Some(false))
  {
    assert b.items[i] in b.items;
    DefinesAsRequested(b.items[i].fields);
  }

  /** A point that is inserted is found by its tag as the request says, and all others as before. */
  lemma InsertedIsFound(t: Table, p: PointRequest, tag: string)
    requires ValidPoint(p)
    ensures var u := InsertPoint(t, p);
            if tag == p.tag then
              tag in u.byTag && u.byTag[tag].tag == tag && u.byTag[tag].di == p.di &&
                  DefinedBy(u.byTag[tag].def, p.fields)
            else (tag in u.byTag <==> tag in t.byTag) && (tag in t.byTag ==> u.byTag[tag] == t.byTag[tag])
  {
    DefinesAsRequested(p.fields);
  }

  // ---------- what is refused ----------

  /** The point would share its data identifier with one that is no bit, lies at the same place, or is of
      another length. */
  predicate CollidesWith(d: Def, f: Fields) {
    || d.bitIndex == None || f.bitIndex == None
    || (PlaceByte(d.byteIndex) == PlaceByte(f.byteIndex) && d.bitIndex == f.bitIndex)
    || d.dataLen != f.dataLen
  }

  /** A point and a block item of one tag must be defined alike but for the access. */
  predicate DiffersFrom(d: Def, e: Def) {
    || d.dataLen != e.dataLen || d.dtype != e.dtype || d.scale != e.scale || d.offset != e.offset
    || d.deadband != e.deadband || d.byteIndex != e.byteIndex || d.bitIndex != e.bitIndex
  }

  ghost predicate PointRefused(t: Table, p: PointRequest)
    requires ValidPoint(p)
  {
    || (p.tag in t.byTag && t.byTag[p.tag].di != p.di)
    || (exists tag :: tag in t.byTag && tag != p.tag && t.byTag[tag].di == p.di &&
          CollidesWith(t.byTag[tag].def, p.fields))
    || (p.tag in t.itemByTag && DiffersFrom(t.itemByTag[p.tag].def, Define(p.fields)))
  }

  lemma CollidesIffIncompatible(d: Def, f: Fields)
    requires ValidFields(f)
    ensures Compatible(d, Define(f)) <==> !CollidesWith(d, f)
  {
  }

  lemma DiffersIffNotSame(d: Def, e: Def)
    ensures SameDefinition(d, e) <==> !DiffersFrom(d, e)
  {
  }

  lemma SharersAreIndexed(t: Table, p: PointRequest, tag: string)
    requires Inv(t)
    ensures SharesDi(t, p, tag) <==> tag in t.byTag && tag != p.tag && t.byTag[tag].di == p.di
  {
    assert Holds(t, Indexes);
  }

  /** A valid point is refused exactly for these reasons. */
  lemma RefusedIff(t: Table, p: PointRequest)
    requires Inv(t) && ValidPoint(p)
    ensures CanInsertPoint(t, p) <==> !PointRefused(t, p)
  {
    forall tag
      ensures SharesDi(t, p, tag) <==> tag in t.byTag && tag != p.tag && t.byTag[tag].di == p.di
      ensures tag in t.byTag ==> (Compatible(t.byTag[tag].def, Define(p.fields)) <==>
                !CollidesWith(t.byTag[tag].def, p.fields))
    {
      SharersAreIndexed(t, p, tag);
      if tag in t.byTag {
        CollidesIffIncompatible(t.byTag[tag].def, p.fields);
      }
    }
    if p.tag in t.itemByTag {
      DiffersIffNotSame(t.itemByTag[p.tag].def, Define(p.fields));
    }
  }

  ghost predicate ItemRefused(t: Table, i: ItemRequest)
    requires ValidItem(i)
  {
    i.tag in t.itemByTag || (i.tag in t.byTag && DiffersFrom(t.byTag[i.tag].def, Define(i.fields)))
  }

  /** A valid block is refused exactly if its identifier is taken, two of its items have one tag, or one of
      its items is in a block already or is defined otherwise as a point. */
  lemma BlockRefusedIff(t: Table, b: BlockRequest)
    requires Inv(t) && ValidBlock(b)
    ensures CanInsertBlock(t, b) <==>
              && (forall k :: 0 <= k < |t.blocks| ==> t.blocks[k].di != b.di)
              && (forall i, j :: 0 <= i < j < |b.items| ==> b.items[i].tag != b.items[j].tag)
              && (forall i :: i in b.items ==> !ItemRefused(t, i))
  {
    assert Holds(t, BlockIndexes);
    assert DisIndexed(t.blocks, t.blockDis);
    forall i | i in b.items ensures CanInsertItem(t, i) <==> !ItemRefused(t, i) {
      if i.tag in t.byTag {
        DiffersIffNotSame(t.byTag[i.tag].def, Define(i.fields));
      }
    }
  }

  // ---------- how points of one identifier lie ----------

  /** In every table, two points of one data identifier are bits at different places of values of one
      length, and a point that is also a block item is defined alike. */
  lemma PointsLieApart(t: Table, a: string, b: string)
    requires Inv(t) && a in t.byTag && b in t.byTag && a != b && t.byTag[a].di == t.byTag[b].di
    ensures var d, e := t.byTag[a].def, t.byTag[b].def;
            && d.bitIndex.Some? && e.bitIndex.Some? && d.dataLen == e.dataLen
            && (PlaceByte(d.byteIndex), d.bitIndex.value) != (PlaceByte(e.byteIndex), e.bitIndex.value)
  {
    assert Holds(t, Bits);
    assert Compatible(t.byTag[a].def, t.byTag[b].def);
  }

  lemma PointsMatchItems(t: Table, tag: string)
    requires Inv(t) && tag in t.byTag && tag in t.itemByTag
    ensures !DiffersFrom(t.byTag[tag].def, t.itemByTag[tag].def)
  {
    assert Holds(t, Definitions);
    DiffersIffNotSame(t.itemByTag[tag].def, t.byTag[tag].def);
  }

  // ---------- what an upsert leaves ----------

  /** `points[i]` is the last request for the tag. */
  predicate LastFor(points: seq<PointRequest>, i: nat, tag: string) {
    i < |points| && points[i].tag == tag && forall j :: i < j < |points| ==> points[j].tag != tag
  }

  type Points = map<string, Point>

  predicate SamePoint(t: Points, u: Points, tag: string) {
    (tag in u <==> tag in t) && (tag in t ==> u[tag] == t[tag])
  }

  predicate StoredAs(u: Points, p: PointRequest) {
    p.tag in u && u[p.tag].tag == p.tag && u[p.tag].di == p.di && DefinedBy(u[p.tag].def, p.fields)
  }

  /** What the points of a list, inserted one by one, leave for a tag. */
  ghost predicate LastStored(t: Points, points: seq<PointRequest>, u: Points, tag: string) {
    && (forall i :: 0 <= i < |points| && LastFor(points, i, tag) ==> StoredAs(u, points[i]))
    && ((forall i :: 0 <= i < |points| ==> points[i].tag != tag) ==> SamePoint(t, u, tag))
  }

  lemma LastOfMore(points: seq<PointRequest>, i: nat, tag: string)
    requires points != [] && LastFor(points, i, tag)
    ensures var n := |points| - 1;
            if points[n].tag == tag then i == n else i < n && LastFor(points[..n], i, tag)
  {
  }

  lemma OneMoreStored(t: Points, points: seq<PointRequest>, before: Points, u: Points, tag: string)
    requires points != [] && LastStored(t, points[..|points| - 1], before, tag)
    requires var p := points[|points| - 1]; if p.tag == tag then StoredAs(u, p) else SamePoint(before, u, tag)
    ensures LastStored(t, points, u, tag)
  {
    var n := |points| - 1;
    forall i | 0 <= i < |points| && LastFor(points, i, tag)
      ensures StoredAs(u, points[i])
    {
      LastOfMore(points, i, tag);
      if points[n].tag != tag {
        assert StoredAs(before, points[..n][i]);
        KeepsStored(before, u, points[i]);
      }
    }
    if forall i :: 0 <= i < |points| ==> points[i].tag != tag {
      NoneOfFewer(t, points, before, tag);
    }
  }

  lemma KeepsStored(before: Points, u: Points, p: PointRequest)
    requires StoredAs(before, p) && SamePoint(before, u, p.tag)
    ensures StoredAs(u, p)
  {
  }

  lemma NoneOfFewer(t: Points, points: seq<PointRequest>, before: Points, tag: string)
    requires points != [] && LastStored(t, points[..|points| - 1], before, tag)
    requires forall i :: 0 <= i < |points| ==> points[i].tag != tag
    ensures SamePoint(t, before, tag)
  {
    var fewer := points[..|points| - 1];
    assert forall i :: 0 <= i < |fewer| ==> fewer[i].tag != tag;
  }

  lemma {:induction false} PointsAdded(t: Table, points: seq<PointRequest>, tag: string)
    requires (forall p :: p in points ==> ValidPoint(p)) && AddPoints(t, points).0
    ensures var u := AddPoints(t, points).1;
            LastStored(t.byTag, points, u.byTag, tag) && u.blocks == t.blocks && u.itemByTag == t.itemByTag
  {
    if points != [] {
      var n := |points| - 1;
      var before := AddPoints(t, points[..n]).1;
      PointsAdded(t, points[..n], tag);
      InsertedIsFound(before, points[n], tag);
      OneMoreStored(t.byTag, points, before.byTag, AddPoints(t, points).1.byTag, tag);
    }
  }

  /** A block is stored with its identifier, its length and its items in order. */
  predicate BlockStored(block: Block, b: BlockRequest) {
    && block.di == b.di && block.dataLen == b.dataLen && |block.items| == |b.items|
    && forall i :: 0 <= i < |b.items| ==>
          && block.items[i].tag == b.items[i].tag && DefinedBy(block.items[i].def, b.items[i].fields)
          && block.items[i].trimRightSpace == (b.items[i].trimRightSpace != Some(false))
  }

  lemma BlockIsAsRequested(b: BlockRequest)
    requires ValidBlock(b)
    ensures BlockStored(BlockOf(b), b)
  {
    forall i | 0 <= i < |b.items|
      ensures BlockOf(b).items[i].tag == b.items[i].tag && DefinedBy(BlockOf(b).items[i].def, b.items[i].fields)
      ensures BlockOf(b).items[i].trimRightSpace == (b.items[i].trimRightSpace != Some(false))
    {
      ItemsAreAsRequested(b, i);
    }
  }

  predicate BlocksAre(t: Table, blocks: seq<BlockRequest>, u: Table) {
    && |u.blocks| == |t.blocks| + |blocks| && t.blocks <= u.blocks
    && forall i :: 0 <= i < |blocks| ==> BlockStored(u.blocks[|t.blocks| + i], blocks[i])
  }

  lemma {:induction false} BlocksAdded(t: Table, blocks: seq<BlockRequest>)
    requires (forall b :: b in blocks ==> ValidBlock(b)) && AddBlocks(t, blocks).0
    ensures var u := AddBlocks(t, blocks).1;
            u.byTag == t.byTag && BlocksAre(t, blocks, u)
  {
    if blocks != [] {
      var n := |blocks| - 1;
      BlocksAdded(t, blocks[..n]);
      var before := AddBlocks(t, blocks[..n]).1;
      var u := AddBlocks(t, blocks).1;
      assert u.blocks == before.blocks + [BlockOf(blocks[n])];
      BlockIsAsRequested(blocks[n]);
      forall i | 0 <= i < |blocks| ensures BlockStored(u.blocks[|t.blocks| + i], blocks[i]) {
        if i < n {
          assert blocks[..n][i] == blocks[i];
        }
      }
    }
  }

  /** A successful upsert leaves for every tag its last request, and of the others what was there unless the
      table is replaced; the new blocks come after those there. An invalid request changes nothing, except
      that replacing has already cleared the table. */
  lemma UpsertLeaves(t: Table, points: seq<PointRequest>, blocks: seq<BlockRequest>, replace: bool, tag: string)
    ensures var (ok, u) := Upserted(t, points, blocks, replace);
            var start := if replace then Empty else t;
            && (ok ==>
                  && AllValid(points, blocks) && LastStored(start.byTag, points, u.byTag, tag)
                  && BlocksAre(start, blocks, u))
            && (!AllValid(points, blocks) ==> !ok && u == start)
  {
    var start := if replace then Empty else t;
    if AllValid(points, blocks) && AddPoints(start, points).0 && AddBlocks(AddPoints(start, points).1, blocks).0 {
      var mid := AddPoints(start, points).1;
      PointsAdded(start, points, tag);
      BlocksAdded(mid, blocks);
      AddedLeaves(start, points, blocks, mid, AddBlocks(mid, blocks).1, tag);
    }
  }

  lemma AddedLeaves(t: Table, points: seq<PointRequest>, blocks: seq<BlockRequest>, mid: Table, u: Table, tag: string)
    requires LastStored(t.byTag, points, mid.byTag, tag) && mid.blocks == t.blocks
    requires BlocksAre(mid, blocks, u) && u.byTag == mid.byTag
    ensures LastStored(t.byTag, points, u.byTag, tag) && BlocksAre(t, blocks, u)
  {
  }
}
