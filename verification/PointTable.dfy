/**
 The DL/T 645 point table (src/DLT645/DLT645PointTable.cc): points by tag and by data identifier,
 blocks with their items at byte offsets, and the indexes over both. Decimal numbers are codes here,
 0 and 1 being zero and one; a request carries `None` where its text does not parse.
 */
module PointTable {
  import opened Wrappers
  import opened Bytes
  import opened Arithmetic

  datatype DataType = Unspecified | Bool | Uint16 | Uint32 | Float | OtherType(n: int)
  datatype Access = NoAccess | ReadOnly | OtherAccess(n: int)

  /** What a request says about a point or a block item, and what the table keeps of it. */
  datatype Fields = Fields(dataLen: nat, dtype: DataType, access: Access,
                           scale: Option<int>, offset: Option<int>, deadband: Option<int>,
                           byteIndex: Option<nat>, bitIndex: Option<nat>)
  datatype Def = Def(dataLen: nat, dtype: DataType, access: Access,
                     scale: int, offset: int, deadband: int,
                     byteIndex: Option<nat>, bitIndex: Option<nat>)

  datatype PointRequest = PointRequest(tag: string, di: string, fields: Fields)
  datatype ItemRequest = ItemRequest(tag: string, fields: Fields, trimRightSpace: Option<bool>)
  datatype BlockRequest = BlockRequest(di: string, dataLen: nat, items: seq<ItemRequest>)

  datatype Point = Point(tag: string, di: string, def: Def)
  datatype Item = Item(tag: string, def: Def, offset: nat, trimRightSpace: bool)
  datatype Block = Block(di: string, dataLen: nat, items: seq<Item>)

  datatype Table = Table(
    byTag: map<string, Point>,
    tagsByDi: map<string, seq<string>>,
    blocks: seq<Block>,
    blockDis: set<string>,
    itemByTag: map<string, Item>,
    blockTags: set<string>)

  const Empty := Table(map[], map[], [], {}, map[], {})

  // ---------- validation ----------

  predicate IsHexChar(c: char) {
    '0' <= c <= '9' || 'a' <= c <= 'f' || 'A' <= c <= 'F'
  }

  predicate ValidDi(di: string) {
    |di| == 8 && forall c :: c in di ==> IsHexChar(c)
  }

  function OrZero(o: Option<nat>): nat {
    if o.Some? then o.value else 0
  }

  predicate ValidFields(f: Fields) {
    && 0 < f.dataLen < TWO_32
    && f.dtype != Unspecified && f.access != NoAccess
    && f.scale.Some? && f.offset.Some? && f.deadband.Some?
    && (if f.dtype == Bool && f.bitIndex.Some? then
          OrZero(f.byteIndex) < f.dataLen && f.bitIndex.value < 8 && f.access == ReadOnly
        else
          f.dtype == Bool ==> f.byteIndex.None? && f.dataLen == 1)
    && (f.dtype == Uint16 ==> f.dataLen == 2)
    && (f.dtype == Uint32 || f.dtype == Float ==> f.dataLen == 4)
  }

  predicate ValidPoint(p: PointRequest) {
    p.tag != "" && ValidDi(p.di) && ValidFields(p.fields)
  }

  predicate ValidItem(i: ItemRequest) {
    i.tag != "" && ValidFields(i.fields)
  }

  /** The lengths are added in 32 bits. */
  function WrappedSum(lengths: seq<nat>): nat {
    if lengths == [] then 0 else (WrappedSum(lengths[..|lengths| - 1]) + lengths[|lengths| - 1]) % TWO_32
  }

  function Lengths(items: seq<ItemRequest>): (r: seq<nat>)
    ensures |r| == |items|
  {
    seq(|items|, i requires 0 <= i < |items| => items[i].fields.dataLen)
  }

  predicate ValidBlock(b: BlockRequest) {
    && ValidDi(b.di) && 0 < b.dataLen < TWO_32 && b.items != []
    && (forall i :: i in b.items ==> ValidItem(i))
    && WrappedSum(Lengths(b.items)) == b.dataLen
  }

  // ---------- definitions ----------

  /** A zero scale becomes one; a byte index only counts together with a bit index. */
  function Define(f: Fields): Def
    requires ValidFields(f)
  {
    Def(f.dataLen, f.dtype, f.access, if f.scale.value == 0 then 1 else f.scale.value, f.offset.value, f.deadband.value,
        if f.bitIndex.Some? then Some(OrZero(f.byteIndex)) else None, f.bitIndex)
  }

  /** Everything but the access must agree. */
  predicate SameDefinition(a: Def, b: Def) {
    a == b.(access := a.access)
  }

  /** Two points that share a data identifier: bits of one value, at different places. */
  predicate Compatible(a: Def, b: Def) {
    && a.bitIndex.Some? && b.bitIndex.Some?
    && (OrZero(a.byteIndex) != OrZero(b.byteIndex) || a.bitIndex != b.bitIndex)
    && a.dataLen == b.dataLen
  }

  // ---------- inserting ----------

  predicate SharesDi(t: Table, p: PointRequest, tag: string) {
    p.di in t.tagsByDi && tag in t.tagsByDi[p.di] && tag != p.tag && tag in t.byTag
  }

  ghost predicate CanInsertPoint(t: Table, p: PointRequest)
    requires ValidPoint(p)
  {
    && (p.tag in t.byTag ==> t.byTag[p.tag].di == p.di)
    && (forall tag :: SharesDi(t, p, tag) ==> Compatible(t.byTag[tag].def, Define(p.fields)))
    && (p.tag in t.itemByTag ==> SameDefinition(t.itemByTag[p.tag].def, Define(p.fields)))
  }

  function Tags(t: Table, di: string): seq<string> {
    if di in t.tagsByDi then t.tagsByDi[di] else []
  }

  function InsertPoint(t: Table, p: PointRequest): Table
    requires ValidPoint(p)
  {
    var tags := Tags(t, p.di);
    t.(byTag := t.byTag[p.tag := Point(p.tag, p.di, Define(p.fields))],
       tagsByDi := t.tagsByDi[p.di := if p.tag in tags then tags else tags + [p.tag]])
  }

  function ItemOf(i: ItemRequest, offset: nat): Item
    requires ValidItem(i)
  {
    Item(i.tag, Define(i.fields), offset, i.trimRightSpace.Some? ==> i.trimRightSpace.value)
  }

  /** The items of a block, laid out from offset 0 in 32 bits. */
  function LayOut(items: seq<ItemRequest>): (r: seq<Item>)
    requires forall i :: i in items ==> ValidItem(i)
    ensures |r| == |items|
  {
    seq(|items|, i requires 0 <= i < |items| => ItemOf(items[i], WrappedSum(Lengths(items)[..i])))
  }

  predicate CanInsertItem(t: Table, i: ItemRequest)
    requires ValidItem(i)
  {
    i.tag !in t.itemByTag && (i.tag in t.byTag ==> SameDefinition(t.byTag[i.tag].def, Define(i.fields)))
  }

  ghost predicate CanInsertBlock(t: Table, b: BlockRequest)
    requires ValidBlock(b)
  {
    && b.di !in t.blockDis
    && (forall i, j :: 0 <= i < j < |b.items| ==> b.items[i].tag != b.items[j].tag)
    && (forall i :: i in b.items ==> CanInsertItem(t, i))
  }

  function BlockOf(b: BlockRequest): Block
    requires ValidBlock(b)
  {
    Block(b.di, b.dataLen, LayOut(b.items))
  }

  function Index(itemByTag: map<string, Item>, items: seq<Item>): map<string, Item> {
    if items == [] then itemByTag else Index(itemByTag,
                                             items[..|items| - 1])[items[|items| - 1].tag := items[|items| - 1]]
  }

  function TagsOf(items: seq<Item>): set<string> {
    set i | i in items :: i.tag
  }

  function InsertBlock(t: Table, b: BlockRequest): Table
    requires ValidBlock(b)
  {
    var block := BlockOf(b);
    t.(blocks := t.blocks + [block],
       blockDis := t.blockDis + {b.di},
       itemByTag := Index(t.itemByTag, block.items),
       blockTags := t.blockTags + TagsOf(block.items))
  }

  // ---------- the invariant ----------

  ghost predicate StoredDef(d: Def) {
    ValidFields(ExportFields(d)) && Define(ExportFields(d)) == d
  }

  /** Tags and data identifiers index each other. */
  ghost predicate IndexesAgree(t: Table) {
    && (forall tag :: tag in t.byTag ==>
          var p := t.byTag[tag];
          p.tag == tag && tag != "" && ValidDi(p.di) && StoredDef(p.def) && p.di in t.tagsByDi &&
              tag in t.tagsByDi[p.di])
    && (forall di :: di in t.tagsByDi ==> t.tagsByDi[di] != [])
    && (forall di, tag :: di in t.tagsByDi && tag in t.tagsByDi[di] ==> tag in t.byTag && t.byTag[tag].di == di)
  }

  ghost predicate NoDuplicates(t: Table) {
    forall di, i, j :: di in t.tagsByDi && 0 <= i < j < |t.tagsByDi[di]| ==> t.tagsByDi[di][i] != t.tagsByDi[di][j]
  }

  /** Points of one data identifier, compared as text, are different bits of values of one length. */
  ghost predicate BitsApart(t: Table) {
    forall a, b :: a in t.byTag && b in t.byTag && a != b && t.byTag[a].di == t.byTag[b].di ==>
      Compatible(t.byTag[a].def, t.byTag[b].def)
  }

  ghost predicate BlockSound(b: Block) {
    ValidBlock(ExportBlock(b)) && BlockOf(ExportBlock(b)) == b
  }

  ghost predicate TagAt(t: Table, i: int, j: int, tag: string) {
    0 <= i < |t.blocks| && 0 <= j < |t.blocks[i].items| && t.blocks[i].items[j].tag == tag
  }

  /** The blocks have different identifiers, and those are on record. */
  ghost predicate DisIndexed(blocks: seq<Block>, dis: set<string>) {
    && (forall i :: 0 <= i < |blocks| ==> blocks[i].di in dis)
    && (forall i, j :: 0 <= i < j < |blocks| ==> blocks[i].di != blocks[j].di)
    && (forall di :: di in dis ==> exists i :: 0 <= i < |blocks| && blocks[i].di == di)
  }

  ghost predicate BlocksSound(t: Table) {
    DisIndexed(t.blocks, t.blockDis) && forall i {:trigger BlockSound(t.blocks[i])} :: 0 <= i < |t.blocks| ==>
        BlockSound(t.blocks[i])
  }

  /** Every tag is an item of at most one block. */
  ghost predicate ItemsUnique(t: Table) {
    forall i, j, k, l, tag :: TagAt(t, i, j, tag) && TagAt(t, k, l, tag) ==> i == k && j == l
  }

  /** The item index has exactly the items of the blocks. */
  ghost predicate ItemsIndexed(t: Table) {
    && (forall i, j, tag :: TagAt(t, i, j, tag) ==> tag in t.itemByTag && t.itemByTag[tag] == t.blocks[i].items[j])
    && (forall tag :: tag in t.itemByTag ==> exists i, j :: TagAt(t, i, j, tag))
    && t.blockTags == t.itemByTag.Keys
  }

  ghost predicate BlocksIndexed(t: Table) {
    BlocksSound(t) && ItemsUnique(t) && ItemsIndexed(t)
  }

  ghost predicate DefinitionsAgree(t: Table) {
    forall tag :: tag in t.byTag && tag in t.itemByTag ==> SameDefinition(t.itemByTag[tag].def, t.byTag[tag].def)
  }

  /** What the invariant is about, one thing at a time. */
  datatype Aspect = Indexes | Duplicates | Bits | BlockIndexes | Definitions

  ghost predicate Holds(t: Table, a: Aspect) {
    match a
    case Indexes => IndexesAgree(t)
    case Duplicates => NoDuplicates(t)
    case Bits => BitsApart(t)
    case BlockIndexes => BlocksIndexed(t)
    case Definitions => DefinitionsAgree(t)
  }

  ghost predicate Inv(t: Table) {
    forall a: Aspect :: Holds(t, a)
  }

  // ---------- export ----------

  function ExportFields(d: Def): Fields {
    Fields(d.dataLen, d.dtype, d.access, Some(d.scale), Some(d.offset), Some(d.deadband), d.byteIndex, d.bitIndex)
  }

  function ExportPoint(p: Point): PointRequest {
    PointRequest(p.tag, p.di, ExportFields(p.def))
  }

  function ExportItem(i: Item): ItemRequest {
    ItemRequest(i.tag, ExportFields(i.def), Some(i.trimRightSpace))
  }

  function ExportItems(items: seq<Item>): (r: seq<ItemRequest>)
    ensures |r| == |items|
  {
    seq(|items|, i requires 0 <= i < |items| => ExportItem(items[i]))
  }

  function ExportBlock(b: Block): BlockRequest {
    BlockRequest(b.di, b.dataLen, ExportItems(b.items))
  }

  function ExportBlocks(blocks: seq<Block>): seq<BlockRequest> {
    if blocks == [] then [] else ExportBlocks(blocks[..|blocks| - 1]) + [ExportBlock(blocks[|blocks| - 1])]
  }

  // ---------- inserting keeps the invariant ----------

  lemma DefinedIsStored(f: Fields)
    requires ValidFields(f)
    ensures StoredDef(Define(f))
  {
  }

  lemma InsertPointKeepsIndexes(t: Table, p: PointRequest)
    requires IndexesAgree(t) && ValidPoint(p) && (p.tag in t.byTag ==> t.byTag[p.tag].di == p.di)
    ensures IndexesAgree(InsertPoint(t, p))
  {
    DefinedIsStored(p.fields);
  }

  lemma InsertPointKeepsBits(t: Table, p: PointRequest)
    requires IndexesAgree(t) && BitsApart(t) && ValidPoint(p) && CanInsertPoint(t, p)
    ensures BitsApart(InsertPoint(t, p))
  {
    var u := InsertPoint(t, p);
    forall a, b | a in u.byTag && b in u.byTag && a != b && u.byTag[a].di == u.byTag[b].di
      ensures Compatible(u.byTag[a].def, u.byTag[b].def)
    {
      if a == p.tag {
        assert SharesDi(t, p, b);
      } else if b == p.tag {
        assert SharesDi(t, p, a);
      }
    }
  }

  lemma SameBlocksIndexed(t: Table, u: Table)
    requires BlocksIndexed(t)
    requires u.blocks == t.blocks && u.blockDis == t.blockDis && u.itemByTag == t.itemByTag &&
              u.blockTags == t.blockTags
    ensures BlocksIndexed(u)
  {
    forall i, j, tag ensures TagAt(u, i, j, tag) <==> TagAt(t, i, j, tag) {
    }
    forall tag | tag in u.itemByTag ensures exists i, j :: TagAt(u, i, j, tag) {
      var i, j :| TagAt(t, i, j, tag);
      assert TagAt(u, i, j, tag);
    }
  }

  lemma InsertPointKeepsDefinitions(t: Table, p: PointRequest)
    requires DefinitionsAgree(t) && ValidPoint(p) && CanInsertPoint(t, p)
    ensures DefinitionsAgree(InsertPoint(t, p))
  {
  }

  lemma InsertPointKeepsInv(t: Table, p: PointRequest)
    requires Inv(t) && ValidPoint(p) && CanInsertPoint(t, p)
    ensures Inv(InsertPoint(t, p))
  {
    assert Holds(t, Indexes) && Holds(t, Duplicates) && Holds(t, Bits) && Holds(t, BlockIndexes) &&
           Holds(t, Definitions);
    InsertPointKeepsIndexes(t, p);
    InsertPointKeepsBits(t, p);
    SameBlocksIndexed(t, InsertPoint(t, p));
    InsertPointKeepsDefinitions(t, p);
  }

  // ---------- blocks ----------

  lemma BlockOfIsSound(b: BlockRequest)
    requires ValidBlock(b)
    ensures BlockSound(BlockOf(b))
  {
    var block := BlockOf(b);
    var e := ExportBlock(block);
    forall i | 0 <= i < |b.items|
      ensures ValidItem(b.items[i]) && ValidItem(e.items[i]) && Define(e.items[i].fields) == block.items[i].def
      ensures e.items[i].fields.dataLen == b.items[i].fields.dataLen
    {
      assert b.items[i] in b.items;
      DefinedIsStored(b.items[i].fields);
    }
    assert Lengths(e.items) == Lengths(b.items);
    assert LayOut(e.items) == block.items;
  }

  lemma {:induction false} IndexCases(itemByTag: map<string, Item>, items: seq<Item>)
    requires forall i, j :: 0 <= i < j < |items| ==> items[i].tag != items[j].tag
    ensures forall tag :: tag in Index(itemByTag, items) <==> tag in itemByTag || tag in TagsOf(items)
    ensures forall i :: 0 <= i < |items| ==>
              items[i].tag in Index(itemByTag, items) && Index(itemByTag, items)[items[i].tag] == items[i]
    ensures forall tag :: tag in itemByTag && tag !in TagsOf(items) ==> Index(itemByTag, items)[tag] == itemByTag[tag]
  {
    if items != [] {
      var n := |items| - 1;
      IndexCases(itemByTag, items[..n]);
      assert items == items[..n] + [items[n]];
      assert TagsOf(items) == TagsOf(items[..n]) + {items[n].tag};
    }
  }

  lemma LaidOutTags(b: BlockRequest, tag: string)
    requires ValidBlock(b)
    ensures tag in TagsOf(BlockOf(b).items) <==> exists i :: i in b.items && i.tag == tag
  {
    var items := BlockOf(b).items;
    if i :| i in b.items && i.tag == tag {
      var k :| 0 <= k < |b.items| && b.items[k] == i;
      assert items[k] in items;
    }
  }

  lemma OneMoreDi(blocks: seq<Block>, dis: set<string>, block: Block)
    requires DisIndexed(blocks, dis) && block.di !in dis
    ensures DisIndexed(blocks + [block], dis + {block.di})
  {
    var more := blocks + [block];
    forall di | di in dis + {block.di} ensures exists i :: 0 <= i < |more| && more[i].di == di {
      if di in dis {
        var i :| 0 <= i < |blocks| && blocks[i].di == di;
        assert more[i].di == di;
      } else {
        assert more[|blocks|].di == di;
      }
    }
  }

  lemma InsertBlockKeepsSound(t: Table, b: BlockRequest)
    requires BlocksSound(t) && ValidBlock(b) && b.di !in t.blockDis
    ensures BlocksSound(InsertBlock(t, b))
  {
    BlockOfIsSound(b);
    OneMoreDi(t.blocks, t.blockDis, BlockOf(b));
  }

  lemma TagAtAfter(t: Table, b: BlockRequest, i: int, j: int, tag: string)
    requires ValidBlock(b)
    ensures TagAt(InsertBlock(t, b), i, j, tag) <==>
              TagAt(t, i, j, tag) || (i == |t.blocks| && 0 <= j < |b.items| && b.items[j].tag == tag)
  {
  }

  lemma NewTagsAreNew(t: Table, b: BlockRequest, j: int)
    requires ItemsIndexed(t) && ValidBlock(b) && CanInsertBlock(t, b) && 0 <= j < |b.items|
    ensures b.items[j].tag !in t.itemByTag && forall k, l :: !TagAt(t, k, l, b.items[j].tag)
  {
    assert b.items[j] in b.items;
  }

  lemma InsertBlockKeepsUnique(t: Table, b: BlockRequest)
    requires ItemsUnique(t) && ItemsIndexed(t) && ValidBlock(b) && CanInsertBlock(t, b)
    ensures ItemsUnique(InsertBlock(t, b))
  {
    var u := InsertBlock(t, b);
    forall i, j, k, l, tag | TagAt(u, i, j, tag) && TagAt(u, k, l, tag)
      ensures i == k && j == l
    {
      TagAtAfter(t, b, i, j, tag);
      TagAtAfter(t, b, k, l, tag);
      if !TagAt(t, i, j, tag) {
        NewTagsAreNew(t, b, j);
      }
      if !TagAt(t, k, l, tag) {
        NewTagsAreNew(t, b, l);
      }
    }
  }

  lemma IndexAfter(t: Table, b: BlockRequest, tag: string)
    requires ValidBlock(b) && CanInsertBlock(t, b)
    ensures var u := InsertBlock(t, b);
            && (tag in u.itemByTag <==> tag in t.itemByTag || tag in TagsOf(BlockOf(b).items))
            && (tag in t.itemByTag ==> u.itemByTag[tag] == t.itemByTag[tag])
    ensures forall j :: 0 <= j < |b.items| && b.items[j].tag == tag ==>
              tag in InsertBlock(t, b).itemByTag && InsertBlock(t, b).itemByTag[tag] == BlockOf(b).items[j]
  {
    var items := BlockOf(b).items;
    IndexCases(t.itemByTag, items);
    LaidOutTags(b, tag);
  }

  lemma InsertBlockKeepsIndex(t: Table, b: BlockRequest)
    requires ItemsIndexed(t) && ValidBlock(b) && CanInsertBlock(t, b)
    ensures ItemsIndexed(InsertBlock(t, b))
  {
    var u := InsertBlock(t, b);
    forall i, j, tag | TagAt(u, i, j, tag)
      ensures tag in u.itemByTag && u.itemByTag[tag] == u.blocks[i].items[j]
    {
      TagAtAfter(t, b, i, j, tag);
      IndexAfter(t, b, tag);
    }
    forall tag
      ensures tag in u.itemByTag ==> exists i, j :: TagAt(u, i, j, tag)
      ensures tag in u.itemByTag <==> tag in u.blockTags
    {
      IndexAfter(t, b, tag);
      if tag in u.itemByTag {
        FoundAfter(t, b, tag);
      }
    }
  }

  lemma FoundAfter(t: Table, b: BlockRequest, tag: string)
    requires ItemsIndexed(t) && ValidBlock(b) && (tag in t.itemByTag || tag in TagsOf(BlockOf(b).items))
    ensures exists i, j :: TagAt(InsertBlock(t, b), i, j, tag)
  {
    var u := InsertBlock(t, b);
    if tag in t.itemByTag {
      var i, j :| TagAt(t, i, j, tag);
      TagAtAfter(t, b, i, j, tag);
    } else {
      var item :| item in BlockOf(b).items && item.tag == tag;
      var j :| 0 <= j < |BlockOf(b).items| && BlockOf(b).items[j] == item;
      TagAtAfter(t, b, |t.blocks|, j, tag);
    }
  }

  lemma InsertBlockKeepsDefinitions(t: Table, b: BlockRequest)
    requires DefinitionsAgree(t) && ValidBlock(b) && CanInsertBlock(t, b)
    ensures DefinitionsAgree(InsertBlock(t, b))
  {
    var u := InsertBlock(t, b);
    forall tag | tag in u.byTag && tag in u.itemByTag
      ensures SameDefinition(u.itemByTag[tag].def, u.byTag[tag].def)
    {
      IndexAfter(t, b, tag);
      LaidOutTags(b, tag);
      if tag !in t.itemByTag {
        var i :| i in b.items && i.tag == tag;
        var k :| 0 <= k < |b.items| && b.items[k] == i;
        assert CanInsertItem(t, i) && BlockOf(b).items[k].def == Define(i.fields);
      }
    }
  }

  lemma InsertBlockKeepsInv(t: Table, b: BlockRequest)
    requires Inv(t) && ValidBlock(b) && CanInsertBlock(t, b)
    ensures Inv(InsertBlock(t, b))
  {
    assert Holds(t, Indexes) && Holds(t, Duplicates) && Holds(t, Bits) && Holds(t, BlockIndexes) &&
           Holds(t, Definitions);
    InsertBlockKeepsSound(t, b);
    InsertBlockKeepsUnique(t, b);
    InsertBlockKeepsIndex(t, b);
    InsertBlockKeepsDefinitions(t, b);
    SamePointsIndexed(t, InsertBlock(t, b));
  }

  lemma SamePointsIndexed(t: Table, u: Table)
    requires IndexesAgree(t) && NoDuplicates(t) && BitsApart(t) && u.byTag == t.byTag && u.tagsByDi == t.tagsByDi
    ensures IndexesAgree(u) && NoDuplicates(u) && BitsApart(u)
  {
  }

  // ---------- tiling ----------

  function Sum(lengths: seq<nat>): nat {
    if lengths == [] then 0 else Sum(lengths[..|lengths| - 1]) + lengths[|lengths| - 1]
  }

  lemma {:induction false} WrappedSumIsMod(lengths: seq<nat>)
    ensures WrappedSum(lengths) == Sum(lengths) % TWO_32
  {
    if lengths != [] {
      var n := |lengths| - 1;
      WrappedSumIsMod(lengths[..n]);
      SumMod(Sum(lengths[..n]), WrappedSum(lengths[..n]), lengths[n], TWO_32);
    }
  }

  lemma {:induction false} SumMonotone(lengths: seq<nat>, i: nat)
    requires i <= |lengths|
    ensures Sum(lengths[..i]) <= Sum(lengths)
  {
    if i < |lengths| {
      var n := |lengths| - 1;
      SumMonotone(lengths[..n], i);
      assert lengths[..n][..i] == lengths[..i];
    } else {
      assert lengths[..i] == lengths;
    }
  }

  function ItemLengths(items: seq<Item>): (r: seq<nat>)
    ensures |r| == |items|
  {
    seq(|items|, i requires 0 <= i < |items| => items[i].def.dataLen)
  }

  /** The items follow each other without gaps from 0 to the block's length. */
  ghost predicate Tiles(b: Block) {
    && (forall i :: 0 <= i < |b.items| ==> b.items[i].offset == Sum(ItemLengths(b.items)[..i]))
    && Sum(ItemLengths(b.items)) == b.dataLen
  }

  lemma SoundBlock(b: Block)
    requires BlockSound(b)
    ensures b.dataLen == WrappedSum(ItemLengths(b.items)) && b.dataLen < TWO_32
    ensures forall i :: 0 <= i < |b.items| ==> b.items[i].offset == WrappedSum(ItemLengths(b.items)[..i])
  {
    assert Lengths(ExportItems(b.items)) == ItemLengths(b.items);
    assert BlockOf(ExportBlock(b)).items == b.items;
  }

  lemma NoWrapAgrees(lengths: seq<nat>, i: nat)
    requires Sum(lengths) < TWO_32 && i <= |lengths|
    ensures WrappedSum(lengths[..i]) == Sum(lengths[..i])
  {
    SumMonotone(lengths, i);
    WrappedSumIsMod(lengths[..i]);
  }

  /** A block of the table is tiled exactly by its items unless their lengths add up to 2^32 or more:
      the sum is compared with the block's length in 32 bits. */
  lemma TilesIffNoWrap(b: Block)
    requires BlockSound(b)
    ensures Tiles(b) <==> Sum(ItemLengths(b.items)) < TWO_32
  {
    SoundBlock(b);
    TilesIffLengths(b);
  }

  lemma TilesIffLengths(b: Block)
    requires b.dataLen == WrappedSum(ItemLengths(b.items)) && b.dataLen < TWO_32
    requires forall i :: 0 <= i < |b.items| ==> b.items[i].offset == WrappedSum(ItemLengths(b.items)[..i])
    ensures Tiles(b) <==> Sum(ItemLengths(b.items)) < TWO_32
  {
    var lengths := ItemLengths(b.items);
    WrappedSumIsMod(lengths);
    if Sum(lengths) < TWO_32 {
      forall i | 0 <= i < |b.items|
        ensures b.items[i].offset == Sum(lengths[..i])
      {
        NoWrapAgrees(lengths, i);
      }
    }
  }

  function PlainItem(tag: string, dataLen: nat): ItemRequest {
    ItemRequest(tag, Fields(dataLen, OtherType(0), ReadOnly, Some(1), Some(0), Some(0), None, None), None)
  }

  /** Such blocks are accepted: two items of together 2^32 + 5 bytes in a block of 5. */
  lemma WrappingBlockIsValid()
    ensures var b := BlockRequest("00000000", 5, [PlainItem("a", TWO_32 - 1), PlainItem("b", 6)]);
            ValidBlock(b) && BlockSound(BlockOf(b)) && !Tiles(BlockOf(b))
  {
    var b := BlockRequest("00000000", 5, [PlainItem("a", TWO_32 - 1), PlainItem("b", 6)]);
    var lengths := Lengths(b.items);
    assert lengths == [TWO_32 - 1, 6] && lengths[..1] == [TWO_32 - 1] && [TWO_32 - 1][..0] == [];
    assert WrappedSum([TWO_32 - 1]) == TWO_32 - 1 && WrappedSum(lengths) == 5;
    assert ValidBlock(b);
    BlockOfIsSound(b);
    assert ItemLengths(BlockOf(b).items) == lengths;
    assert Sum([TWO_32 - 1]) == TWO_32 - 1 && Sum(lengths) == TWO_32 + 5;
    TilesIffNoWrap(BlockOf(b));
  }

  /** Item `i` covers byte `x`. */
  predicate Covers(b: Block, i: int, x: nat) {
    0 <= i < |b.items| && b.items[i].offset <= x < b.items[i].offset + b.items[i].def.dataLen
  }

  /** In a tiled block every byte belongs to exactly one item. */
  lemma TiledOnce(b: Block, x: nat)
    requires Tiles(b) && x < b.dataLen
    ensures exists i :: Covers(b, i, x)
    ensures forall i, j :: Covers(b, i, x) && Covers(b, j, x) ==> i == j
  {
    assert ItemLengths(b.items)[..|b.items|] == ItemLengths(b.items);
    FindCover(b, x, |b.items|);
    forall i, j | Covers(b, i, x) && Covers(b, j, x)
      ensures i == j
    {
      if i < j {
        EndsBefore(b, i, j);
      } else if j < i {
        EndsBefore(b, j, i);
      }
    }
  }

  lemma {:induction false} FindCover(b: Block, x: nat, n: nat)
    requires Tiles(b) && n <= |b.items| && x < Sum(ItemLengths(b.items)[..n])
    ensures exists i :: Covers(b, i, x)
  {
    var lengths := ItemLengths(b.items);
    assert lengths[..n][..n - 1] == lengths[..n - 1];
    if x < Sum(lengths[..n - 1]) {
      FindCover(b, x, n - 1);
    } else {
      assert Covers(b, n - 1, x);
    }
  }

  lemma EndsBefore(b: Block, i: nat, j: nat)
    requires Tiles(b) && i < j < |b.items|
    ensures b.items[i].offset + b.items[i].def.dataLen <= b.items[j].offset
  {
    var lengths := ItemLengths(b.items);
    assert lengths[..j][..i + 1] == lengths[..i + 1] && lengths[..i + 1][..i] == lengths[..i];
    SumMonotone(lengths[..j], i + 1);
  }

  // ---------- the whole upsert ----------

  ghost function AddPoints(t: Table, points: seq<PointRequest>): (bool, Table)
    requires forall p :: p in points ==> ValidPoint(p)
  {
    if points == [] then (true, t)
    else
      var (ok, u) := AddPoints(t, points[..|points| - 1]);
      var p := points[|points| - 1];
      if ok && CanInsertPoint(u, p) then (true, InsertPoint(u, p)) else (false, u)
  }

  ghost function AddBlocks(t: Table, blocks: seq<BlockRequest>): (bool, Table)
    requires forall b :: b in blocks ==> ValidBlock(b)
  {
    if blocks == [] then (true, t)
    else
      var (ok, u) := AddBlocks(t, blocks[..|blocks| - 1]);
      var b := blocks[|blocks| - 1];
      if ok && CanInsertBlock(u, b) then (true, InsertBlock(u, b)) else (false, u)
  }

  predicate AllValid(points: seq<PointRequest>, blocks: seq<BlockRequest>) {
    (forall p :: p in points ==> ValidPoint(p)) && (forall b :: b in blocks ==> ValidBlock(b))
  }

  /** Whether the upsert succeeds, and the table it leaves behind either way. */
  ghost function Upserted(t: Table, points: seq<PointRequest>, blocks: seq<BlockRequest>, replace: bool): (bool,
        Table) {
    var start := if replace then Empty else t;
    if !AllValid(points, blocks) then (false, start)
    else
      var (ok, u) := AddPoints(start, points);
      if ok then AddBlocks(u, blocks) else (false, u)
  }

  lemma {:induction false} AddPointsKeepsInv(t: Table, points: seq<PointRequest>)
    requires Inv(t) && forall p :: p in points ==> ValidPoint(p)
    ensures Inv(AddPoints(t, points).1)
  {
    if points != [] {
      var n := |points| - 1;
      AddPointsKeepsInv(t, points[..n]);
      var (ok, u) := AddPoints(t, points[..n]);
      if ok && CanInsertPoint(u, points[n]) {
        InsertPointKeepsInv(u, points[n]);
      }
    }
  }

  lemma {:induction false} AddBlocksKeepsInv(t: Table, blocks: seq<BlockRequest>)
    requires Inv(t) && forall b :: b in blocks ==> ValidBlock(b)
    ensures Inv(AddBlocks(t, blocks).1)
  {
    if blocks != [] {
      var n := |blocks| - 1;
      AddBlocksKeepsInv(t, blocks[..n]);
      var (ok, u) := AddBlocks(t, blocks[..n]);
      if ok && CanInsertBlock(u, blocks[n]) {
        InsertBlockKeepsInv(u, blocks[n]);
      }
    }
  }

  /** Every upsert, successful or not, keeps the invariant. */
  lemma UpsertKeepsInv(t: Table, points: seq<PointRequest>, blocks: seq<BlockRequest>, replace: bool)
    requires Inv(t)
    ensures Inv(Upserted(t, points, blocks, replace).1)
  {
    var start := if replace then Empty else t;
    if AllValid(points, blocks) {
      AddPointsKeepsInv(start, points);
      AddBlocksKeepsInv(AddPoints(start, points).1, blocks);
    }
  }

  // ---------- export and import ----------

  /** `points` lists the points of the table, in whatever order. */
  ghost predicate ListsPoints(t: Table, points: seq<PointRequest>) {
    && (forall p :: p in points <==> p.tag in t.byTag && p == ExportPoint(t.byTag[p.tag]))
    && (forall i, j :: 0 <= i < j < |points| ==> points[i].tag != points[j].tag)
  }

  /** `u` holds the first `n` points of a listing of `t`, and no blocks. */
  ghost predicate HoldsPrefix(t: Table, points: seq<PointRequest>, n: nat, u: Table) {
    && Inv(u) && u.blocks == [] && u.itemByTag == map[] && n <= |points|
    && (forall tag :: tag in u.byTag <==> exists i :: 0 <= i < n && points[i].tag == tag)
    && (forall tag :: tag in u.byTag ==> tag in t.byTag && u.byTag[tag] == t.byTag[tag])
  }

  lemma OneMorePoint(t: Table, points: seq<PointRequest>, n: nat, u: Table)
    requires Inv(t) && ListsPoints(t, points) && n < |points| && HoldsPrefix(t, points, n, u)
    requires ValidPoint(points[n])
    ensures CanInsertPoint(u, points[n]) && HoldsPrefix(t, points, n + 1, InsertPoint(u, points[n]))
  {
    NextPointFits(t, points, n, u);
    InsertPointKeepsInv(u, points[n]);
    OneMoreTag(points, n, u);
    assert points[n] in points;
  }

  lemma OneMoreTag(points: seq<PointRequest>, n: nat, u: Table)
    requires n < |points| && ValidPoint(points[n])
    requires forall tag :: tag in u.byTag <==> exists i :: 0 <= i < n && points[i].tag == tag
    ensures forall tag :: tag in InsertPoint(u, points[n]).byTag <==> exists i :: 0 <= i < n + 1 && points[i].tag == tag
  {
    var v := InsertPoint(u, points[n]);
    forall tag ensures tag in v.byTag <==> exists i :: 0 <= i < n + 1 && points[i].tag == tag {
      if tag in u.byTag {
        var i :| 0 <= i < n && points[i].tag == tag;
      } else if tag == points[n].tag {
      }
    }
  }

  /** Adding the first points of a listing to an empty table gives the table of those points. */
  lemma {:induction false} PrefixImports(t: Table, points: seq<PointRequest>, n: nat)
    requires Inv(t) && ListsPoints(t, points) && n <= |points|
    ensures forall p :: p in points[..n] ==> ValidPoint(p)
    ensures AddPoints(Empty, points[..n]).0 && HoldsPrefix(t, points, n, AddPoints(Empty, points[..n]).1)
  {
    ListedAreValid(t, points);
    if n > 0 {
      PrefixImports(t, points, n - 1);
      assert points[..n][..n - 1] == points[..n - 1];
      OneMorePoint(t, points, n - 1, AddPoints(Empty, points[..n - 1]).1);
    }
  }

  lemma ListedAreValid(t: Table, points: seq<PointRequest>)
    requires Inv(t) && ListsPoints(t, points)
    ensures forall p :: p in points ==> ValidPoint(p)
  {
    assert Holds(t, Indexes);
  }

  lemma NextPointFits(t: Table, points: seq<PointRequest>, n: nat, u: Table)
    requires Inv(t) && Inv(u) && ListsPoints(t, points) && n < |points| && ValidPoint(points[n]) && u.itemByTag == map[]
    requires forall tag :: tag in u.byTag <==> exists i :: 0 <= i < n && points[i].tag == tag
    requires forall tag :: tag in u.byTag ==> tag in t.byTag && u.byTag[tag] == t.byTag[tag]
    ensures CanInsertPoint(u, points[n])
    ensures Point(points[n].tag, points[n].di, Define(points[n].fields)) == t.byTag[points[n].tag]
  {
    assert Holds(t, Indexes) && Holds(t, Bits) && Holds(u, Indexes);
    var p := points[n];
    assert p in points;
    forall tag | SharesDi(u, p, tag)
      ensures Compatible(u.byTag[tag].def, Define(p.fields))
    {
      assert u.byTag[tag].di == p.di;
    }
  }

  lemma {:induction false} ExportedAreValid(blocks: seq<Block>)
    requires forall i :: 0 <= i < |blocks| ==> ValidBlock(ExportBlock(blocks[i]))
    ensures forall b :: b in ExportBlocks(blocks) ==> ValidBlock(b)
  {
    if blocks != [] {
      ExportedAreValid(blocks[..|blocks| - 1]);
    }
  }

  lemma AllExportedAreValid(t: Table, n: nat)
    requires Inv(t) && n <= |t.blocks|
    ensures forall b :: b in ExportBlocks(t.blocks[..n]) ==> ValidBlock(b)
  {
    forall i | 0 <= i < n ensures ValidBlock(ExportBlock(t.blocks[..n][i])) {
      assert Holds(t, BlockIndexes) && BlockSound(t.blocks[i]);
    }
    ExportedAreValid(t.blocks[..n]);
  }

  /** Adding the exported blocks in order rebuilds them. */
  lemma {:induction false} BlocksImport(t: Table, u: Table, n: nat)
    requires Inv(t) && Inv(u) && u.byTag == t.byTag && u.blocks == [] && n <= |t.blocks|
    ensures forall b :: b in ExportBlocks(t.blocks[..n]) ==> ValidBlock(b)
    ensures var (ok, v) := AddBlocks(u, ExportBlocks(t.blocks[..n]));
            ok && Inv(v) && v.byTag == t.byTag && v.blocks == t.blocks[..n]
  {
    AllExportedAreValid(t, n);
    if n > 0 {
      BlocksImport(t, u, n - 1);
      var before := ExportBlocks(t.blocks[..n - 1]);
      assert Holds(t, BlockIndexes) && BlockSound(t.blocks[n - 1]);
      BlockImports(t, u, before, AddBlocks(u, before).1, n - 1);
      assert t.blocks[..n][..n - 1] == t.blocks[..n - 1];
      assert ExportBlocks(t.blocks[..n]) == before + [ExportBlock(t.blocks[n - 1])];
    }
  }

  lemma BlockImports(t: Table, u: Table, before: seq<BlockRequest>, v: Table, n: nat)
    requires Inv(t) && Inv(v) && v.byTag == t.byTag && n < |t.blocks| && v.blocks == t.blocks[..n]
    requires BlockSound(t.blocks[n]) && (forall c :: c in before ==> ValidBlock(c)) && AddBlocks(u, before) == (true, v)
    ensures var (ok, w) := AddBlocks(u, before + [ExportBlock(t.blocks[n])]);
            ok && Inv(w) && w.byTag == t.byTag && w.blocks == t.blocks[..n + 1]
  {
    var b := ExportBlock(t.blocks[n]);
    NextBlockFits(t, v, n);
    InsertBlockKeepsInv(v, b);
    assert t.blocks[..n + 1] == t.blocks[..n] + [t.blocks[n]];
  }

  lemma NextBlockFits(t: Table, v: Table, n: nat)
    requires Inv(t) && Inv(v) && v.byTag == t.byTag && n < |t.blocks| && v.blocks == t.blocks[..n]
    requires BlockSound(t.blocks[n])
    ensures CanInsertBlock(v, ExportBlock(t.blocks[n]))
  {
    var b := ExportBlock(t.blocks[n]);
    TagsDiffer(t, n);
    forall i | 0 <= i < |b.items|
      ensures CanInsertItem(v, b.items[i])
    {
      FitsHere(t, v, n, i);
    }
    DiIsNew(t, v, n);
  }

  lemma TagsDiffer(t: Table, n: nat)
    requires Inv(t) && n < |t.blocks|
    ensures forall i, j :: 0 <= i < j < |t.blocks[n].items| ==> t.blocks[n].items[i].tag != t.blocks[n].items[j].tag
  {
    assert Holds(t, BlockIndexes);
    var items := t.blocks[n].items;
    forall i, j | 0 <= i < j < |items| ensures items[i].tag != items[j].tag {
      assert TagAt(t, n, i, items[i].tag) && TagAt(t, n, j, items[j].tag);
    }
  }

  lemma DiIsNew(t: Table, v: Table, n: nat)
    requires Inv(t) && Inv(v) && n < |t.blocks| && v.blocks == t.blocks[..n]
    ensures t.blocks[n].di !in v.blockDis
  {
    assert Holds(t, BlockIndexes) && Holds(v, BlockIndexes);
  }

  lemma TagIsNew(t: Table, v: Table, n: nat, i: nat)
    requires ItemsUnique(t) && ItemsIndexed(v) && n < |t.blocks| && v.blocks == t.blocks[..n] && i < |t.blocks[n].items|
    ensures t.blocks[n].items[i].tag !in v.itemByTag
  {
    var tag := t.blocks[n].items[i].tag;
    assert TagAt(t, n, i, tag);
    forall k, l ensures !TagAt(v, k, l, tag) {
      assert TagAt(v, k, l, tag) ==> TagAt(t, k, l, tag) && k < n;
    }
  }

  lemma FitsHere(t: Table, v: Table, n: nat, i: nat)
    requires Inv(t) && Inv(v) && n < |t.blocks| && v.blocks == t.blocks[..n] && i < |t.blocks[n].items|
    ensures var item := t.blocks[n].items[i];
            item.tag !in v.itemByTag && (item.tag in t.byTag ==> SameDefinition(t.byTag[item.tag].def, item.def))
  {
    assert Holds(t, BlockIndexes) && Holds(t, Definitions) && Holds(v, BlockIndexes);
    TagIsNew(t, v, n, i);
  }

  /** The same tags for the same data identifiers, in whatever order. */
  ghost predicate SameIndex(a: map<string, seq<string>>, b: map<string, seq<string>>) {
    a.Keys == b.Keys && forall di, tag :: di in a ==> (tag in a[di] <==> tag in b[di])
  }

  /** `u` is the same table as `t` up to the order within a data identifier's tags. */
  ghost predicate SameTable(t: Table, u: Table) {
    t == u.(tagsByDi := t.tagsByDi) && SameIndex(t.tagsByDi, u.tagsByDi)
  }

  /** The other indexes follow from the points and the blocks. */
  lemma IndexesFollow(t: Table, u: Table)
    requires Inv(t) && Inv(u) && u.byTag == t.byTag && u.blocks == t.blocks
    ensures SameTable(t, u)
  {
    assert Holds(t, Indexes) && Holds(u, Indexes) && Holds(t, BlockIndexes) && Holds(u, BlockIndexes);
    SameTags(t, u);
    SameBlockIndexes(t, u);
  }

  lemma SameBlockIndexes(t: Table, u: Table)
    requires BlocksIndexed(t) && BlocksIndexed(u) && u.blocks == t.blocks
    ensures u.blockDis == t.blockDis && u.itemByTag == t.itemByTag && u.blockTags == t.blockTags
  {
    SameItems(t, u);
    SameItems(u, t);
  }

  lemma SameTags(t: Table, u: Table)
    requires IndexesAgree(t) && IndexesAgree(u) && u.byTag == t.byTag
    ensures SameIndex(t.tagsByDi, u.tagsByDi)
  {
    SameKeys(t, u);
    SameKeys(u, t);
    forall di, tag | di in t.tagsByDi
      ensures tag in u.tagsByDi[di] <==> tag in t.tagsByDi[di]
    {
      SameDiTags(t, u, di, tag);
      SameDiTags(u, t, di, tag);
    }
  }

  lemma SameKeys(t: Table, u: Table)
    requires IndexesAgree(t) && IndexesAgree(u) && u.byTag == t.byTag
    ensures t.tagsByDi.Keys <= u.tagsByDi.Keys
  {
    forall di | di in t.tagsByDi ensures di in u.tagsByDi {
      assert t.tagsByDi[di][0] in t.byTag;
    }
  }

  lemma SameDiTags(t: Table, u: Table, di: string, tag: string)
    requires IndexesAgree(t) && IndexesAgree(u) && u.byTag == t.byTag && di in t.tagsByDi && di in u.tagsByDi
    ensures tag in t.tagsByDi[di] ==> tag in u.tagsByDi[di]
  {
    if tag in t.tagsByDi[di] {
      assert t.byTag[tag].di == di;
    }
  }

  lemma SameItems(t: Table, u: Table)
    requires ItemsIndexed(t) && ItemsIndexed(u) && u.blocks == t.blocks
    ensures forall tag :: tag in t.itemByTag ==> tag in u.itemByTag && u.itemByTag[tag] == t.itemByTag[tag]
  {
    forall tag | tag in t.itemByTag
      ensures tag in u.itemByTag && u.itemByTag[tag] == t.itemByTag[tag]
    {
      var i, j :| TagAt(t, i, j, tag);
      assert TagAt(u, i, j, tag);
    }
  }

  lemma PointsImport(t: Table, points: seq<PointRequest>)
    requires Inv(t) && ListsPoints(t, points)
    ensures forall p :: p in points ==> ValidPoint(p)
    ensures var (ok, u) := AddPoints(Empty, points);
            ok && Inv(u) && u.byTag == t.byTag && u.blocks == []
  {
    PrefixImports(t, points, |points|);
    assert points[..|points|] == points;
    var u := AddPoints(Empty, points).1;
    forall tag | tag in t.byTag ensures tag in u.byTag {
      ListedTag(t, points, tag);
    }
  }

  lemma ListedTag(t: Table, points: seq<PointRequest>, tag: string)
    requires Inv(t) && ListsPoints(t, points) && tag in t.byTag
    ensures exists i :: 0 <= i < |points| && points[i].tag == tag
  {
    assert Holds(t, Indexes);
    assert ExportPoint(t.byTag[tag]) in points;
  }

  /** Exporting a table and importing it with `replace`, in whatever order the points are listed and
      over whatever table there is, succeeds and rebuilds the table. */
  lemma ExportImport(t: Table, points: seq<PointRequest>, s: Table)
    requires Inv(t) && ListsPoints(t, points)
    ensures var (ok, u) := Upserted(s, points, ExportBlocks(t.blocks), true);
            ok && SameTable(t, u)
  {
    PointsImport(t, points);
    var u := AddPoints(Empty, points).1;
    BlocksImport(t, u, |t.blocks|);
    assert t.blocks[..|t.blocks|] == t.blocks;
    IndexesFollow(t, AddBlocks(u, ExportBlocks(t.blocks)).1);
  }

  // ---------- the table object ----------

  /** The first `n` items of a block can be inserted. */
  ghost predicate ItemsFit(t: Table, b: BlockRequest, n: nat)
    requires ValidBlock(b) && n <= |b.items|
  {
    && (forall i, j :: 0 <= i < j < n ==> b.items[i].tag != b.items[j].tag)
    && (forall i :: 0 <= i < n ==> CanInsertItem(t, b.items[i]))
  }

  lemma LayOutStep(b: BlockRequest, n: nat)
    requires ValidBlock(b) && n < |b.items|
    ensures ValidItem(b.items[n]) && LayOut(b.items)[n] == ItemOf(b.items[n], WrappedSum(Lengths(b.items)[..n]))
    ensures WrappedSum(Lengths(b.items)[..n + 1]) ==
              (WrappedSum(Lengths(b.items)[..n]) + b.items[n].fields.dataLen) % TWO_32
  {
    assert b.items[n] in b.items;
    assert Lengths(b.items)[..n + 1][..n] == Lengths(b.items)[..n];
  }

  function TagsBefore(b: BlockRequest, n: nat): set<string>
    requires n <= |b.items|
  {
    set i | 0 <= i < n :: b.items[i].tag
  }

  /** `built` are the first `n` items of the block and `offset` is where the next one starts. */
  ghost predicate Built(b: BlockRequest, n: nat, offset: nat, built: seq<Item>)
    requires ValidBlock(b) && n <= |b.items|
  {
    offset == WrappedSum(Lengths(b.items)[..n]) && |built| == n && forall k :: 0 <= k < n ==>
        built[k] == LayOut(b.items)[k]
  }

  /** What the loop over a block's items has after `n` of them. */
  ghost predicate Building(t: Table, b: BlockRequest, n: nat, tags: set<string>, offset: nat, built: seq<Item>)
    requires ValidBlock(b)
  {
    n <= |b.items| && ItemsFit(t, b, n) && tags == TagsBefore(b, n) && Built(b, n, offset, built)
  }

  lemma BuiltMore(b: BlockRequest, n: nat, offset: nat, built: seq<Item>)
    requires ValidBlock(b) && n < |b.items| && Built(b, n, offset, built)
    ensures ValidItem(b.items[n])
    ensures Built(b, n + 1, (offset + b.items[n].fields.dataLen) % TWO_32, built + [ItemOf(b.items[n], offset)])
  {
    LayOutStep(b, n);
  }

  lemma BuildingMore(t: Table, b: BlockRequest, n: nat, tags: set<string>, offset: nat, built: seq<Item>)
    requires ValidBlock(b) && n < |b.items| && Building(t, b, n, tags, offset, built)
    ensures ValidItem(b.items[n])
    ensures CanInsertItem(t, b.items[n]) && b.items[n].tag !in tags ==>
              Building(t, b, n + 1, tags + {b.items[n].tag}, (offset + b.items[n].fields.dataLen) % TWO_32,
                       built + [ItemOf(b.items[n], offset)])
    ensures !(CanInsertItem(t, b.items[n]) && b.items[n].tag !in tags) ==> !ItemsFit(t, b, |b.items|)
  {
    BuiltMore(b, n, offset, built);
  }

  class PointTable {
    var byTag: map<string, Point>
    var tagsByDi: map<string, seq<string>>
    var blocks: seq<Block>
    var blockDis: set<string>
    var itemByTag: map<string, Item>
    var blockTags: set<string>

    ghost function Value(): Table
      reads this
    {
      Table(byTag, tagsByDi, blocks, blockDis, itemByTag, blockTags)
    }

    constructor ()
      ensures Value() == Empty && Inv(Value())
    {
      byTag, tagsByDi, blocks, blockDis, itemByTag, blockTags := map[], map[], [], {}, map[], {};
      new;
    }

    method InsertOrUpdatePoint(p: PointRequest) returns (ok: bool)
      requires ValidPoint(p)
      modifies this`byTag, this`tagsByDi
      ensures ok <==> CanInsertPoint(old(Value()), p)
      ensures Value() == if ok then InsertPoint(old(Value()), p) else old(Value())
    {
      if p.tag in byTag && byTag[p.tag].di != p.di {
        return false;
      }
      var def := Define(p.fields);
      var tags := if p.di in tagsByDi then tagsByDi[p.di] else [];
      var fits := FitsWith(p, tags);
      if !fits {
        return false;
      }
      if p.tag in itemByTag && !SameDefinition(itemByTag[p.tag].def, def) {
        return false;
      }
      byTag := byTag[p.tag := Point(p.tag, p.di, def)];
      if p.tag !in tags {
        tags := tags + [p.tag];
      }
      tagsByDi := tagsByDi[p.di := tags];
      return true;
    }

    /** Compares a point with every other point of its data identifier. */
    method FitsWith(p: PointRequest, tags: seq<string>) returns (fits: bool)
      requires ValidPoint(p)
      ensures fits <==> forall tag :: tag in tags && tag != p.tag && tag in byTag ==>
                Compatible(byTag[tag].def, Define(p.fields))
    {
      for i := 0 to |tags|
        invariant forall tag :: tag in tags[..i] && tag != p.tag && tag in byTag ==>
                    Compatible(byTag[tag].def, Define(p.fields))
      {
        var tag := tags[i];
        assert tag in tags;
        if tag == p.tag || tag !in byTag {
          continue;
        }
        var existing := byTag[tag].def;
        if p.fields.bitIndex.None? || existing.bitIndex.None? {
          return false;
        }
        var nextByte := OrZero(p.fields.byteIndex);
        if OrZero(existing.byteIndex) == nextByte && existing.bitIndex.value == p.fields.bitIndex.value {
          return false;
        }
        if existing.dataLen != p.fields.dataLen {
          return false;
        }
      }
      assert tags[..|tags|] == tags;
      return true;
    }

    method InsertOrUpdateBlock(b: BlockRequest) returns (ok: bool)
      requires ValidBlock(b)
      modifies this`blocks, this`blockDis, this`itemByTag, this`blockTags
      ensures ok <==> CanInsertBlock(old(Value()), b)
      ensures Value() == if ok then InsertBlock(old(Value()), b) else old(Value())
    {
      if b.di in blockDis {
        return false;
      }
      var items := BuildItems(b);
      if items.None? {
        return false;
      }
      blocks := blocks + [Block(b.di, b.dataLen, items.value)];
      blockDis := blockDis + {b.di};
      IndexItems(items.value);
      return true;
    }

    method IndexItems(items: seq<Item>)
      modifies this`itemByTag, this`blockTags
      ensures itemByTag == Index(old(itemByTag), items)
      ensures blockTags == old(blockTags) + TagsOf(items)
    {
      for i := 0 to |items|
        modifies this`itemByTag, this`blockTags
        invariant itemByTag == Index(old(itemByTag), items[..i])
        invariant blockTags == old(blockTags) + TagsOf(items[..i])
      {
        assert items[..i + 1][..i] == items[..i];
        assert TagsOf(items[..i + 1]) == TagsOf(items[..i]) + {items[i].tag} by {
          assert items[..i + 1] == items[..i] + [items[i]];
        }
        itemByTag := itemByTag[items[i].tag := items[i]];
        blockTags := blockTags + {items[i].tag};
      }
      assert items[..|items|] == items;
    }

    method ItemFitsIn(item: ItemRequest, localTags: set<string>) returns (fits: bool)
      requires ValidItem(item)
      ensures fits <==> CanInsertItem(Value(), item) && item.tag !in localTags
    {
      if item.tag in localTags || item.tag in itemByTag {
        return false;
      }
      if item.tag in byTag && !SameDefinition(byTag[item.tag].def, Define(item.fields)) {
        return false;
      }
      return true;
    }

    /** Checks and lays out the items of a block; the offsets run in 32 bits. */
    method BuildItems(b: BlockRequest) returns (items: Option<seq<Item>>)
      requires ValidBlock(b)
      ensures items.Some? <==> ItemsFit(Value(), b, |b.items|)
      ensures items.Some? ==> items.value == LayOut(b.items)
    {
      var localTags: set<string> := {};
      var offset: nat := 0;
      var built := [];
      for n := 0 to |b.items|
        invariant Building(Value(), b, n, localTags, offset, built)
      {
        BuildingMore(Value(), b, n, localTags, offset, built);
        var fits := ItemFitsIn(b.items[n], localTags);
        if !fits {
          return None;
        }
        localTags := localTags + {b.items[n].tag};
        built := built + [ItemOf(b.items[n], offset)];
        offset := (offset + b.items[n].fields.dataLen) % TWO_32;
      }
      return Some(built);
    }

    method Upsert(points: seq<PointRequest>, newBlocks: seq<BlockRequest>, replace: bool) returns (ok: bool)
      requires Inv(Value())
      modifies this
      ensures Inv(Value())
      ensures (ok, Value()) == Upserted(old(Value()), points, newBlocks, replace)
    {
      UpsertKeepsInv(Value(), points, newBlocks, replace);
      if replace {
        byTag, tagsByDi, blocks, blockDis, itemByTag, blockTags := map[], map[], [], {}, map[], {};
      }
      if exists p :: p in points && !ValidPoint(p) {
        return false;
      }
      if exists b :: b in newBlocks && !ValidBlock(b) {
        return false;
      }
      ok := UpsertPoints(points);
      if !ok {
        return;
      }
      ok := UpsertBlocks(newBlocks);
    }

    method UpsertPoints(points: seq<PointRequest>) returns (ok: bool)
      requires forall p :: p in points ==> ValidPoint(p)
      modifies this`byTag, this`tagsByDi
      ensures (ok, Value()) == AddPoints(old(Value()), points)
    {
      for i := 0 to |points|
        invariant AddPoints(old(Value()), points[..i]) == (true, Value())
      {
        assert points[..i + 1][..i] == points[..i];
        ok := InsertOrUpdatePoint(points[i]);
        if !ok {
          FailsFrom(old(Value()), points, i + 1);
          return;
        }
      }
      assert points[..|points|] == points;
      return true;
    }

    method UpsertBlocks(newBlocks: seq<BlockRequest>) returns (ok: bool)
      requires forall b :: b in newBlocks ==> ValidBlock(b)
      modifies this`blocks, this`blockDis, this`itemByTag, this`blockTags
      ensures (ok, Value()) == AddBlocks(old(Value()), newBlocks)
    {
      for i := 0 to |newBlocks|
        invariant AddBlocks(old(Value()), newBlocks[..i]) == (true, Value())
      {
        assert newBlocks[..i + 1][..i] == newBlocks[..i];
        ok := InsertOrUpdateBlock(newBlocks[i]);
        if !ok {
          BlocksFailFrom(old(Value()), newBlocks, i + 1);
          return;
        }
      }
      assert newBlocks[..|newBlocks|] == newBlocks;
      return true;
    }

    /** The points in hash order, the blocks in order. */
    method ToProto() returns (points: seq<PointRequest>, outBlocks: seq<BlockRequest>)
      requires Inv(Value())
      ensures ListsPoints(Value(), points) && outBlocks == ExportBlocks(blocks)
    {
      points := ListPoints();
      outBlocks := [];
      for i := 0 to |blocks|
        invariant outBlocks == ExportBlocks(blocks[..i])
      {
        assert blocks[..i + 1][..i] == blocks[..i];
        outBlocks := outBlocks + [ExportBlock(blocks[i])];
      }
      assert blocks[..|blocks|] == blocks;
    }

    method ListPoints() returns (points: seq<PointRequest>)
      requires Inv(Value())
      ensures ListsPoints(Value(), points)
    {
      points := [];
      var todo := byTag.Keys;
      TagsMatch(Value());
      while todo != {}
        invariant todo <= byTag.Keys
        invariant forall p :: p in points <==> p.tag in byTag.Keys - todo && p == ExportPoint(byTag[p.tag])
        invariant forall i, j :: 0 <= i < j < |points| ==> points[i].tag != points[j].tag
      {
        var tag :| tag in todo;
        assert forall i :: 0 <= i < |points| ==> points[i] in points;
        points := points + [ExportPoint(byTag[tag])];
        todo := todo - {tag};
      }
    }
  }

  lemma TagsMatch(t: Table)
    requires Inv(t)
    ensures forall tag :: tag in t.byTag ==> t.byTag[tag].tag == tag
  {
    assert Holds(t, Indexes);
  }

  lemma {:induction false} FailsFrom(t: Table, points: seq<PointRequest>, n: nat)
    requires n <= |points| && (forall p :: p in points ==> ValidPoint(p)) && !AddPoints(t, points[..n]).0
    ensures AddPoints(t, points) == AddPoints(t, points[..n])
  {
    if n < |points| {
      assert points[..|points| - 1][..n] == points[..n];
      FailsFrom(t, points[..|points| - 1], n);
    } else {
      assert points[..n] == points;
    }
  }

  lemma {:induction false} BlocksFailFrom(t: Table, blocks: seq<BlockRequest>, n: nat)
    requires n <= |blocks| && (forall b :: b in blocks ==> ValidBlock(b)) && !AddBlocks(t, blocks[..n]).0
    ensures AddBlocks(t, blocks) == AddBlocks(t, blocks[..n])
  {
    if n < |blocks| {
      assert blocks[..|blocks| - 1][..n] == blocks[..n];
      BlocksFailFrom(t, blocks[..|blocks| - 1], n);
    } else {
      assert blocks[..n] == blocks;
    }
  }
}
