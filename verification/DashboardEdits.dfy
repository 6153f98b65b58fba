/**
 * Editing a dashboard page: move, remove, resize, set columns (ui/lib/dashboardLayout.ts:12-16,
 * 34-65). Widths are real numbers; new column ids are a parameter.
 */
module DashboardEdits {
  import opened Arithmetic
  import opened Sequences

  datatype Kind = Metric(binding: string) | Comparison(bindings: seq<string>) | Other
  datatype Block = Block(id: string, kind: Kind, appearance: string)
  datatype Column = Column(id: string, width: real, blocks: seq<Block>)
  datatype Section = Section(id: string, title: string, columns: seq<Column>)
  datatype Page = Page(metrics: seq<string>, sections: seq<Section>)

  // ---------------------------------------------------------------- reading a page

  function ColumnBlocks(columns: seq<Column>): seq<Block> {
    if columns == [] then [] else columns[0].blocks + ColumnBlocks(columns[1..])
  }

  function SectionColumns(sections: seq<Section>): seq<Column> {
    if sections == [] then [] else sections[0].columns + SectionColumns(sections[1..])
  }

  function Columns(page: Page): seq<Column> { SectionColumns(page.sections) }

  function Blocks(page: Page): seq<Block> { ColumnBlocks(Columns(page)) }

  function Bindings(b: Block): seq<string> {
    match b.kind
    case Metric(binding) => [binding]
    case Comparison(bindings) => bindings
    case Other => []
  }

  ghost predicate UniqueIds(blocks: seq<Block>) {
    forall i, j :: 0 <= i < j < |blocks| ==> blocks[i].id != blocks[j].id
  }

  /** Every block's bindings are among the page's metrics. */
  ghost predicate WellBound(page: Page) {
    forall b, m :: b in Blocks(page) && m in Bindings(b) ==> m in page.metrics
  }

  // ---------------------------------------------------------------- the edits

  function Without(id: string): Block -> bool { (b: Block) => b.id != id }

  /** The column with the blocks of `id` filtered out. */
  function Strip(c: Column, id: string): Column { c.(blocks := Filter(Without(id), c.blocks)) }

  function MapColumns(f: Column -> Column, columns: seq<Column>): (r: seq<Column>)
    ensures |r| == |columns| && forall i :: 0 <= i < |r| ==> r[i] == f(columns[i])
  {
    if columns == [] then [] else [f(columns[0])] + MapColumns(f, columns[1..])
  }

  function MapSections(f: Column -> Column, sections: seq<Section>): (r: seq<Section>)
    ensures |r| == |sections|
  {
    if sections == [] then []
    else [sections[0].(columns := MapColumns(f, sections[0].columns))] + MapSections(f, sections[1..])
  }

  function StripAll(id: string): Column -> Column { c => Strip(c, id) }

  function Used(blocks: seq<Block>, m: string): bool { exists b :: b in blocks && m in Bindings(b) }

  function UsedIn(blocks: seq<Block>): string -> bool { m => Used(blocks, m) }

  function RemoveBlock(page: Page, id: string): Page {
    var next := page.(sections := MapSections(StripAll(id), page.sections));
    next.(metrics := Filter(UsedIn(Blocks(next)), next.metrics))
  }

  /** Position of the first block with this id, or the number of blocks. */
  function PositionOf(blocks: seq<Block>, id: string): (at: nat)
    ensures at <= |blocks|
  {
    if blocks == [] then 0 else if blocks[0].id == id then 0 else 1 + PositionOf(blocks[1..], id)
  }

  /** Before the block `beforeId` if the column has it, else at the end; "" stands for no id. */
  function InsertBlock(c: Column, block: Block, beforeId: string): Column {
    var at := if beforeId != "" then PositionOf(c.blocks, beforeId) else |c.blocks|;
    c.(blocks := c.blocks[..at] + [block] + c.blocks[at..])
  }

  function InsertInColumns(columns: seq<Column>, target: string, block: Block, beforeId: string): seq<Column> {
    if columns == [] then []
    else if columns[0].id == target then [InsertBlock(columns[0], block, beforeId)] + columns[1..]
    else [columns[0]] + InsertInColumns(columns[1..], target, block, beforeId)
  }

  predicate HasColumn(columns: seq<Column>, id: string) { exists i :: 0 <= i < |columns| && columns[i].id == id }

  function InsertInSections(sections: seq<Section>, target: string, block: Block, beforeId: string): seq<Section> {
    if sections == [] then []
    else if HasColumn(sections[0].columns, target) then
      [sections[0].(columns := InsertInColumns(sections[0].columns, target, block, beforeId))] + sections[1..]
    else [sections[0]] + InsertInSections(sections[1..], target, block, beforeId)
  }

  function MoveBlock(page: Page, id: string, target: string, beforeId: string): Page {
    var at := PositionOf(Blocks(page), id);
    if at == |Blocks(page)| || beforeId == id || !HasColumn(Columns(page), target) then page
    else page.(sections := InsertInSections(MapSections(StripAll(id), page.sections), target, Blocks(page)[at],
        beforeId))
  }

  function Round(x: real): int { (x + 0.5).Floor }

  function RMax(a: real, b: real): real { if a < b then b else a }
  function RMin(a: real, b: real): real { if a < b then a else b }

  function ResizePair(columns: seq<Column>, i: nat, width: real): seq<Column>
    requires i + 1 < |columns|
  {
    var total := columns[i].width + columns[i + 1].width;
    var left := RMax(1.0, RMin(total - 1.0, Round(width) as real));
    columns[i := columns[i].(width := left)][i + 1 := columns[i + 1].(width := total - left)]
  }

  function SectionAt(sections: seq<Section>, id: string): (at: nat)
    ensures at <= |sections| && (at < |sections| ==> sections[at].id == id)
  {
    if sections == [] then 0 else if sections[0].id == id then 0 else 1 + SectionAt(sections[1..], id)
  }

  function Resize(page: Page, sectionId: string, i: nat, width: real): Page {
    var at := SectionAt(page.sections, sectionId);
    if at == |page.sections| || i + 1 >= |page.sections[at].columns| then page
    else
      var s := page.sections[at];
      page.(sections := page.sections[at := s.(columns := ResizePair(s.columns, i, width))])
  }

  /** `count` columns of equal width, the blocks dealt to them in turn. */
  function Dealt(blocks: seq<Block>, count: nat, newId: int -> string): (columns: seq<Column>)
    requires count > 0
    ensures |columns| == count
    ensures forall c :: 0 <= c < count ==> columns[c].width == 12.0 / count as real
  {
    if blocks == [] then seq(count, c requires 0 <= c < count => Column(newId(c), 12.0 / count as real, []))
    else
      var n := |blocks| - 1;
      var before := Dealt(blocks[..n], count, newId);
      var c := n % count;
      before[c := before[c].(blocks := before[c].blocks + [blocks[n]])]
  }

  method DealColumns(blocks: seq<Block>, count: nat, newId: int -> string) returns (columns: seq<Column>)
    requires count > 0
    ensures columns == Dealt(blocks, count, newId)
  {
    columns := seq(count, c requires 0 <= c < count => Column(newId(c), 12.0 / count as real, []));
    for index := 0 to |blocks|
      invariant columns == Dealt(blocks[..index], count, newId)
    {
      assert blocks[..index + 1][..index] == blocks[..index];
      var c := index % count;
      columns := columns[c := columns[c].(blocks := columns[c].blocks + [blocks[index]])];
    }
    assert blocks[..|blocks|] == blocks;
  }

  /** Every section with this id is dealt anew. */
  function Redeal(sections: seq<Section>, sectionId: string, count: nat, newId: int -> int -> string): seq<Section>
    requires count > 0
  {
    if sections == [] then []
    else
      var n := |sections| - 1;
      var s := sections[n];
      Redeal(sections[..n], sectionId, count, newId)
      + [if s.id == sectionId then s.(columns := Dealt(ColumnBlocks(s.columns), count, newId(n))) else s]
  }

  function SetColumns(page: Page, sectionId: string, count: nat, newId: int -> int -> string): Page
    requires count > 0
  {
    page.(sections := Redeal(page.sections, sectionId, count, newId))
  }

  datatype Edit =
    | Move(id: string, target: string, beforeId: string)
    | Remove(id: string)
    | ResizeColumns(sectionId: string, index: nat, width: real)
    | SetCount(sectionId: string, count: nat, newId: int -> int -> string)

  predicate Allowed(e: Edit) { e.SetCount? ==> e.count > 0 }

  function Apply(page: Page, e: Edit): Page
    requires Allowed(e)
  {
    match e
    case Move(id, target, beforeId) => MoveBlock(page, id, target, beforeId)
    case Remove(id) => RemoveBlock(page, id)
    case ResizeColumns(sectionId, index, width) => Resize(page, sectionId, index, width)
    case SetCount(sectionId, count, newId) => SetColumns(page, sectionId, count, newId)
  }

  // ---------------------------------------------------------------- stripping and inserting

  lemma {:induction false} ColumnBlocksAppend(a: seq<Column>, b: seq<Column>)
    ensures ColumnBlocks(a + b) == ColumnBlocks(a) + ColumnBlocks(b)
  {
    if a == [] {
      assert a + b == b;
    } else {
      ColumnBlocksAppend(a[1..], b);
      assert (a + b)[1..] == a[1..] + b && (a + b)[0] == a[0];
      var first, rest, more := a[0].blocks, ColumnBlocks(a[1..]), ColumnBlocks(b);
      assert first + (rest + more) == first + rest + more;
    }
  }

  lemma {:induction false} StripColumns(columns: seq<Column>, id: string)
    ensures ColumnBlocks(MapColumns(StripAll(id), columns)) == Filter(Without(id), ColumnBlocks(columns))
  {
    if columns == [] {
    } else {
      StripColumns(columns[1..], id);
      FilterAppend(Without(id), columns[0].blocks, ColumnBlocks(columns[1..]));
    }
  }

  lemma {:induction false} StripSections(sections: seq<Section>, id: string)
    ensures ColumnBlocks(SectionColumns(MapSections(StripAll(id), sections)))
         == Filter(Without(id), ColumnBlocks(SectionColumns(sections)))
  {
    if sections == [] {
    } else {
      var rest := SectionColumns(MapSections(StripAll(id), sections[1..]));
      StripSections(sections[1..], id);
      StripColumns(sections[0].columns, id);
      ColumnBlocksAppend(MapColumns(StripAll(id), sections[0].columns), rest);
      ColumnBlocksAppend(sections[0].columns, SectionColumns(sections[1..]));
      FilterAppend(Without(id), ColumnBlocks(sections[0].columns), ColumnBlocks(SectionColumns(sections[1..])));
    }
  }

  lemma {:induction false} FilterTwice<T>(p: T -> bool, s: seq<T>)
    ensures Filter(p, Filter(p, s)) == Filter(p, s)
  {
    if s == [] {
    } else {
      FilterTwice(p, s[1..]);
    }
  }

  /** Inserting adds one block; taking blocks of its id out again leaves the column as it was. */
  lemma {:induction false} InsertBlockAdds(c: Column, block: Block, beforeId: string)
    ensures multiset(InsertBlock(c, block, beforeId).blocks) == multiset(c.blocks) + multiset{block}
    ensures Strip(InsertBlock(c, block, beforeId), block.id) == Strip(c, block.id)
  {
    var at := if beforeId != "" then PositionOf(c.blocks, beforeId) else |c.blocks|;
    var p := Without(block.id);
    assert c.blocks == c.blocks[..at] + c.blocks[at..];
    FilterAppend(p, c.blocks[..at], c.blocks[at..]);
    FilterAppend(p, c.blocks[..at] + [block], c.blocks[at..]);
    FilterSnoc(p, c.blocks[..at], block);
  }

  lemma {:induction false} InsertInColumnsAdds(columns: seq<Column>, target: string, block: Block, beforeId: string)
    requires HasColumn(columns, target)
    ensures var r := InsertInColumns(columns, target, block, beforeId);
            && multiset(ColumnBlocks(r)) == multiset(ColumnBlocks(columns)) + multiset{block}
            && MapColumns(StripAll(block.id), r) == MapColumns(StripAll(block.id), columns)
  {
    if columns[0].id == target {
      InsertBlockAdds(columns[0], block, beforeId);
    } else {
      var i :| 0 <= i < |columns| && columns[i].id == target;
      assert columns[1..][i - 1].id == target;
      InsertInColumnsAdds(columns[1..], target, block, beforeId);
    }
  }

  lemma {:induction false} InsertInSectionsAdds(sections: seq<Section>, target: string, block: Block, beforeId: string)
    requires HasColumn(SectionColumns(sections), target)
    ensures var r := InsertInSections(sections, target, block, beforeId);
            && multiset(ColumnBlocks(SectionColumns(r)))
               == multiset(ColumnBlocks(SectionColumns(sections))) + multiset{block}
            && MapSections(StripAll(block.id), r) == MapSections(StripAll(block.id), sections)
  {
    hide InsertInColumns, StripAll, MapColumns, HasColumn, ColumnBlocks;
    if sections == [] {
      NoColumns(target);
    } else {
      var first, rest := sections[0].columns, SectionColumns(sections[1..]);
      ColumnBlocksAppend(first, rest);
      if HasColumn(first, target) {
        InsertInColumnsAdds(first, target, block, beforeId);
        ColumnBlocksAppend(InsertInColumns(first, target, block, beforeId), rest);
      } else {
        HasColumnBehind(first, rest, target);
        InsertInSectionsAdds(sections[1..], target, block, beforeId);
        ColumnBlocksAppend(first, SectionColumns(InsertInSections(sections[1..], target, block, beforeId)));
      }
    }
  }

  lemma {:induction false} NoColumns(target: string)
    ensures !HasColumn([], target)
  {
  }

  lemma {:induction false} HasColumnBehind(first: seq<Column>, rest: seq<Column>, target: string)
    requires HasColumn(first + rest, target) && !HasColumn(first, target)
    ensures HasColumn(rest, target)
  {
    var i :| 0 <= i < |first + rest| && (first + rest)[i].id == target;
    assert rest[i - |first|].id == target;
  }

  lemma {:induction false} StripKeepsColumns(columns: seq<Column>, id: string, target: string)
    ensures HasColumn(MapColumns(StripAll(id), columns), target) <==> HasColumn(columns, target)
  {
    var r := MapColumns(StripAll(id), columns);
    assert forall i :: 0 <= i < |r| ==> r[i].id == columns[i].id;
  }

  lemma {:induction false} StripKeepsTargets(sections: seq<Section>, id: string)
    ensures SectionColumns(MapSections(StripAll(id), sections)) == MapColumns(StripAll(id), SectionColumns(sections))
  {
    if sections == [] {
    } else {
      StripKeepsTargets(sections[1..], id);
      MapColumnsAppend(StripAll(id), sections[0].columns, SectionColumns(sections[1..]));
    }
  }

  lemma {:induction false} MapColumnsAppend(f: Column -> Column, a: seq<Column>, b: seq<Column>)
    ensures MapColumns(f, a + b) == MapColumns(f, a) + MapColumns(f, b)
  {
  }

  lemma {:induction false} StripTwice(sections: seq<Section>, id: string)
    ensures MapSections(StripAll(id), MapSections(StripAll(id), sections)) == MapSections(StripAll(id), sections)
  {
    if sections == [] {
    } else {
      StripTwice(sections[1..], id);
      var cs := sections[0].columns;
      forall i | 0 <= i < |cs| ensures Strip(Strip(cs[i], id), id) == Strip(cs[i], id) {
        FilterTwice(Without(id), cs[i].blocks);
      }
      var once := MapColumns(StripAll(id), cs);
      assert MapColumns(StripAll(id), once) == once;
    }
  }

  lemma {:induction false} PositionFinds(blocks: seq<Block>, id: string)
    ensures var at := PositionOf(blocks, id);
            && (at < |blocks| ==> blocks[at].id == id)
            && (forall i :: 0 <= i < at ==> blocks[i].id != id)
  {
    if blocks != [] && blocks[0].id != id {
      PositionFinds(blocks[1..], id);
      var at := PositionOf(blocks[1..], id);
      forall i | 0 <= i < at + 1 ensures blocks[i].id != id {
        if i > 0 { assert blocks[1..][i - 1].id != id; }
      }
    }
  }

  /** With unique ids, filtering one id out removes exactly its block. */
  lemma {:induction false} WithoutOne(blocks: seq<Block>, id: string)
    requires UniqueIds(blocks) && PositionOf(blocks, id) < |blocks|
    ensures multiset(blocks) == multiset(Filter(Without(id), blocks)) + multiset{blocks[PositionOf(blocks, id)]}
  {
    var at := PositionOf(blocks, id);
    PositionFinds(blocks, id);
    FilterMultiset(Without(id), blocks);
    UniqueDistinct(blocks);
    DistinctCounts(blocks);
    forall b: Block | b in blocks && b.id == id ensures b == blocks[at] {
      var i :| 0 <= i < |blocks| && blocks[i] == b;
      assert i == at;
    }
  }

  lemma {:induction false} UniqueDistinct(blocks: seq<Block>)
    requires UniqueIds(blocks)
    ensures Distinct(blocks)
  {
    forall i, j | 0 <= i < j < |blocks| ensures blocks[i] != blocks[j] { assert blocks[i].id != blocks[j].id; }
  }

  // ---------------------------------------------------------------- each edit

  /**
   * A move changes nothing but where its block is: with the block taken out, before and after are
   * the same page, columns, widths and all; and the blocks are the same blocks.
   */
  lemma {:induction false} MoveOnlyMoves(page: Page, id: string, target: string, beforeId: string)
    requires UniqueIds(Blocks(page))
    ensures var after := MoveBlock(page, id, target, beforeId);
            && after.metrics == page.metrics
            && MapSections(StripAll(id), after.sections) == MapSections(StripAll(id), page.sections)
            && multiset(Blocks(after)) == multiset(Blocks(page))
  {
    var at := PositionOf(Blocks(page), id);
    if at < |Blocks(page)| && beforeId != id && HasColumn(Columns(page), target) {
      var block, stripped := Blocks(page)[at], MapSections(StripAll(id), page.sections);
      PositionFinds(Blocks(page), id);
      StripSections(page.sections, id);
      StripKeepsTargets(page.sections, id);
      StripKeepsColumns(Columns(page), id, target);
      InsertInSectionsAdds(stripped, target, block, beforeId);
      StripTwice(page.sections, id);
      WithoutOne(Blocks(page), id);
    }
  }

  /** At place `at` of `c` stands `block`, directly before `beforeId`, or last if the rest of `c` lacks it. */
  predicate LandsAt(c: Column, at: nat, block: Block, beforeId: string) {
    && at < |c.blocks| && c.blocks[at] == block
    && (at + 1 < |c.blocks| ==> c.blocks[at + 1].id == beforeId)
    && (at + 1 == |c.blocks| && beforeId != "" ==> forall i :: 0 <= i < at ==> c.blocks[i].id != beforeId)
  }

  ghost predicate StandsBefore(c: Column, block: Block, beforeId: string) {
    exists at: nat :: LandsAt(c, at, block, beforeId)
  }

  /** A move that is not refused puts its block where it was asked to go. */
  lemma {:induction false} MoveLands(page: Page, id: string, target: string, beforeId: string)
    requires PositionOf(Blocks(page), id) < |Blocks(page)| && beforeId != id && HasColumn(Columns(page), target)
    ensures exists c :: c in Columns(MoveBlock(page, id, target, beforeId)) && c.id == target
              && StandsBefore(c, Blocks(page)[PositionOf(Blocks(page), id)], beforeId)
  {
    var block := Blocks(page)[PositionOf(Blocks(page), id)];
    StripKeepsTargets(page.sections, id);
    StripKeepsColumns(Columns(page), id, target);
    InsertLandsInSections(MapSections(StripAll(id), page.sections), target, block, beforeId);
  }

  lemma {:induction false} InsertLandsInSections(sections: seq<Section>, target: string, block: Block, beforeId: string)
    requires HasColumn(SectionColumns(sections), target)
    ensures exists c :: c in SectionColumns(InsertInSections(sections, target, block, beforeId)) && c.id == target
              && StandsBefore(c, block, beforeId)
  {
    if sections == [] {
    } else {
      var first, rest := sections[0].columns, SectionColumns(sections[1..]);
      if HasColumn(first, target) {
        var c := InsertLands(first, target, block, beforeId);
        assert c in SectionColumns(InsertInSections(sections, target, block, beforeId));
      } else {
        HasColumnBehind(first, rest, target);
        InsertLandsInSections(sections[1..], target, block, beforeId);
      }
    }
  }

  lemma {:induction false} InsertLands(columns: seq<Column>, target: string, block: Block,
                                       beforeId: string) returns (c: Column)
    requires HasColumn(columns, target)
    ensures c in InsertInColumns(columns, target, block, beforeId) && c.id == target && StandsBefore(c, block, beforeId)
  {
    if columns[0].id == target {
      c := InsertBlock(columns[0], block, beforeId);
      var at := if beforeId != "" then PositionOf(columns[0].blocks, beforeId) else |columns[0].blocks|;
      PositionFinds(columns[0].blocks, beforeId);
      assert LandsAt(c, at, block, beforeId);
    } else {
      var i :| 0 <= i < |columns| && columns[i].id == target;
      assert columns[1..][i - 1].id == target;
      c := InsertLands(columns[1..], target, block, beforeId);
    }
  }

  /** A removal takes out the block, and every metric that no remaining block uses, and no more. */
  lemma {:induction false} RemoveIsExact(page: Page, id: string)
    ensures var after := RemoveBlock(page, id);
            && Blocks(after) == Filter(Without(id), Blocks(page))
            && (forall m :: m in after.metrics <==> m in page.metrics && Used(Blocks(after), m))
  {
    StripSections(page.sections, id);
    var next := page.(sections := MapSections(StripAll(id), page.sections));
    FilterMembers(UsedIn(Blocks(next)), next.metrics);
  }

  function Width(columns: seq<Column>): real {
    if columns == [] then 0.0 else Width(columns[..|columns| - 1]) + columns[|columns| - 1].width
  }

  lemma {:induction false} WidthUpdate(columns: seq<Column>, i: nat, c: Column)
    requires i < |columns|
    ensures Width(columns[i := c]) == Width(columns) - columns[i].width + c.width
  {
    var n := |columns| - 1;
    if i < n {
      WidthUpdate(columns[..n], i, c);
      assert columns[i := c][..n] == columns[..n][i := c];
    } else {
      assert columns[i := c][..n] == columns[..n];
    }
  }

  /** A resize moves width between two neighbours: the section total stays, and so do all blocks. */
  lemma {:induction false} ResizeKeepsTotal(columns: seq<Column>, i: nat, width: real)
    requires i + 1 < |columns|
    ensures var r := ResizePair(columns, i, width);
            && Width(r) == Width(columns) && |r| == |columns|
            && (forall k :: 0 <= k < |r| ==> r[k].blocks == columns[k].blocks && r[k].id == columns[k].id)
            && (forall k :: 0 <= k < |r| && k != i && k != i + 1 ==> r[k] == columns[k])
            && (r[i].width >= 1.0 && r[i + 1].width >= 1.0 <==> columns[i].width + columns[i + 1].width >= 2.0)
  {
    var total := columns[i].width + columns[i + 1].width;
    var left := RMax(1.0, RMin(total - 1.0, Round(width) as real));
    WidthUpdate(columns, i, columns[i].(width := left));
    WidthUpdate(columns[i := columns[i].(width := left)], i + 1, columns[i + 1].(width := total - left));
  }

  lemma {:induction false} DealtLengths(blocks: seq<Block>, count: nat, newId: int -> string)
    requires count > 0
    ensures var n := |blocks|;
            forall c :: 0 <= c < count ==>
              |Dealt(blocks, count, newId)[c].blocks| == n / count + if c < n % count then 1 else 0
  {
    if blocks == [] {
      DivUnique(0, 0, 0, count);
    } else {
      DealtLengths(blocks[..|blocks| - 1], count, newId);
      DivModSucc(|blocks| - 1, count);
    }
  }

  /** Dealing puts block k in column k mod count, at place k div count. */
  lemma {:induction false} DealtAt(blocks: seq<Block>, count: nat, newId: int -> string, k: nat)
    requires count > 0 && k < |blocks|
    ensures var columns := Dealt(blocks, count, newId);
            && 0 <= k / count < |columns[k % count].blocks|
            && columns[k % count].blocks[k / count] == blocks[k]
  {
    var n := |blocks| - 1;
    DealtLengths(blocks[..n], count, newId);
    if k < n {
      DealtAt(blocks[..n], count, newId, k);
    } else {
      DivBounds(n, count);
    }
  }

  lemma {:induction false} ColumnGains(columns: seq<Column>, c: nat, block: Block)
    requires c < |columns|
    ensures multiset(ColumnBlocks(columns[c := columns[c].(blocks := columns[c].blocks + [block])]))
         == multiset(ColumnBlocks(columns)) + multiset{block}
  {
    var gained := columns[c].(blocks := columns[c].blocks + [block]);
    if c > 0 {
      ColumnGains(columns[1..], c - 1, block);
      assert columns[c := gained][1..] == columns[1..][c - 1 := gained];
    } else {
      assert columns[c := gained][1..] == columns[1..];
    }
  }

  lemma {:induction false} EmptyColumns(columns: seq<Column>)
    requires forall i :: 0 <= i < |columns| ==> columns[i].blocks == []
    ensures ColumnBlocks(columns) == []
  {
    if columns == [] {
    } else {
      EmptyColumns(columns[1..]);
    }
  }

  /** Dealing loses and invents no block, and the columns share the twelve units of width. */
  lemma {:induction false} DealtKeepsBlocks(blocks: seq<Block>, count: nat, newId: int -> string)
    requires count > 0
    ensures multiset(ColumnBlocks(Dealt(blocks, count, newId))) == multiset(blocks)
  {
    hide ColumnBlocks;
    if blocks == [] {
      EmptyColumns(Dealt(blocks, count, newId));
    } else {
      var n := |blocks| - 1;
      DealtKeepsBlocks(blocks[..n], count, newId);
      ColumnGains(Dealt(blocks[..n], count, newId), n % count, blocks[n]);
      assert blocks == blocks[..n] + [blocks[n]];
    }
  }

  lemma {:induction false} EqualWidths(columns: seq<Column>, w: real)
    requires forall i :: 0 <= i < |columns| ==> columns[i].width == w
    ensures Width(columns) == |columns| as real * w
  {
    if columns == [] {
    } else {
      EqualWidths(columns[..|columns| - 1], w);
    }
  }

  lemma {:induction false} Quotient(a: real, b: real)
    requires b != 0.0
    ensures b * (a / b) == a
  {
  }

  lemma {:induction false} DealtWidth(blocks: seq<Block>, count: nat, newId: int -> string)
    requires count > 0
    ensures Width(Dealt(blocks, count, newId)) == 12.0
  {
    hide Width;
    EqualWidths(Dealt(blocks, count, newId), 12.0 / count as real);
    Quotient(12.0, count as real);
  }

  lemma {:induction false} SectionColumnsAppend(a: seq<Section>, b: seq<Section>)
    ensures SectionColumns(a + b) == SectionColumns(a) + SectionColumns(b)
  {
    if a == [] {
      assert a + b == b;
    } else {
      SectionColumnsAppend(a[1..], b);
      assert (a + b)[1..] == a[1..] + b && (a + b)[0] == a[0];
      var first, rest, more := a[0].columns, SectionColumns(a[1..]), SectionColumns(b);
      assert first + (rest + more) == first + rest + more;
    }
  }

  function SectionBlocks(sections: seq<Section>): seq<Block> { ColumnBlocks(SectionColumns(sections)) }

  lemma {:induction false} SectionBlocksSnoc(sections: seq<Section>, s: Section)
    ensures SectionBlocks(sections + [s]) == SectionBlocks(sections) + ColumnBlocks(s.columns)
  {
    SectionColumnsAppend(sections, [s]);
    assert SectionColumns([s]) == s.columns by { assert [s][1..] == []; }
    ColumnBlocksAppend(SectionColumns(sections), s.columns);
  }

  lemma {:induction false} RedealKeepsBlocks(sections: seq<Section>, sectionId: string, count: nat,
                                             newId: int -> int -> string)
    requires count > 0
    ensures multiset(SectionBlocks(Redeal(sections, sectionId, count, newId))) == multiset(SectionBlocks(sections))
  {
    hide Dealt, SectionBlocks, ColumnBlocks;
    if sections == [] {
    } else {
      var n := |sections| - 1;
      var s := sections[n];
      RedealKeepsBlocks(sections[..n], sectionId, count, newId);
      DealtKeepsBlocks(ColumnBlocks(s.columns), count, newId(n));
      SectionBlocksSnoc(sections[..n], s);
      SectionBlocksSnoc(Redeal(sections[..n], sectionId, count, newId),
                        s.(columns := Dealt(ColumnBlocks(s.columns), count, newId(n))));
      SectionBlocksSnoc(Redeal(sections[..n], sectionId, count, newId), s);
      assert sections == sections[..n] + [s];
    }
  }

  lemma {:induction false} SameBlocks(a: seq<Column>, b: seq<Column>)
    requires |a| == |b| && forall k :: 0 <= k < |a| ==> a[k].blocks == b[k].blocks
    ensures ColumnBlocks(a) == ColumnBlocks(b)
  {
    if a == [] {
    } else {
      SameBlocks(a[1..], b[1..]);
    }
  }

  lemma {:induction false} ResizeKeepsBlocks(page: Page, sectionId: string, i: nat, width: real)
    ensures Blocks(Resize(page, sectionId, i, width)) == Blocks(page)
  {
    var at := SectionAt(page.sections, sectionId);
    if at < |page.sections| && i + 1 < |page.sections[at].columns| {
      var s := page.sections[at];
      var r := s.(columns := ResizePair(s.columns, i, width));
      var front, back := page.sections[..at], page.sections[at + 1..];
      ResizeKeepsTotal(s.columns, i, width);
      SameBlocks(r.columns, s.columns);
      assert page.sections == front + [s] + back && page.sections[at := r] == front + [r] + back;
      SectionColumnsAppend(front + [s], back);
      SectionColumnsAppend(front + [r], back);
      ColumnBlocksAppend(SectionColumns(front + [s]), SectionColumns(back));
      ColumnBlocksAppend(SectionColumns(front + [r]), SectionColumns(back));
      SectionBlocksSnoc(front, s);
      SectionBlocksSnoc(front, r);
    }
  }

  // ---------------------------------------------------------------- any run of edits

  /** What every edit keeps: block ids are unique, and bindings name metrics of the page. */
  ghost predicate Sound(page: Page) { UniqueIds(Blocks(page)) && WellBound(page) }

  lemma {:induction false} UniqueByMultiset(a: seq<Block>, b: seq<Block>)
    requires UniqueIds(a) && multiset(a) == multiset(b)
    ensures UniqueIds(b)
  {
    UniqueDistinct(a);
    DistinctByMultiset(a, b);
    forall i, j | 0 <= i < j < |b| ensures b[i].id != b[j].id {
      assert b[i] in multiset(a) && b[j] in multiset(a) && b[i] != b[j];
      var k, l :| 0 <= k < |a| && 0 <= l < |a| && a[k] == b[i] && a[l] == b[j];
      assert k < l || l < k;
    }
  }

  lemma {:induction false} SameBlocksSound(page: Page, after: Page)
    requires Sound(page) && after.metrics == page.metrics && multiset(Blocks(after)) == multiset(Blocks(page))
    ensures Sound(after) && forall b :: b in Blocks(after) <==> b in Blocks(page)
  {
    UniqueByMultiset(Blocks(page), Blocks(after));
    forall b ensures b in Blocks(after) <==> b in Blocks(page) {
      assert b in multiset(Blocks(after)) <==> b in multiset(Blocks(page));
    }
  }

  lemma {:induction false} FilterUnique(p: Block -> bool, blocks: seq<Block>)
    requires UniqueIds(blocks)
    ensures UniqueIds(Filter(p, blocks))
  {
    if blocks == [] {
    } else {
      FilterUnique(p, blocks[1..]);
      FilterMembers(p, blocks[1..]);
      forall b | b in Filter(p, blocks[1..]) ensures b.id != blocks[0].id {
        var i :| 0 <= i < |blocks[1..]| && blocks[1..][i] == b;
      }
    }
  }

  /** Each edit keeps the page sound; only a removal takes blocks away, and then just its own. */
  lemma {:induction false} EditKeepsSound(page: Page, e: Edit)
    requires Sound(page) && Allowed(e)
    ensures Sound(Apply(page, e))
    ensures forall b :: b in Blocks(Apply(page, e)) <==> b in Blocks(page) && !(e.Remove? && b.id == e.id)
  {
    hide Sound, Blocks, MoveBlock, RemoveBlock, Resize, SetColumns;
    match e
    case Move(id, target, beforeId) =>
      assert UniqueIds(Blocks(page)) by { SoundUnique(page); }
      MoveOnlyMoves(page, id, target, beforeId);
      SameBlocksSound(page, Apply(page, e));
    case Remove(id) => RemoveKeepsSound(page, id);
    case ResizeColumns(sectionId, index, width) =>
      ResizeKeepsBlocks(page, sectionId, index, width);
      ResizeKeepsMetrics(page, sectionId, index, width);
      SameBlocksSound(page, Apply(page, e));
    case SetCount(sectionId, count, newId) =>
      SetColumnsKeepsBlocks(page, sectionId, count, newId);
      SameBlocksSound(page, Apply(page, e));
  }

  lemma {:induction false} SoundUnique(page: Page)
    requires Sound(page)
    ensures UniqueIds(Blocks(page))
  {
  }

  lemma {:induction false} ResizeKeepsMetrics(page: Page, sectionId: string, i: nat, width: real)
    ensures Resize(page, sectionId, i, width).metrics == page.metrics
  {
  }

  lemma {:induction false} SetColumnsKeepsBlocks(page: Page, sectionId: string, count: nat, newId: int -> int -> string)
    requires count > 0
    ensures SetColumns(page, sectionId, count, newId).metrics == page.metrics
    ensures multiset(Blocks(SetColumns(page, sectionId, count, newId))) == multiset(Blocks(page))
  {
    RedealKeepsBlocks(page.sections, sectionId, count, newId);
  }

  lemma {:induction false} RemoveKeepsSound(page: Page, id: string)
    requires Sound(page)
    ensures Sound(RemoveBlock(page, id))
    ensures forall b :: b in Blocks(RemoveBlock(page, id)) <==> b in Blocks(page) && b.id != id
  {
    hide RemoveBlock, Blocks;
    RemoveIsExact(page, id);
    FilterUnique(Without(id), Blocks(page));
    FilterMembers(Without(id), Blocks(page));
    forall b, m | b in Blocks(RemoveBlock(page, id)) && m in Bindings(b) ensures m in RemoveBlock(page, id).metrics {
      assert b in Blocks(page) && Used(Blocks(RemoveBlock(page, id)), m);
    }
  }

  function ApplyAll(page: Page, edits: seq<Edit>): Page
    requires forall e :: e in edits ==> Allowed(e)
  {
    if edits == [] then page else Apply(ApplyAll(page, edits[..|edits| - 1]), edits[|edits| - 1])
  }

  /**
   * Over any run of edits the page stays sound, and the blocks at the end are exactly those at the
   * start whose ids no edit of the run removed.
   */
  lemma {:induction false} RunKeepsSound(page: Page, edits: seq<Edit>)
    requires Sound(page) && forall e :: e in edits ==> Allowed(e)
    ensures Sound(ApplyAll(page, edits))
    ensures forall b :: b in Blocks(ApplyAll(page, edits)) <==>
              b in Blocks(page) && forall e :: e in edits ==> !(e.Remove? && e.id == b.id)
  {
    hide Sound, Apply, Blocks;
    if edits == [] {
    } else {
      var n := |edits| - 1;
      RunKeepsSound(page, edits[..n]);
      EditKeepsSound(ApplyAll(page, edits[..n]), edits[n]);
      assert edits == edits[..n] + [edits[n]];
      assert forall e :: e in edits <==> e in edits[..n] || e == edits[n];
    }
  }
}
