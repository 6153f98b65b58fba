/** What each dashboard edit leaves, section by section and column by column (ui/lib/dashboardLayout.ts:12-65). */
module DashboardExact {
  import opened Arithmetic
  import opened Sequences
  import opened DashboardEdits

  // ---------------------------------------------------------------- the board as it is drawn

  /** How many blocks stand in the first `i` columns. */
  function BlocksBefore(columns: seq<Column>, i: nat): nat
    requires i <= |columns|
  {
    if i == 0 then 0 else BlocksBefore(columns, i - 1) + |columns[i - 1].blocks|
  }

  /** Blocks are read column by column, each from the top. */
  lemma {:induction false} BlocksInOrder(columns: seq<Column>, i: nat, k: nat)
    requires i < |columns| && k < |columns[i].blocks|
    ensures BlocksBefore(columns, i) + k < |ColumnBlocks(columns)| == BlocksBefore(columns, |columns|)
    ensures ColumnBlocks(columns)[BlocksBefore(columns, i) + k] == columns[i].blocks[k]
  {
    BlocksCount(columns);
    if i == 0 {
    } else {
      BlocksInOrder(columns[1..], i - 1, k);
      BeforeTail(columns, i);
    }
  }

  lemma {:induction false} BeforeTail(columns: seq<Column>, i: nat)
    requires 0 < i <= |columns|
    ensures BlocksBefore(columns, i) == |columns[0].blocks| + BlocksBefore(columns[1..], i - 1)
  {
    if i == 1 {
    } else {
      BeforeTail(columns, i - 1);
    }
  }

  lemma {:induction false} BlocksCount(columns: seq<Column>)
    ensures |ColumnBlocks(columns)| == BlocksBefore(columns, |columns|)
  {
    if columns == [] {
    } else {
      BlocksCount(columns[1..]);
      BeforeTail(columns, |columns|);
    }
  }

  /** The columns of a page are those of its sections, one section after another. */
  lemma {:induction false} ColumnsInOrder(sections: seq<Section>, i: nat)
    requires i < |sections|
    ensures SectionColumns(sections)
            == SectionColumns(sections[..i]) + sections[i].columns + SectionColumns(sections[i + 1..])
  {
    SectionColumnsAppend(sections[..i], sections[i..]);
    assert sections == sections[..i] + sections[i..];
    assert sections[i..] == [sections[i]] + sections[i + 1..];
  }

  function OtherThan(id: string): Block -> bool { (b: Block) => b.id != id }

  /** Nothing but the blocks of some columns differs: sections, titles, columns and widths are the same. */
  ghost predicate SameFrame(a: seq<Section>, b: seq<Section>) {
    && |a| == |b|
    && forall i :: 0 <= i < |a| ==>
         && a[i].id == b[i].id && a[i].title == b[i].title && |a[i].columns| == |b[i].columns|
         && forall k :: 0 <= k < |a[i].columns| ==>
              a[i].columns[k].id == b[i].columns[k].id && a[i].columns[k].width == b[i].columns[k].width
  }

  /** `b` has the blocks of `a`, column by column and in their order, without those of `id`. */
  ghost predicate LacksOnly(a: seq<Section>, b: seq<Section>, id: string) {
    && SameFrame(a, b)
    && forall i, k :: 0 <= i < |a| && 0 <= k < |a[i].columns| ==>
         b[i].columns[k].blocks == Filter(OtherThan(id), a[i].columns[k].blocks)
  }

  lemma {:induction false} SameFilter(id: string, blocks: seq<Block>)
    ensures Filter(Without(id), blocks) == Filter(OtherThan(id), blocks)
  {
    FilterSame(Without(id), OtherThan(id), blocks);
  }

  lemma {:induction false} StrippedLacksOnly(sections: seq<Section>, id: string)
    ensures LacksOnly(sections, MapSections(StripAll(id), sections), id)
  {
    if sections == [] {
    } else {
      StrippedLacksOnly(sections[1..], id);
      var columns, rest := sections[0].columns, sections[1..];
      forall k | 0 <= k < |columns|
        ensures MapColumns(StripAll(id), columns)[k] == columns[k].(blocks := Filter(OtherThan(id), columns[k].blocks))
      {
        SameFilter(id, columns[k].blocks);
      }
      var r := MapSections(StripAll(id), sections);
      forall i | 0 < i < |sections| ensures sections[i] == rest[i - 1] && r[i] == r[1..][i - 1] {
      }
    }
  }

  // ---------------------------------------------------------------- removal

  /** The metric of a metric block, or one of those that a comparison block compares. */
  predicate Shows(b: Block, m: string) {
    match b.kind
    case Metric(binding) => binding == m
    case Comparison(bindings) => m in bindings
    case Other => false
  }

  /** Block `b` stands in column `k` of section `i`. */
  ghost predicate StandsIn(sections: seq<Section>, b: Block, i: nat, k: nat) {
    i < |sections| && k < |sections[i].columns| && b in sections[i].columns[k].blocks
  }

  ghost predicate OnBoard(sections: seq<Section>, b: Block) { exists i: nat, k: nat :: StandsIn(sections, b, i, k) }

  ghost predicate ShownBy(sections: seq<Section>, m: string) { exists b :: OnBoard(sections, b) && Shows(b, m) }

  lemma {:induction false} BlocksAreThere(sections: seq<Section>, b: Block)
    ensures b in ColumnBlocks(SectionColumns(sections)) <==> OnBoard(sections, b)
  {
    if sections == [] {
    } else {
      var columns, rest := sections[0].columns, sections[1..];
      ColumnBlocksAppend(columns, SectionColumns(rest));
      BlocksAreThere(rest, b);
      InSomeColumn(columns, b);
      if k :| 0 <= k < |columns| && b in columns[k].blocks { assert StandsIn(sections, b, 0, k); }
      if i: nat, k: nat :| StandsIn(rest, b, i, k) { assert StandsIn(sections, b, i + 1, k); }
      if i: nat, k: nat :| StandsIn(sections, b, i, k) {
        if i > 0 { assert StandsIn(rest, b, i - 1, k); }
      }
    }
  }

  lemma {:induction false} InSomeColumn(columns: seq<Column>, b: Block)
    ensures b in ColumnBlocks(columns) <==> exists k :: 0 <= k < |columns| && b in columns[k].blocks
  {
    if columns == [] {
    } else {
      InSomeColumn(columns[1..], b);
      if k :| 0 <= k < |columns[1..]| && b in columns[1..][k].blocks { assert b in columns[k + 1].blocks; }
      if k :| 0 <= k < |columns| && b in columns[k].blocks { if k > 0 { assert b in columns[1..][k - 1].blocks; } }
    }
  }

  lemma {:induction false} UsedIsShown(sections: seq<Section>, m: string)
    ensures Used(ColumnBlocks(SectionColumns(sections)), m) <==> ShownBy(sections, m)
  {
    forall b ensures m in Bindings(b) <==> Shows(b, m) { }
    forall b ensures b in ColumnBlocks(SectionColumns(sections)) <==> OnBoard(sections, b) {
      BlocksAreThere(sections, b);
    }
  }

  /** A removal takes out the blocks of that id, and the metrics that no block left shows; nothing moves. */
  lemma {:induction false} RemoveLeaves(page: Page, id: string)
    ensures var after := RemoveBlock(page, id);
            && LacksOnly(page.sections, after.sections, id)
            && after.metrics == Filter(UsedIn(Blocks(after)), page.metrics)
            && forall m :: UsedIn(Blocks(after))(m) <==> ShownBy(after.sections, m)
  {
    StrippedLacksOnly(page.sections, id);
    forall m { UsedIsShown(RemoveBlock(page, id).sections, m); }
  }

  // ---------------------------------------------------------------- moving

  /** But for the block that moves, both pages have the same blocks in the same columns and order. */
  ghost predicate SameButFor(a: seq<Section>, b: seq<Section>, id: string) {
    && SameFrame(a, b)
    && forall i, k :: 0 <= i < |a| && 0 <= k < |a[i].columns| ==>
         Filter(OtherThan(id), b[i].columns[k].blocks) == Filter(OtherThan(id), a[i].columns[k].blocks)
  }

  ghost predicate Refused(page: Page, id: string, target: string, beforeId: string) {
    || beforeId == id
    || (forall b :: b in Blocks(page) ==> b.id != id)
    || (forall c :: c in Columns(page) ==> c.id != target)
  }

  /**
   * A move is refused, and the page stays, if there is no such block or column or the block is to go before
   * itself; otherwise metrics, frame and all other blocks stay where they are.
   */
  lemma {:induction false} MoveLeaves(page: Page, id: string, target: string, beforeId: string)
    requires UniqueIds(Blocks(page))
    ensures var after := MoveBlock(page, id, target, beforeId);
            && after.metrics == page.metrics && SameButFor(page.sections, after.sections, id)
            && (Refused(page, id, target, beforeId) ==> after == page)
  {
    var after := MoveBlock(page, id, target, beforeId);
    MoveOnlyMoves(page, id, target, beforeId);
    StrippedLacksOnly(page.sections, id);
    StrippedLacksOnly(after.sections, id);
    PositionFinds(Blocks(page), id);
    assert HasColumn(Columns(page), target) ==> exists c :: c in Columns(page) && c.id == target by {
      if HasColumn(Columns(page), target) {
        var i :| 0 <= i < |Columns(page)| && Columns(page)[i].id == target;
        assert Columns(page)[i] in Columns(page);
      }
    }
    SameStripped(page.sections, after.sections, MapSections(StripAll(id), page.sections), id);
  }

  lemma {:induction false} SameStripped(a: seq<Section>, b: seq<Section>, s: seq<Section>, id: string)
    requires LacksOnly(a, s, id) && LacksOnly(b, s, id)
    ensures SameButFor(a, b, id)
  {
  }

  // ---------------------------------------------------------------- resizing

  /** `r` is `x` rounded to a whole number, halves up. */
  predicate IsRounded(r: int, x: real) { r as real - 0.5 <= x < r as real + 0.5 }

  /**
   * A resize changes the first section of that id, and there two neighbours: the left one gets the rounded
   * width, but at least 1 and no more than leaves 1, and the right one the rest.
   */
  lemma {:induction false} ResizeLeaves(page: Page, sectionId: string, at: nat, i: nat, width: real, rounded: int)
    requires at < |page.sections| && page.sections[at].id == sectionId
    requires forall j :: 0 <= j < at ==> page.sections[j].id != sectionId
    requires i + 1 < |page.sections[at].columns| && IsRounded(rounded, width)
    ensures var after := Resize(page, sectionId, i, width);
            var was := page.sections[at];
            && after.metrics == page.metrics && |after.sections| == |page.sections|
            && (forall j :: 0 <= j < |page.sections| && j != at ==> after.sections[j] == page.sections[j])
            && var now := after.sections[at];
               && now.id == was.id && now.title == was.title && |now.columns| == |was.columns|
               && (forall k :: 0 <= k < |was.columns| && k != i && k != i + 1 ==> now.columns[k] == was.columns[k])
               && now.columns[i] == was.columns[i].(width := now.columns[i].width)
               && now.columns[i + 1] == was.columns[i + 1].(width := now.columns[i + 1].width)
               && now.columns[i].width + now.columns[i + 1].width == was.columns[i].width + was.columns[i + 1].width
               && now.columns[i].width ==
                    var most := was.columns[i].width + was.columns[i + 1].width - 1.0;
                    if rounded as real < 1.0 || most < 1.0 then 1.0
                    else if rounded as real > most then most
                    else rounded as real
  {
    FirstSection(page.sections, sectionId, at);
    assert Round(width) == rounded;
  }

  lemma {:induction false} FirstSection(sections: seq<Section>, id: string, at: nat)
    requires at < |sections| && sections[at].id == id && forall j :: 0 <= j < at ==> sections[j].id != id
    ensures SectionAt(sections, id) == at
  {
    if at == 0 {
    } else {
      assert sections[0].id != id;
      FirstSection(sections[1..], id, at - 1);
    }
  }

  /** Without such a section, or without a column to the right, a resize does nothing. */
  lemma {:induction false} ResizeRefused(page: Page, sectionId: string, i: nat, width: real)
    requires forall j :: 0 <= j < |page.sections| && page.sections[j].id == sectionId ==>
        i + 1 >= |page.sections[j].columns|
    ensures Resize(page, sectionId, i, width) == page
  {
  }

  // ---------------------------------------------------------------- setting the number of columns

  /** `columns` are `count` columns of twelve units in all, with the blocks of `was` dealt to them in turn. */
  ghost predicate DealtFrom(was: seq<Column>, columns: seq<Column>, count: nat, newId: int -> string)
    requires count > 0
  {
    && |columns| == count
    && (forall c :: 0 <= c < count ==> columns[c].id == newId(c) && columns[c].width == 12.0 / count as real)
    && (forall k :: 0 <= k < |ColumnBlocks(was)| ==> DealtTo(columns, k, count, ColumnBlocks(was)[k]))
    && BlocksBefore(columns, count) == BlocksBefore(was, |was|)
  }

  /** Block number `k` is in column k mod count, at place k div count. */
  ghost predicate DealtTo(columns: seq<Column>, k: nat, count: nat, b: Block)
    requires count > 0 && |columns| == count
  {
    0 <= k / count < |columns[k % count].blocks| && columns[k % count].blocks[k / count] == b
  }

  lemma {:induction false} DealtIds(blocks: seq<Block>, count: nat, newId: int -> string)
    requires count > 0
    ensures forall c :: 0 <= c < count ==> Dealt(blocks, count, newId)[c].id == newId(c)
  {
    if blocks == [] {
    } else {
      DealtIds(blocks[..|blocks| - 1], count, newId);
    }
  }

  lemma {:induction false} DealtIsDealt(was: seq<Column>, count: nat, newId: int -> string)
    requires count > 0
    ensures DealtFrom(was, Dealt(ColumnBlocks(was), count, newId), count, newId)
  {
    var blocks := ColumnBlocks(was);
    var columns := Dealt(blocks, count, newId);
    DealtIds(blocks, count, newId);
    forall k | 0 <= k < |blocks| ensures DealtTo(columns, k, count, blocks[k]) {
      DealtAt(blocks, count, newId, k);
    }
    DealtKeepsBlocks(blocks, count, newId);
    assert |multiset(ColumnBlocks(columns))| == |ColumnBlocks(columns)|;
    assert |multiset(blocks)| == |blocks|;
    BlocksCount(columns);
    BlocksCount(was);
  }

  /** Setting the number of columns deals the sections of that id anew and leaves all else. */
  lemma {:induction false} SetColumnsLeaves(page: Page, sectionId: string, count: nat, newId: int -> int -> string,
                                            i: nat)
    requires count > 0 && i < |page.sections|
    ensures var after := SetColumns(page, sectionId, count, newId);
            && after.metrics == page.metrics && |after.sections| == |page.sections|
            && var was, now := page.sections[i], after.sections[i];
               && now.id == was.id && now.title == was.title
               && if was.id == sectionId then DealtFrom(was.columns, now.columns, count, newId(i)) else now == was
  {
    RedealtAt(page.sections, sectionId, count, newId, i);
    DealtIsDealt(page.sections[i].columns, count, newId(i));
  }

  lemma {:induction false} RedealtAt(sections: seq<Section>, sectionId: string, count: nat, newId: int -> int -> string,
                                     i: nat)
    requires count > 0 && i < |sections|
    ensures var r := Redeal(sections, sectionId, count, newId);
            && |r| == |sections|
            && r[i] == if sections[i].id == sectionId
                       then sections[i].(columns := Dealt(ColumnBlocks(sections[i].columns), count, newId(i)))
                       else sections[i]
  {
    var n := |sections| - 1;
    if i < n {
      RedealtAt(sections[..n], sectionId, count, newId, i);
    } else if n > 0 {
      RedealtAt(sections[..n], sectionId, count, newId, 0);
    }
  }
}
