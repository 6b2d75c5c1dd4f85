/**
 * The hotspot grid (frontend/src/components/admin/HotspotHeatmap.jsx):
 * one row per distinct block, one column per category of the fixed list,
 * and in each cell the count of the first aggregate row for that
 * (block, category), coloured by a four-step intensity scale.
 */
module Heatmap {
  import opened Wrappers
  import opened Collections
  import Text
  import ComplaintSchema
  import opened Analytics

  /** The column headings, in order. */
  const HeatmapCategories: seq<string> := ["plumbing", "electricity", "cleanliness", "internet", "security", "other"]

  /** The columns are exactly the complaint category enum, in the schema's order, each once. */
  lemma ColumnsAreTheCategories()
    ensures HeatmapCategories == ComplaintSchema.CategoryValues
    ensures |HeatmapCategories| == 6 && NoDuplicates(HeatmapCategories)
    ensures forall c :: c in HeatmapCategories <==> ComplaintSchema.ParseCategory(c).Some?
  {
  }

  // -------------------------------------------------------------- intensity

  const Quiet := "bg-base-200 opacity-20"
  const Light := "bg-orange-200 text-orange-800"
  const Active := "bg-orange-400 text-white"
  const Hot := "bg-red-600 text-white animate-pulse"

  /** `getIntensity`: 0 is quiet, 1-2 light, 3-5 active, 6 and more hot. */
  function Intensity(count: nat): (r: string)
    ensures r in [Quiet, Light, Active, Hot]
    ensures r == Quiet <==> count == 0
    ensures r == Light <==> 1 <= count < 3
    ensures r == Active <==> 3 <= count < 6
    ensures r == Hot <==> 6 <= count
  {
    if count == 0 then Quiet
    else if count < 3 then Light
    else if count < 6 then Active
    else Hot
  }

  /** The position of a class on the scale, from quiet (0) to hot (3). */
  function Level(cls: string): nat
  {
    if cls == Quiet then 0
    else if cls == Light then 1
    else if cls == Active then 2
    else 3
  }

  /** A larger count is never shown cooler than a smaller one. */
  lemma IntensityMonotone(m: nat, n: nat)
    requires m <= n
    ensures Level(Intensity(m)) <= Level(Intensity(n))
  {
  }

  // ----------------------------------------------------------------- blocks

  function BlockValues(hs: seq<Hotspot>): (r: seq<string>)
    ensures |r| == |hs| && forall i :: 0 <= i < |hs| ==> r[i] == hs[i].block
  {
    seq(|hs|, i requires 0 <= i < |hs| => hs[i].block)
  }

  /** `[...new Set(hotspots.map(h => h._id.block))]`. */
  function Blocks(hs: seq<Hotspot>): (r: seq<string>)
    ensures NoDuplicates(r)
    ensures forall b :: b in r <==> exists i :: 0 <= i < |hs| && hs[i].block == b
  {
    var values := BlockValues(hs);
    var r := Distinct(values);
    assert forall b :: b in values <==> exists i :: 0 <= i < |hs| && hs[i].block == b by {
      forall b | b in values
        ensures exists i :: 0 <= i < |hs| && hs[i].block == b
      {
        var i :| 0 <= i < |values| && values[i] == b;
        assert hs[i].block == b;
      }
    }
    r
  }

  /** The rows come in the order in which their block is first seen. */
  lemma BlocksInFirstSeenOrder(hs: seq<Hotspot>)
    ensures InFirstOccurrenceOrder(BlockValues(hs), Blocks(hs))
  {
    DistinctInFirstOccurrenceOrder(BlockValues(hs));
  }

  // ------------------------------------------------------------------ cells

  predicate Matches(h: Hotspot, block: string, category: string)
  {
    h.block == block && h.category == category
  }

  /** `hotspots.find(h => h._id.block === block && h._id.category === cat)`. */
  function Find(hs: seq<Hotspot>, block: string, category: string): (r: Option<nat>)
    ensures r.None? <==> forall i :: 0 <= i < |hs| ==> !Matches(hs[i], block, category)
    ensures r.Some? ==> r.value < |hs| && Matches(hs[r.value], block, category)
    ensures r.Some? ==> forall j :: 0 <= j < r.value ==> !Matches(hs[j], block, category)
  {
    if hs == [] then None
    else if Matches(hs[0], block, category) then Some(0)
    else
      match Find(hs[1..], block, category)
      case None => None
      case Some(k) => Some(k + 1)
  }

  /** `data ? data.count : 0`. */
  function CellCount(hs: seq<Hotspot>, block: string, category: string): (n: nat)
    ensures (forall i :: 0 <= i < |hs| ==> !Matches(hs[i], block, category)) ==> n == 0
    ensures n > 0 ==> exists i :: 0 <= i < |hs| && Matches(hs[i], block, category) && hs[i].count == n
    // `find` takes the first matching row
    ensures forall i ::
              (0 <= i < |hs| && Matches(hs[i], block, category) && forall j :: 0 <= j < i ==> !Matches(hs[j], block, category))
              ==> n == hs[i].count
  {
    match Find(hs, block, category)
    case None => 0
    case Some(k) => hs[k].count
  }

  /** When the aggregate has a single row for a (block, category), its cell shows that row's count. */
  lemma CellShowsTheMatchingRow(hs: seq<Hotspot>, i: nat)
    requires i < |hs|
    requires forall j :: 0 <= j < |hs| && j != i ==> !Matches(hs[j], hs[i].block, hs[i].category)
    ensures CellCount(hs, hs[i].block, hs[i].category) == hs[i].count
  {
    var f := Find(hs, hs[i].block, hs[i].category);
    assert Matches(hs[i], hs[i].block, hs[i].category);
    assert f.Some? && f.value == i;
  }

  /** The cell text: the count when it is positive, otherwise nothing. */
  function CellLabel(count: nat): (r: string)
    ensures r == "" <==> count == 0
    ensures count > 0 ==> (forall i :: 0 <= i < |r| ==> Text.IsDigit(r[i])) && Text.DigitsValue(r) == count
    // the canonical numeral: no leading zero
    ensures |r| > 1 ==> r[0] != '0'
  {
    if count > 0 then
      Text.NatToStringRoundTrip(count);
      Text.NatToString(count)
    else ""
  }

  /** A rendered cell: its count, its colour class and its visible text. */
  datatype Cell = Cell(count: nat, intensity: string, caption: string)

  datatype Row = Row(caption: string, cells: seq<Cell>)

  /** One `<td>`: the found count, its intensity class, and its text. */
  function MakeCell(hs: seq<Hotspot>, block: string, category: string): (c: Cell)
    ensures c.count == CellCount(hs, block, category)
    ensures c.intensity == Intensity(c.count)
    ensures c.caption == CellLabel(c.count)
    ensures c.caption == "" <==> c.count == 0
    ensures c.caption == "" <==> c.intensity == Quiet
  {
    var count := CellCount(hs, block, category);
    Cell(count, Intensity(count), CellLabel(count))
  }

  /** One `<tr>`: the block's caption, then one cell per category column, in column order. */
  function MakeRow(hs: seq<Hotspot>, block: string): (r: Row)
    ensures r.caption == "Block " + block
    ensures |r.cells| == |HeatmapCategories|
    ensures forall j :: 0 <= j < |HeatmapCategories| ==> r.cells[j] == MakeCell(hs, block, HeatmapCategories[j])
  {
    Row("Block " + block,
        seq(|HeatmapCategories|, j requires 0 <= j < |HeatmapCategories| => MakeCell(hs, block, HeatmapCategories[j])))
  }

  /** The table body: one row per distinct block, six cells per row. */
  function Grid(hs: seq<Hotspot>): (g: seq<Row>)
    ensures |g| == |Blocks(hs)|
    ensures forall r :: 0 <= r < |g| ==>
              && g[r].caption == "Block " + Blocks(hs)[r]
              && |g[r].cells| == 6
              && forall c :: 0 <= c < 6 ==>
                   g[r].cells[c].count == CellCount(hs, Blocks(hs)[r], HeatmapCategories[c])
    ensures forall r, c :: 0 <= r < |g| && 0 <= c < |HeatmapCategories| ==>
              g[r].cells[c] == MakeCell(hs, Blocks(hs)[r], HeatmapCategories[c])
  {
    var blocks := Blocks(hs);
    seq(|blocks|, r requires 0 <= r < |blocks| => MakeRow(hs, blocks[r]))
  }

  /**
   * A cell's colour and text agree with its count: it is blank and quiet
   * exactly when the count is 0, and it is never shown for a combination the
   * aggregate does not hold.
   */
  lemma GridCellsAgree(hs: seq<Hotspot>, r: nat, c: nat)
    requires r < |Grid(hs)| && c < 6
    ensures var cell := Grid(hs)[r].cells[c];
      && (cell.caption == "" <==> cell.intensity == Quiet)
      && (cell.count > 0 ==> exists i :: 0 <= i < |hs| && Matches(hs[i], Blocks(hs)[r], HeatmapCategories[c]))
  {
    var cell := Grid(hs)[r].cells[c];
    assert cell == MakeCell(hs, Blocks(hs)[r], HeatmapCategories[c]);
  }

  /** Every aggregate row's block has a row in the grid. */
  lemma EveryBlockHasARow(hs: seq<Hotspot>, i: nat)
    requires i < |hs|
    ensures hs[i].block in Blocks(hs)
  {
  }
}
