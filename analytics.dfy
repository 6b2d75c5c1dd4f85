/**
 * The data mapping of the analytics panel
 * (frontend/src/components/admin/AnalyticsContent.jsx): category slices
 * for the pie chart, the per-block totals that merge duplicate hotspot
 * rows, the bars built from them, and the total of filed complaints.
 */
module Analytics {
  import opened Wrappers
  import opened Js
  import opened Collections

  /** The chart palette; entry `i` takes colour `i mod 6`. */
  const Colors: seq<string> := ["#3B82F6", "#10B981", "#F59E0B", "#EF4444", "#6366F1", "#EC4899"]

  function ColorAt(i: nat): (c: string)
    ensures c in Colors
  {
    Colors[i % |Colors|]
  }

  /** Colours cycle with period six. */
  lemma ColorsCycle(i: nat)
    ensures ColorAt(i + |Colors|) == ColorAt(i)
    ensures i < |Colors| ==> ColorAt(i) == Colors[i]
  {
  }

  // ------------------------------------------------------------ categories

  /** One row of the per-category aggregate: the category (`null` when unset) and its count. */
  datatype CategoryStat = CategoryStat(id: Option<string>, count: nat)

  datatype Slice = Slice(name: string, value: nat, color: string)

  /** `item._id || "Uncategorized"`. */
  function SliceName(stat: CategoryStat): (name: string)
    ensures Truthy(stat.id) ==> name == stat.id.value
    ensures !Truthy(stat.id) ==> name == "Uncategorized"
    ensures name != ""
  {
    if Truthy(stat.id) then stat.id.value else "Uncategorized"
  }

  /** `categoryStats.map(...)`: one slice per row, same order. */
  function CategoryChartData(stats: seq<CategoryStat>): (r: seq<Slice>)
    ensures |r| == |stats|
    ensures forall i :: 0 <= i < |stats| ==>
              && r[i].value == stats[i].count
              && r[i].color == Colors[i % 6]
              && (r[i].name == "Uncategorized" <==> stats[i].id in {None, Some(""), Some("Uncategorized")})
              && (Truthy(stats[i].id) ==> r[i].name == stats[i].id.value)
  {
    seq(|stats|, i requires 0 <= i < |stats| => Slice(SliceName(stats[i]), stats[i].count, ColorAt(i)))
  }

  /** The total of the counts, summed front to back. */
  function CountSum(stats: seq<CategoryStat>): nat
  {
    if stats == [] then 0 else CountSum(stats[..|stats| - 1]) + stats[|stats| - 1].count
  }

  /** `categoryChartData.reduce((sum, item) => sum + item.value, 0)`. */
  function TotalComplaints(slices: seq<Slice>): (total: nat)
    ensures forall i :: 0 <= i < |slices| ==> slices[i].value <= total
    ensures total == 0 <==> forall i :: 0 <= i < |slices| ==> slices[i].value == 0
  {
    if slices == [] then 0 else TotalComplaints(slices[..|slices| - 1]) + slices[|slices| - 1].value
  }

  /** The slices of a prefix are the prefix of the slices. */
  lemma CategoryChartDataPrefix(stats: seq<CategoryStat>, n: nat)
    requires n <= |stats|
    ensures CategoryChartData(stats[..n]) == CategoryChartData(stats)[..n]
  {
  }

  /** The "Total Filed" figure is the sum of the per-category counts. */
  lemma {:induction false} TotalIsSumOfCategoryCounts(stats: seq<CategoryStat>)
    ensures TotalComplaints(CategoryChartData(stats)) == CountSum(stats)
  {
    if stats != [] {
      var n := |stats| - 1;
      TotalIsSumOfCategoryCounts(stats[..n]);
      CategoryChartDataPrefix(stats, n);
    }
  }

  // ---------------------------------------------------------------- blocks

  /** One row of the hotspot aggregate: `_id: { block, category }` and its count. */
  datatype Hotspot = Hotspot(block: string, category: string, count: nat)

  /** The bar label `Block ${item._id.block}`. */
  function BlockName(h: Hotspot): string
  {
    "Block " + h.block
  }

  function BlockNames(hs: seq<Hotspot>): (r: seq<string>)
    ensures |r| == |hs| && forall i :: 0 <= i < |hs| ==> r[i] == BlockName(hs[i])
  {
    seq(|hs|, i requires 0 <= i < |hs| => BlockName(hs[i]))
  }

  /** The sum of the counts of the rows labelled `name`. */
  function BlockTotal(hs: seq<Hotspot>, name: string): nat
  {
    if hs == [] then 0
    else BlockTotal(hs[..|hs| - 1], name) + (if BlockName(hs[|hs| - 1]) == name then hs[|hs| - 1].count else 0)
  }

  /** The sum of every row's count. */
  function HotspotTotal(hs: seq<Hotspot>): nat
  {
    if hs == [] then 0 else HotspotTotal(hs[..|hs| - 1]) + hs[|hs| - 1].count
  }

  /** A JavaScript object used as a dictionary: its keys in insertion order and its values. */
  datatype Dict = Dict(keys: seq<string>, values: map<string, nat>) {
    ghost predicate Valid()
    {
      NoDuplicates(keys) && forall k :: k in values <==> k in keys
    }

    /** `acc[k] = v`: a new key goes to the end of the key order; an existing one keeps its place. */
    function Put(k: string, v: nat): (d: Dict)
      ensures Valid() ==> d.Valid()
      ensures d.values == values[k := v]
      ensures d.keys == if k in values then keys else keys + [k]
    {
      Dict(if k in values then keys else keys + [k], values[k := v])
    }
  }

  /**
   * The reducer callback: `acc[name]` is reset to 0 when it is falsy
   * (absent, or 0), then the row's count is added. A label seen for the
   * first time goes to the end of the key order.
   */
  function Reducer(acc: Dict, item: Hotspot): (r: Dict)
    ensures var name := BlockName(item);
      && r.keys == (if name in acc.values then acc.keys else acc.keys + [name])
      && r.values == acc.values[name := (if name in acc.values then acc.values[name] else 0) + item.count]
  {
    var blockName := BlockName(item);
    var reset := if !(blockName in acc.values && acc.values[blockName] != 0) then acc.Put(blockName, 0) else acc;
    reset.Put(blockName, reset.values[blockName] + item.count)
  }

  /** The accumulator after the first `i` rows: distinct labels in order, each with its total. */
  ghost predicate Accumulated(hotspots: seq<Hotspot>, i: nat, acc: Dict)
    requires i <= |hotspots|
  {
    && acc.Valid()
    && acc.keys == Distinct(BlockNames(hotspots[..i]))
    && forall k :: k in acc.values ==> acc.values[k] == BlockTotal(hotspots[..i], k)
  }

  /**
   * The `blockMap` reduce: the accumulator object is updated in place row
   * by row. Its keys are the distinct bar labels in first-occurrence
   * order, and each holds the sum of the counts of its rows.
   */
  method BlockMap(hotspots: seq<Hotspot>) returns (acc: Dict)
    ensures acc.Valid()
    ensures acc.keys == Distinct(BlockNames(hotspots))
    ensures forall k :: k in acc.values ==> acc.values[k] == BlockTotal(hotspots, k)
    ensures InFirstOccurrenceOrder(BlockNames(hotspots), acc.keys)
  {
    acc := Dict([], map[]);
    var i := 0;
    while i < |hotspots|
      invariant 0 <= i <= |hotspots|
      invariant Accumulated(hotspots, i, acc)
    {
      ghost var before := acc;
      acc := Reducer(acc, hotspots[i]);
      AccumulateStep(hotspots, i, before, acc);
      i := i + 1;
    }
    assert hotspots[..i] == hotspots;
    DistinctInFirstOccurrenceOrder(BlockNames(hotspots));
  }

  /** One more row, added by the reducer's two writes, keeps the accumulator in step. */
  lemma AccumulateStep(hotspots: seq<Hotspot>, i: nat, before: Dict, after: Dict)
    requires i < |hotspots| && Accumulated(hotspots, i, before)
    requires var name := BlockName(hotspots[i]);
      && after.keys == (if name in before.values then before.keys else before.keys + [name])
      && after.values == before.values[name := (if name in before.values then before.values[name] else 0) + hotspots[i].count]
    ensures Accumulated(hotspots, i + 1, after)
  {
    KeysStep(hotspots, i);
    TotalsStep(hotspots, i, before, after);
  }

  /** The keys after one more row. */
  lemma KeysStep(hotspots: seq<Hotspot>, i: nat)
    requires i < |hotspots|
    ensures Distinct(BlockNames(hotspots[..i + 1])) ==
              if BlockName(hotspots[i]) in Distinct(BlockNames(hotspots[..i]))
              then Distinct(BlockNames(hotspots[..i]))
              else Distinct(BlockNames(hotspots[..i])) + [BlockName(hotspots[i])]
  {
    assert hotspots[..i + 1][..i] == hotspots[..i];
    assert BlockNames(hotspots[..i + 1]) == BlockNames(hotspots[..i]) + [BlockName(hotspots[i])];
    DistinctSnoc(BlockNames(hotspots[..i]), BlockName(hotspots[i]));
  }

  /** A label that labels no row has total 0. */
  lemma {:induction false} BlockTotalUnlisted(hs: seq<Hotspot>, name: string)
    requires forall j :: 0 <= j < |hs| ==> BlockName(hs[j]) != name
    ensures BlockTotal(hs, name) == 0
  {
    if hs != [] {
      BlockTotalUnlisted(hs[..|hs| - 1], name);
    }
  }

  /** Adding one row's count to its label keeps every value equal to its label's total. */
  lemma TotalsStep(hotspots: seq<Hotspot>, i: nat, before: Dict, after: Dict)
    requires i < |hotspots| && before.Valid()
    requires before.keys == Distinct(BlockNames(hotspots[..i]))
    requires forall k :: k in before.values ==> before.values[k] == BlockTotal(hotspots[..i], k)
    requires var name := BlockName(hotspots[i]);
      after.values == before.values[name := (if name in before.values then before.values[name] else 0) + hotspots[i].count]
    ensures forall k :: k in after.values ==> after.values[k] == BlockTotal(hotspots[..i + 1], k)
  {
    var name := BlockName(hotspots[i]);
    var prefix := hotspots[..i];
    assert hotspots[..i + 1][..i] == prefix;
    if name !in before.values {
      forall j | 0 <= j < |prefix|
        ensures BlockName(prefix[j]) != name
      {
        assert BlockNames(prefix)[j] == BlockName(prefix[j]);
      }
      BlockTotalUnlisted(prefix, name);
    }
  }

  datatype Bar = Bar(name: string, value: nat, fill: string)

  /** `Object.keys(blockMap).map(...)`: one bar per key, in key order. */
  function BlockChartData(acc: Dict): (r: seq<Bar>)
    requires acc.Valid()
    ensures |r| == |acc.keys|
    ensures forall i :: 0 <= i < |r| ==>
              r[i].name == acc.keys[i] && r[i].value == acc.values[acc.keys[i]] && r[i].fill == ColorAt(i)
  {
    seq(|acc.keys|, i requires 0 <= i < |acc.keys| => Bar(acc.keys[i], acc.values[acc.keys[i]], ColorAt(i)))
  }

  function BarTotal(bars: seq<Bar>): nat
  {
    if bars == [] then 0 else BarTotal(bars[..|bars| - 1]) + bars[|bars| - 1].value
  }

  /** The sum, over a list of labels, of the totals of their rows. */
  function SumOfTotals(keys: seq<string>, hs: seq<Hotspot>): nat
  {
    if keys == [] then 0 else SumOfTotals(keys[..|keys| - 1], hs) + BlockTotal(hs, keys[|keys| - 1])
  }

  /** Helper for SumOfTotalsCovers: with no rows every listed label totals 0. */
  lemma {:induction false} SumOfTotalsEmpty(keys: seq<string>)
    ensures SumOfTotals(keys, []) == 0
  {
    if keys != [] {
      SumOfTotalsEmpty(keys[..|keys| - 1]);
    }
  }

  /** One more row adds its count exactly once when its label is listed once. */
  lemma {:induction false} SumOfTotalsSnoc(keys: seq<string>, hs: seq<Hotspot>, h: Hotspot)
    requires NoDuplicates(keys)
    ensures SumOfTotals(keys, hs + [h]) == SumOfTotals(keys, hs) + (if BlockName(h) in keys then h.count else 0)
  {
    if keys != [] {
      var init := keys[..|keys| - 1];
      SumOfTotalsSnoc(init, hs, h);
      assert (hs + [h])[..|hs + [h]| - 1] == hs;
      assert keys == init + [keys[|keys| - 1]];
      assert BlockName(h) in keys <==> BlockName(h) in init || BlockName(h) == keys[|keys| - 1];
    }
  }

  /** Summing the totals of distinct labels that cover every row gives the sum of all counts. */
  lemma {:induction false} SumOfTotalsCovers(keys: seq<string>, hs: seq<Hotspot>)
    requires NoDuplicates(keys)
    requires forall i :: 0 <= i < |hs| ==> BlockName(hs[i]) in keys
    ensures SumOfTotals(keys, hs) == HotspotTotal(hs)
  {
    if hs == [] {
      SumOfTotalsEmpty(keys);
    } else {
      var init, last := hs[..|hs| - 1], hs[|hs| - 1];
      SumOfTotalsCovers(keys, init);
      assert hs == init + [last];
      SumOfTotalsSnoc(keys, init, last);
    }
  }

  lemma {:induction false} BarTotalIsSumOfTotals(acc: Dict, hs: seq<Hotspot>, n: nat)
    requires acc.Valid() && n <= |acc.keys|
    requires forall k :: k in acc.values ==> acc.values[k] == BlockTotal(hs, k)
    ensures BarTotal(BlockChartData(acc)[..n]) == SumOfTotals(acc.keys[..n], hs)
  {
    if n > 0 {
      BarTotalIsSumOfTotals(acc, hs, n - 1);
      assert BlockChartData(acc)[..n][..n - 1] == BlockChartData(acc)[..n - 1];
      assert acc.keys[..n][..n - 1] == acc.keys[..n - 1];
    }
  }

  /** Each block label appears on one bar only. */
  lemma BlockBarsDistinct(acc: Dict)
    requires acc.Valid()
    ensures var bars := BlockChartData(acc);
      forall i, j :: 0 <= i < j < |bars| ==> bars[i].name != bars[j].name
  {
  }

  /**
   * Merging duplicate blocks loses no complaint: the bars of the block
   * map add up to the sum of all hotspot counts.
   */
  lemma BlockBarsPreserveTotal(hotspots: seq<Hotspot>, acc: Dict)
    requires acc.Valid()
    requires acc.keys == Distinct(BlockNames(hotspots))
    requires forall k :: k in acc.values ==> acc.values[k] == BlockTotal(hotspots, k)
    ensures BarTotal(BlockChartData(acc)) == HotspotTotal(hotspots)
  {
    var bars := BlockChartData(acc);
    BarTotalIsSumOfTotals(acc, hotspots, |acc.keys|);
    assert bars[..|acc.keys|] == bars;
    assert acc.keys[..|acc.keys|] == acc.keys;
    var names := BlockNames(hotspots);
    assert forall i :: 0 <= i < |hotspots| ==> BlockName(hotspots[i]) in acc.keys by {
      forall i | 0 <= i < |hotspots|
        ensures BlockName(hotspots[i]) in acc.keys
      {
        assert names[i] in names;
      }
    }
    SumOfTotalsCovers(acc.keys, hotspots);
  }
}
