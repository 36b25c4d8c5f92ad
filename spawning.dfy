/**
 * The piece catalog and the pure side of batch selection: catalog repair,
 * the fit filter, the weighted draw and the Fisher-Yates shuffle. A random
 * draw is an explicit integer; `NextBelow` turns it into what the
 * generator's Next(bound) returns.
 */
module Catalog {
  import opened Wrappers
  import opened Geometry
  import opened BoardSpec

  /** A catalog entry: an id, its cells (null allowed) and a draw weight. */
  datatype BlockShape = BlockShape(id: string, cells: Option<seq<Vec>>, weight: int) {

    /** A shape is usable when it has at least one cell. */
    predicate IsValid() {
      cells.Some? && |cells.value| > 0
    }

    /** The cells shifted so that the least x and the least y become 0; null and empty come back as they are. */
    method GetNormalizedCells() returns (r: Option<seq<Vec>>)
      ensures r == NormalizedCells(this)
    {
      if cells.None? || |cells.value| == 0 {
        return cells;
      }
      var cs := cells.value;
      var minX, minY := cs[0].x, cs[0].y;
      var i := 0;
      while i < |cs|
        invariant 0 <= i <= |cs|
        invariant i == 0 ==> minX == cs[0].x && minY == cs[0].y
        invariant i > 0 ==> minX == MinX(cs[..i]) && minY == MinY(cs[..i])
      {
        assert cs[..i + 1][..i] == cs[..i];
        if cs[i].x < minX {
          minX := cs[i].x;
        }
        if cs[i].y < minY {
          minY := cs[i].y;
        }
        i := i + 1;
      }
      assert cs[..i] == cs;
      var normalized := new Vec[|cs|];
      i := 0;
      while i < |cs|
        invariant 0 <= i <= |cs|
        invariant forall j :: 0 <= j < i ==> normalized[j] == cs[j].Minus(Vec(minX, minY))
      {
        normalized[i] := Vec(cs[i].x - minX, cs[i].y - minY);
        i := i + 1;
      }
      assert normalized[..] == Shift(cs, Vec(minX, minY));
      return Some(normalized[..]);
    }
  }

  /** What GetNormalizedCells computes. */
  function NormalizedCells(s: BlockShape): Option<seq<Vec>> {
    if !s.IsValid() then s.cells else Some(Normalize(s.cells.value))
  }

  /** A valid shape's normalised cells keep its length and have both minima at exactly 0. */
  lemma NormalizedCellsShape(s: BlockShape)
    requires s.IsValid()
    ensures NormalizedCells(s).Some? && |NormalizedCells(s).value| == |s.cells.value|
    ensures forall i :: 0 <= i < |s.cells.value| ==> NormalizedCells(s).value[i].x >= 0 && NormalizedCells(s).value[i].y >= 0
    ensures exists i :: 0 <= i < |s.cells.value| && NormalizedCells(s).value[i].x == 0
    ensures exists j :: 0 <= j < |s.cells.value| && NormalizedCells(s).value[j].y == 0
  {
    NormalizeShape(s.cells.value);
  }

  // ---------------------------------------------------------------------------
  // Catalog repair
  // ---------------------------------------------------------------------------

  /** A catalog slot holds a non-null, valid shape. */
  predicate Usable(e: Option<BlockShape>) {
    e.Some? && e.value.IsValid()
  }

  /** The usable entries, in catalog order. */
  function ValidEntries(s: seq<Option<BlockShape>>): (r: seq<Option<BlockShape>>)
    ensures |r| <= |s|
  {
    if |s| == 0 then []
    else (if Usable(s[0]) then [s[0]] else []) + ValidEntries(s[1..])
  }

  /** ValidEntries keeps exactly the usable entries and only those. */
  lemma {:induction false} ValidEntriesSpec(s: seq<Option<BlockShape>>)
    ensures forall e :: e in ValidEntries(s) <==> e in s && Usable(e)
  {
    if |s| > 0 {
      ValidEntriesSpec(s[1..]);
      assert s == [s[0]] + s[1..];
    }
  }

  /** Filtering a concatenation filters each part. */
  lemma {:induction false} ValidEntriesAppend(a: seq<Option<BlockShape>>, b: seq<Option<BlockShape>>)
    ensures ValidEntries(a + b) == ValidEntries(a) + ValidEntries(b)
  {
    if |a| == 0 {
      assert a + b == b;
    } else {
      var head := if Usable(a[0]) then [a[0]] else [];
      assert (a + b)[0] == a[0];
      assert (a + b)[1..] == a[1..] + b;
      assert ValidEntries(a + b) == head + ValidEntries(a[1..] + b);
      assert ValidEntries(a) == head + ValidEntries(a[1..]);
      ValidEntriesAppend(a[1..], b);
      assert head + (ValidEntries(a[1..]) + ValidEntries(b)) == (head + ValidEntries(a[1..])) + ValidEntries(b);
    }
  }

  /** Filtering an already usable catalog changes nothing. */
  lemma {:induction false} ValidEntriesIdempotent(s: seq<Option<BlockShape>>)
    ensures ValidEntries(ValidEntries(s)) == ValidEntries(s)
  {
    if |s| > 0 {
      ValidEntriesIdempotent(s[1..]);
      var t := ValidEntries(s[1..]);
      if Usable(s[0]) {
        var v := [s[0]] + t;
        assert ValidEntries(s) == v;
        assert v[0] == s[0] && v[1..] == t;
        assert ValidEntries(v) == [s[0]] + ValidEntries(t);
      } else {
        assert ValidEntries(s) == t;
      }
    }
  }

  function Cells(ps: seq<(int, int)>): seq<Vec> {
    seq(|ps|, i requires 0 <= i < |ps| => Vec(ps[i].0, ps[i].1))
  }

  /** The ten built-in shapes with their weights. */
  function CreateDefaultShapes(): seq<Option<BlockShape>> {
    [ Some(BlockShape("single", Some(Cells([(0, 0)])), 25)),
      Some(BlockShape("domino", Some(Cells([(0, 0), (1, 0)])), 20)),
      Some(BlockShape("trio_line", Some(Cells([(0, 0), (1, 0), (2, 0)])), 18)),
      Some(BlockShape("quad_square", Some(Cells([(0, 0), (1, 0), (0, 1), (1, 1)])), 12)),
      Some(BlockShape("l_small", Some(Cells([(0, 0), (0, 1), (1, 0)])), 12)),
      Some(BlockShape("l_large", Some(Cells([(0, 0), (0, 1), (0, 2), (1, 0)])), 10)),
      Some(BlockShape("t_shape", Some(Cells([(0, 0), (1, 0), (2, 0), (1, 1)])), 8)),
      Some(BlockShape("plus", Some(Cells([(0, 1), (1, 0), (1, 1), (1, 2), (2, 1)])), 6)),
      Some(BlockShape("five_line", Some(Cells([(0, 0), (1, 0), (2, 0), (3, 0), (4, 0)])), 4)),
      Some(BlockShape("big_square", Some(Cells([(0, 0), (1, 0), (2, 0), (0, 1), (1, 1), (2, 1), (0, 2), (1, 2), (2, 2)])), 3)) ]
  }

  /** The default catalog has ten usable entries with weights between 3 and 25, inside the weight field's 1..100 range. */
  lemma DefaultShapesUsable()
    ensures |CreateDefaultShapes()| == 10
    ensures forall i :: 0 <= i < 10 ==>
      Usable(CreateDefaultShapes()[i]) && 3 <= CreateDefaultShapes()[i].value.weight <= 25
  {
  }

  /** The catalog after repair: its usable entries, or the defaults when there are none. */
  function EnsuredCatalog(s: seq<Option<BlockShape>>): seq<Option<BlockShape>> {
    if |ValidEntries(s)| > 0 then ValidEntries(s) else CreateDefaultShapes()
  }

  /** Every entry of a repaired catalog is usable, and the catalog is never empty. */
  lemma EnsuredCatalogUsable(s: seq<Option<BlockShape>>)
    ensures |EnsuredCatalog(s)| > 0
    ensures forall i :: 0 <= i < |EnsuredCatalog(s)| ==> Usable(EnsuredCatalog(s)[i])
  {
    ValidEntriesSpec(s);
    if |ValidEntries(s)| == 0 {
      DefaultShapesUsable();
    } else {
      assert forall i :: 0 <= i < |ValidEntries(s)| ==> ValidEntries(s)[i] in ValidEntries(s);
    }
  }

  /** Repairing a repaired catalog changes nothing. */
  lemma EnsuredCatalogIdempotent(s: seq<Option<BlockShape>>)
    ensures EnsuredCatalog(EnsuredCatalog(s)) == EnsuredCatalog(s)
  {
    if |ValidEntries(s)| > 0 {
      ValidEntriesIdempotent(s);
    } else {
      DefaultShapesUsable();
      AllUsableKept(CreateDefaultShapes());
    }
  }

  /** A catalog of usable entries is its own filter. */
  lemma {:induction false} AllUsableKept(s: seq<Option<BlockShape>>)
    requires forall i :: 0 <= i < |s| ==> Usable(s[i])
    ensures ValidEntries(s) == s
  {
    if |s| > 0 {
      AllUsableKept(s[1..]);
      assert s == [s[0]] + s[1..];
    }
  }

  // ---------------------------------------------------------------------------
  // Fit filter
  // ---------------------------------------------------------------------------

  /** The shape's normalised cells fit somewhere on the board. */
  predicate ShapeFits(g: Board, s: BlockShape) {
    FitsAnywhere(g, NormalizedCells(s))
  }

  /** The shapes of a null-free catalog that fit, in catalog order. */
  function FitFilter(g: Board, s: seq<Option<BlockShape>>): (r: seq<BlockShape>)
    requires forall i :: 0 <= i < |s| ==> s[i].Some?
    ensures |r| <= |s|
  {
    if |s| == 0 then []
    else FitFilter(g, s[..|s| - 1]) + (if ShapeFits(g, s[|s| - 1].value) then [s[|s| - 1].value] else [])
  }

  /** Extending a catalog prefix by one entry appends that entry exactly when it fits. */
  lemma FitFilterStep(g: Board, s: seq<Option<BlockShape>>, i: nat)
    requires i < |s| && forall k :: 0 <= k < |s| ==> s[k].Some?
    ensures FitFilter(g, s[..i + 1]) ==
      FitFilter(g, s[..i]) + (if ShapeFits(g, s[i].value) then [s[i].value] else [])
  {
    assert s[..i + 1][..i] == s[..i];
  }

  /** FitFilter keeps exactly the catalog shapes that fit. */
  lemma {:induction false} FitFilterSpec(g: Board, s: seq<Option<BlockShape>>)
    requires forall i :: 0 <= i < |s| ==> s[i].Some?
    ensures forall x :: x in FitFilter(g, s) <==> Some(x) in s && ShapeFits(g, x)
  {
    if |s| > 0 {
      var init := s[..|s| - 1];
      FitFilterSpec(g, init);
      assert s == init + [s[|s| - 1]];
    }
  }

  /** Freeing cells never removes a shape from the fitting list. */
  lemma FitFilterMonotone(g: Board, h: Board, s: seq<Option<BlockShape>>, x: BlockShape)
    requires forall i :: 0 <= i < |s| ==> s[i].Some?
    requires FreesAtLeast(g, h)
    requires x in FitFilter(g, s)
    ensures x in FitFilter(h, s)
  {
    FitFilterSpec(g, s);
    FitFilterSpec(h, s);
    FitsMonotone(g, h, NormalizedCells(x));
  }

  /**
   * A spawned piece is anchored at its lexicographically least cell instead
   * of at the independent minima; that is a translation, so a shape that
   * fits in normalised form also fits in its anchored form.
   */
  lemma AnchoredShapeFits(g: Board, s: BlockShape)
    requires s.IsValid() && ShapeFits(g, s)
    ensures FitsAnywhere(g, Some(AnchorNormalize(s.cells.value)))
  {
    var cs := s.cells.value;
    var n := Normalize(cs);
    var x, y :| 0 <= x < GridSize && 0 <= y < GridSize && CanPlaceAt(g, Some(n), Vec(x, y));
    LexMinIsLeast(cs);
    var k :| 0 <= k < |cs| && cs[k] == LexMin(cs);
    var a := Vec(x, y).Plus(n[k]);
    assert FreeCell(g, Vec(x, y).Plus(n[k]));
    TranslatedPlacement(g, n, AnchorNormalize(cs), Vec(x, y), a, Vec(MinX(cs), MinY(cs)), LexMin(cs), cs);
  }

  /** Two patterns that are the same cells minus different bases place the same targets from matching anchors. */
  lemma TranslatedPlacement(g: Board, p: seq<Vec>, q: seq<Vec>, b: Vec, a: Vec, m: Vec, l: Vec, cs: seq<Vec>)
    requires |p| == |cs| && |q| == |cs| && |cs| > 0
    requires forall i :: 0 <= i < |cs| ==> p[i] == cs[i].Minus(m) && q[i] == cs[i].Minus(l)
    requires a == b.Plus(l.Minus(m))
    requires CanPlaceAt(g, Some(p), b) && InGrid(a)
    ensures FitsAnywhere(g, Some(q))
  {
    forall i | 0 <= i < |cs|
      ensures FreeCell(g, a.Plus(q[i]))
    {
      assert a.Plus(q[i]) == b.Plus(p[i]);
    }
    assert CanPlaceAt(g, Some(q), Vec(a.x, a.y));
  }

  // ---------------------------------------------------------------------------
  // Weighted draw
  // ---------------------------------------------------------------------------

  /** The generator's Next(bound): a value in [0, bound), and 0 for bound 0. */
  function NextBelow(raw: int, bound: int): (r: int)
    ensures bound > 0 ==> 0 <= r < bound
    ensures bound <= 0 ==> r == 0
  {
    if bound <= 0 then 0 else raw % bound
  }

  /** Sum of the weights. */
  function WeightSum(s: seq<BlockShape>): int {
    if |s| == 0 then 0 else s[0].weight + WeightSum(s[1..])
  }

  /** Summing left to right: one more shape adds its weight. */
  lemma {:induction false} WeightSumSnoc(s: seq<BlockShape>, x: BlockShape)
    ensures WeightSum(s + [x]) == WeightSum(s) + x.weight
  {
    if |s| > 0 {
      assert (s + [x])[1..] == s[1..] + [x];
      WeightSumSnoc(s[1..], x);
    }
  }

  /**
   * The index the cumulative scan stops at for value r: the first entry
   * whose running weight exceeds r, or the last entry if none does.
   */
  function Pick(s: seq<BlockShape>, r: int): (k: nat)
    requires |s| > 0
    ensures k < |s|
  {
    if |s| == 1 || r < s[0].weight then 0 else 1 + Pick(s[1..], r - s[0].weight)
  }

  /** Positive weights throughout. */
  predicate PositiveWeights(s: seq<BlockShape>) {
    forall i :: 0 <= i < |s| ==> s[i].weight > 0
  }

  /** The running sum of the first k weights. */
  function Prefix(s: seq<BlockShape>, k: nat): int
    requires k <= |s|
  {
    WeightSum(s[..k])
  }

  lemma PrefixStep(s: seq<BlockShape>, k: nat)
    requires |s| > 0 && k < |s|
    ensures Prefix(s, k + 1) == s[0].weight + Prefix(s[1..], k)
  {
    assert s[..k + 1][1..] == s[1..][..k];
  }

  /** With positive weights the running sums grow strictly. */
  lemma {:induction false} PrefixIncreasing(s: seq<BlockShape>, i: nat, j: nat)
    requires PositiveWeights(s) && i < j <= |s|
    ensures Prefix(s, i) < Prefix(s, j)
  {
    assert s[..j] == s[..j - 1] + [s[j - 1]];
    WeightSumSnoc(s[..j - 1], s[j - 1]);
    if i < j - 1 {
      PrefixIncreasing(s, i, j - 1);
    }
  }

  /**
   * For positive weights and a draw in [0, total), Pick lands on the entry
   * whose weight window [Prefix(k), Prefix(k+1)) holds the draw.
   */
  lemma {:induction false} PickInWindow(s: seq<BlockShape>, r: int)
    requires |s| > 0 && PositiveWeights(s) && 0 <= r < WeightSum(s)
    ensures Prefix(s, Pick(s, r)) <= r < Prefix(s, Pick(s, r) + 1)
  {
    assert s[..1] == [s[0]];
    assert s[..0] == [];
    if |s| == 1 {
      assert s[..1] == s;
    } else if r >= s[0].weight {
      var k := Pick(s[1..], r - s[0].weight);
      assert Pick(s, r) == k + 1;
      assert PositiveWeights(s[1..]);
      assert 0 <= r - s[0].weight < WeightSum(s[1..]);
      PickInWindow(s[1..], r - s[0].weight);
      assert k + 1 < |s|;
      PrefixStep(s, k);
      PrefixStep(s, k + 1);
      assert Prefix(s, k + 1) <= r;
      assert r < Prefix(s, k + 2);
    } else {
      assert Pick(s, r) == 0;
      assert WeightSum([s[0]]) == s[0].weight + WeightSum([s[0]][1..]);
      assert [s[0]][1..] == [];
    }
  }

  /** Each entry is chosen exactly for the draws in its own window. */
  lemma PickIffWindow(s: seq<BlockShape>, r: int, k: nat)
    requires |s| > 0 && PositiveWeights(s) && 0 <= r < WeightSum(s) && k < |s|
    ensures Pick(s, r) == k <==> Prefix(s, k) <= r < Prefix(s, k + 1)
  {
    PickInWindow(s, r);
    var p := Pick(s, r);
    if p + 1 < k {
      PrefixIncreasing(s, p + 1, k);
    } else if k + 1 < p {
      PrefixIncreasing(s, k + 1, p);
    }
  }

  /**
   * The cumulative scan. An empty list gives null and a single entry comes
   * back without a draw; otherwise the draw is reduced to [0, total) and the
   * entry at Pick is returned.
   */
  method WeightedRandomSelect(shapeList: seq<BlockShape>, raw: int) returns (chosen: Option<BlockShape>)
    ensures |shapeList| == 0 ==> chosen == None
    ensures |shapeList| > 0 ==> chosen == Some(shapeList[Pick(shapeList, NextBelow(raw, WeightSum(shapeList)))])
  {
    if |shapeList| == 0 {
      return None;
    }
    if |shapeList| == 1 {
      return Some(shapeList[0]);
    }
    var totalWeight := 0;
    var i := 0;
    while i < |shapeList|
      invariant 0 <= i <= |shapeList|
      invariant totalWeight == WeightSum(shapeList[..i])
    {
      assert shapeList[..i + 1] == shapeList[..i] + [shapeList[i]];
      WeightSumSnoc(shapeList[..i], shapeList[i]);
      totalWeight := totalWeight + shapeList[i].weight;
      i := i + 1;
    }
    assert shapeList[..i] == shapeList;
    var randomValue := NextBelow(raw, totalWeight);
    var cumulative := 0;
    i := 0;
    while i < |shapeList|
      invariant 0 <= i <= |shapeList|
      invariant i < |shapeList| ==>
        Pick(shapeList, randomValue) == i + Pick(shapeList[i..], randomValue - cumulative)
      invariant i == |shapeList| ==> Pick(shapeList, randomValue) == |shapeList| - 1
    {
      cumulative := cumulative + shapeList[i].weight;
      if randomValue < cumulative {
        return Some(shapeList[i]);
      }
      if i + 1 < |shapeList| {
        assert shapeList[i..][1..] == shapeList[i + 1..];
      }
      i := i + 1;
    }
    return Some(shapeList[|shapeList| - 1]);
  }

  // ---------------------------------------------------------------------------
  // Fisher-Yates shuffle
  // ---------------------------------------------------------------------------

  function SwapAt<T>(s: seq<T>, i: nat, j: nat): (r: seq<T>)
    requires i < |s| && j < |s|
    ensures |r| == |s|
  {
    s[i := s[j]][j := s[i]]
  }

  /** A swap keeps the multiset of entries. */
  lemma SwapAtPermutes<T>(s: seq<T>, i: nat, j: nat)
    requires i < |s| && j < |s|
    ensures multiset(SwapAt(s, i, j)) == multiset(s)
  {
    if i != j {
      assert multiset(s[i := s[j]]) == multiset(s) - multiset{s[i]} + multiset{s[j]};
    }
  }

  /**
   * Steps i, i-1, ..., 1 of the shuffle: step i swaps entry i with entry
   * Next(i + 1) of the draw taken at that step.
   */
  function ShuffleDown<T>(s: seq<T>, swap: int -> int, i: int): (r: seq<T>)
    requires i < |s|
    ensures |r| == |s|
    decreases i
  {
    if i <= 0 then s else ShuffleDown(SwapAt(s, i, NextBelow(swap(i), i + 1)), swap, i - 1)
  }

  /** Every step is a swap, so the shuffle is a permutation. */
  lemma {:induction false} ShuffleDownPermutes<T>(s: seq<T>, swap: int -> int, i: int)
    requires i < |s|
    ensures multiset(ShuffleDown(s, swap, i)) == multiset(s)
    decreases i
  {
    if i > 0 {
      var j := NextBelow(swap(i), i + 1);
      SwapAtPermutes(s, i, j);
      ShuffleDownPermutes(SwapAt(s, i, j), swap, i - 1);
    }
  }

  /** The whole shuffle of a list. */
  function Shuffled<T>(s: seq<T>, swap: int -> int): seq<T> {
    ShuffleDown(s, swap, |s| - 1)
  }

  /** In-place Fisher-Yates over the list, last index down to 1. */
  method ShuffleList<T>(list: array<T>, swap: int -> int)
    modifies list
    ensures list[..] == Shuffled(old(list[..]), swap)
    ensures multiset(list[..]) == multiset(old(list[..]))
  {
    var i := list.Length - 1;
    while i > 0
      invariant -1 <= i < list.Length
      invariant list.Length == 0 ==> i == -1
      invariant ShuffleDown(list[..], swap, i) == Shuffled(old(list[..]), swap)
    {
      var j := NextBelow(swap(i), i + 1);
      ghost var before := list[..];
      list[i], list[j] := list[j], list[i];
      assert list[..] == SwapAt(before, i, j);
      i := i - 1;
    }
    ShuffleDownPermutes(old(list[..]), swap, list.Length - 1);
  }

  // ---------------------------------------------------------------------------
  // Batch selection
  // ---------------------------------------------------------------------------

  /** How many shapes a batch holds: piecesPerBatch, or none when nothing fits or the setting is not positive. */
  function BatchSize(fitCount: nat, piecesPerBatch: int): nat {
    if fitCount > 0 && piecesPerBatch > 0 then piecesPerBatch else 0
  }

  /** The first n weighted draws from the fitting list, draw k taken from pick(k). */
  function Picks(fitting: seq<BlockShape>, pick: int -> int, n: nat): (r: seq<BlockShape>)
    requires |fitting| > 0
    ensures |r| == n
  {
    seq(n, k requires 0 <= k < n => fitting[Pick(fitting, NextBelow(pick(k), WeightSum(fitting)))])
  }

  lemma PicksSnoc(fitting: seq<BlockShape>, pick: int -> int, n: nat)
    requires |fitting| > 0
    ensures Picks(fitting, pick, n + 1) ==
      Picks(fitting, pick, n) + [fitting[Pick(fitting, NextBelow(pick(n), WeightSum(fitting)))]]
  {
  }

  /** The shapes of a batch, in spawn order. */
  function BatchSelection(fitting: seq<BlockShape>, piecesPerBatch: int, pick: int -> int, swap: int -> int): seq<BlockShape> {
    if |fitting| == 0 then []
    else Shuffled(Picks(fitting, pick, BatchSize(|fitting|, piecesPerBatch)), swap)
  }

  /** Every draw is an entry of the list drawn from. */
  lemma PicksFromFitting(fitting: seq<BlockShape>, pick: int -> int, n: nat)
    requires |fitting| > 0
    ensures forall x :: x in Picks(fitting, pick, n) ==> x in fitting
  {
    var p := Picks(fitting, pick, n);
    forall x | x in p
      ensures x in fitting
    {
      var k :| 0 <= k < n && p[k] == x;
      assert x == fitting[Pick(fitting, NextBelow(pick(k), WeightSum(fitting)))];
    }
  }

  /** A batch has BatchSize entries and every one of them comes from the fitting list. */
  lemma BatchSelectionShape(fitting: seq<BlockShape>, piecesPerBatch: int, pick: int -> int, swap: int -> int)
    ensures |BatchSelection(fitting, piecesPerBatch, pick, swap)| == BatchSize(|fitting|, piecesPerBatch)
    ensures forall x :: x in BatchSelection(fitting, piecesPerBatch, pick, swap) ==> x in fitting
  {
    if |fitting| > 0 {
      var p := Picks(fitting, pick, BatchSize(|fitting|, piecesPerBatch));
      ShuffleDownPermutes(p, swap, |p| - 1);
      PicksFromFitting(fitting, pick, BatchSize(|fitting|, piecesPerBatch));
      var b := Shuffled(p, swap);
      forall x | x in b
        ensures x in fitting
      {
        assert x in multiset(b);
      }
    }
  }

  /**
   * Guaranteed picks, at most two, then fill-up picks until the batch has
   * piecesPerBatch shapes, every draw over the whole fitting list; then the
   * batch is shuffled.
   */
  method SelectShapesForBatch(fittingShapes: seq<BlockShape>, piecesPerBatch: int, pick: int -> int, swap: int -> int)
    returns (selected: seq<BlockShape>)
    ensures selected == BatchSelection(fittingShapes, piecesPerBatch, pick, swap)
    ensures |selected| == BatchSize(|fittingShapes|, piecesPerBatch)
    ensures forall x :: x in selected ==> x in fittingShapes
  {
    selected := [];
    var guaranteedFitCount := Min(2, Min(|fittingShapes|, piecesPerBatch));
    var availableFitting := fittingShapes;
    var i := 0;
    while i < guaranteedFitCount && |availableFitting| > 0
      invariant |selected| == i
      invariant i == 0 || (|fittingShapes| > 0 && 0 < i <= guaranteedFitCount)
      invariant |fittingShapes| > 0 ==> selected == Picks(fittingShapes, pick, i)
    {
      var chosen := WeightedRandomSelect(availableFitting, pick(i));
      PicksSnoc(fittingShapes, pick, i);
      selected := selected + [chosen.value];
      i := i + 1;
    }
    while |selected| < piecesPerBatch && |fittingShapes| > 0
      invariant |fittingShapes| > 0 ==> selected == Picks(fittingShapes, pick, |selected|)
      invariant |fittingShapes| == 0 || piecesPerBatch <= 0 ==> selected == []
      invariant |fittingShapes| > 0 && piecesPerBatch > 0 ==> |selected| <= piecesPerBatch
      decreases piecesPerBatch - |selected|
    {
      var chosen := WeightedRandomSelect(fittingShapes, pick(|selected|));
      PicksSnoc(fittingShapes, pick, |selected|);
      selected := selected + [chosen.value];
    }
    BatchSelectionShape(fittingShapes, piecesPerBatch, pick, swap);
    if |fittingShapes| == 0 {
      return;
    }
    ghost var drawn := selected;
    assert drawn == Picks(fittingShapes, pick, BatchSize(|fittingShapes|, piecesPerBatch));
    var list := new BlockShape[|selected|](k requires 0 <= k < |selected| => selected[k]);
    assert list[..] == drawn;
    ShuffleList(list, swap);
    selected := list[..];
  }
}
