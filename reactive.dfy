/**
 * The two mappers that turn a genotype into a body of reactive voxels:
 * `isToReactiveGridVsr` reads one integer per grid cell, and
 * `nmrfToReactiveGridVsr` queries a multivariate function at every cell and
 * takes the 1-based index of its largest positive output. In both, index 0
 * means "no voxel", and a grid whose largest index is 0 becomes the
 * placeholder body. The grid is kept as its cell values; fitting it and
 * keeping the largest connected part are not part of this model.
 */
module Reactive {
  import opened Results
  import opened Mappers

  /** The body a grid of voxel indexes yields. */
  datatype ReactiveBody = Placeholder | Fitted(indexes: seq<int>)

  /** `IntString` of the integer-string genotype: the genes and their bounds. */
  datatype IntString = IntString(genes: seq<int>, lowerBound: int, upperBound: int)

  /** `stream().max().orElse(0)` over the cell values. */
  function MaxOrZero(xs: seq<int>): (m: int)
    ensures xs == [] ==> m == 0
    ensures xs != [] ==> m in xs && forall i | 0 <= i < |xs| :: xs[i] <= m
  {
    if xs == [] then 0
    else if |xs| == 1 then xs[0]
    else
      var m := MaxOrZero(xs[..|xs| - 1]);
      assert forall i | 0 <= i < |xs| - 1 :: xs[..|xs| - 1][i] == xs[i];
      if xs[|xs| - 1] > m then xs[|xs| - 1] else m
  }

  /** The body both mappers build from the cell values: the placeholder when their largest is 0, otherwise the fitted grid. */
  function BodyOf(indexes: seq<int>): (b: ReactiveBody)
    ensures b == Placeholder <==>
      (forall i | 0 <= i < |indexes| :: indexes[i] <= 0) && (indexes == [] || 0 in indexes)
    ensures b != Placeholder ==> b == Fitted(indexes)
  {
    if MaxOrZero(indexes) == 0 then Placeholder else Fitted(indexes)
  }

  /** With no negative index, the placeholder appears exactly when every cell is 0 (no cells at all included). */
  lemma PlaceholderRule(indexes: seq<int>)
    requires forall i | 0 <= i < |indexes| :: indexes[i] >= 0
    ensures BodyOf(indexes) == Placeholder <==> forall i | 0 <= i < |indexes| :: indexes[i] == 0
  {
    if forall i | 0 <= i < |indexes| :: indexes[i] == 0 {
      if indexes != [] {
        var m := MaxOrZero(indexes);
        var j :| 0 <= j < |indexes| && indexes[j] == m;
      }
    }
  }

  /** The rule compares the maximum with 0 for equality: a grid of negative values only is fitted, not the placeholder. */
  lemma PlaceholderWithNegatives(indexes: seq<int>)
    requires indexes != [] && forall i | 0 <= i < |indexes| :: indexes[i] < 0
    ensures BodyOf(indexes) == Fitted(indexes)
  {
    var m := MaxOrZero(indexes);
    var j :| 0 <= j < |indexes| && indexes[j] == m;
  }

  // ---------------------------------------------------------------------
  // isToReactiveGridVsr

  /**
   * The example genotype: `w * h` zero genes, bounds `0` and the number of
   * available voxels plus one; `nCopies` refuses a negative count.
   */
  function IsToReactiveGridVsrExample(w: int, h: int, nOfVoxels: nat): (r: Result<IntString, Error>)
    ensures w * h < 0 <==> r == Failure(NegativeCopies(w * h))
    ensures r.Success? ==> |r.value.genes| == w * h && r.value.lowerBound == 0 && r.value.upperBound == nOfVoxels + 1
  {
    if w * h < 0 then Failure(NegativeCopies(w * h))
    else Success(IntString(seq(w * h, _ => 0), 0, nOfVoxels + 1))
  }

  /** Every gene of the example lies within its bounds, each one names "no voxel", and the body is the placeholder. */
  lemma ExampleIsPlaceholder(w: int, h: int, nOfVoxels: nat)
    requires IsToReactiveGridVsrExample(w, h, nOfVoxels).Success?
    ensures var g := IsToReactiveGridVsrExample(w, h, nOfVoxels).value;
      && (forall i | 0 <= i < |g.genes| :: g.lowerBound <= g.genes[i] < g.upperBound)
      && BodyOf(g.genes) == Placeholder
  {
    var g := IsToReactiveGridVsrExample(w, h, nOfVoxels).value;
    PlaceholderRule(g.genes);
  }

  // ---------------------------------------------------------------------
  // nmrfToReactiveGridVsr

  /** The point queried for cell (x, y) of a w x h grid: `(x / w, y / h)`. */
  function CellPoint(x: nat, y: nat, w: nat, h: nat): (p: (real, real))
    requires x < w && y < h
    ensures p.0 * w as real == x as real && p.1 * h as real == y as real
    ensures 0.0 <= p.0 < 1.0 && 0.0 <= p.1 < 1.0
  {
    (x as real / w as real, y as real / h as real)
  }

  /** The output of the function at cell (x, y). */
  function Query(nmrf: (real, real) -> seq<real>, x: nat, y: nat, w: nat, h: nat): seq<real>
    requires x < w && y < h
  {
    var p := CellPoint(x, y, w, h);
    nmrf(p.0, p.1)
  }

  /** The voxel index of one cell: `output[iMax] > 0 ? iMax + 1 : 0`, with `iMax` the `argmax` of the output. */
  function CellIndex(output: seq<real>): (r: Result<nat, Error>)
    ensures r.Failure? <==> output == []
    ensures r.Failure? ==> r == Failure(EmptyArray)
    ensures r.Success? ==> r.value <= |output|
    ensures r.Success? ==> (r.value == 0 <==> forall j | 0 <= j < |output| :: output[j] <= 0.0)
    ensures r.Success? && r.value > 0 ==> IsFirstMax(output, r.value - 1) && output[r.value - 1] > 0.0
  {
    if |output| == 0 then Failure(EmptyArray)
    else
      var iMax := FirstMax(output);
      Success(if output[iMax] > 0.0 then iMax + 1 else 0)
  }

  /** Whether some cell's output is empty, which makes `argmax` throw. */
  predicate SomeEmpty(w: nat, h: nat, nmrf: (real, real) -> seq<real>) {
    exists x: nat, y: nat | x < w && y < h :: Query(nmrf, x, y, w, h) == []
  }

  /** The index grid, column by column, or the exception of the first empty output. */
  function IndexGrid(w: nat, h: nat, nmrf: (real, real) -> seq<real>): (r: Result<seq<seq<nat>>, Error>)
    ensures r.Failure? <==> SomeEmpty(w, h, nmrf)
    ensures r.Failure? ==> r == Failure(EmptyArray)
    ensures r.Success? ==> |r.value| == w && forall x | 0 <= x < w :: |r.value[x]| == h
  {
    if SomeEmpty(w, h, nmrf) then Failure(EmptyArray)
    else Success(seq(w, x requires 0 <= x < w =>
      seq(h, y requires 0 <= y < h => CellIndex(Query(nmrf, x, y, w, h)).value)))
  }

  /** The grid's cell values, column after column. */
  function Cells(grid: seq<seq<nat>>): (cs: seq<nat>) {
    if grid == [] then [] else Cells(grid[..|grid| - 1]) + grid[|grid| - 1]
  }

  lemma {:induction false} CellsAllZero(grid: seq<seq<nat>>)
    ensures (forall i | 0 <= i < |Cells(grid)| :: Cells(grid)[i] == 0) <==>
      forall x, y | 0 <= x < |grid| && 0 <= y < |grid[x]| :: grid[x][y] == 0
  {
    if grid != [] {
      var init := grid[..|grid| - 1];
      var last := grid[|grid| - 1];
      CellsAllZero(init);
      assert Cells(grid) == Cells(init) + last;
      assert forall x | 0 <= x < |init| :: init[x] == grid[x];
      if forall x, y | 0 <= x < |grid| && 0 <= y < |grid[x]| :: grid[x][y] == 0 {
        assert forall y | 0 <= y < |last| :: last[y] == 0;
        forall i | 0 <= i < |Cells(grid)| ensures Cells(grid)[i] == 0 {
          if i >= |Cells(init)| {
            assert Cells(grid)[i] == last[i - |Cells(init)|];
          }
        }
      }
      if forall i | 0 <= i < |Cells(grid)| :: Cells(grid)[i] == 0 {
        assert forall i | 0 <= i < |Cells(init)| :: Cells(init)[i] == Cells(grid)[i];
        forall x, y | 0 <= x < |grid| && 0 <= y < |grid[x]| ensures grid[x][y] == 0 {
          if x == |grid| - 1 {
            assert Cells(grid)[|Cells(init)| + y] == grid[x][y];
          }
        }
      }
    }
  }

  /** `nmrfToReactiveGridVsr` applied to a function: the index grid, then the placeholder rule. */
  function NmrfToReactiveGridVsr(w: nat, h: nat, nmrf: (real, real) -> seq<real>): (r: Result<ReactiveBody, Error>)
    ensures r.Failure? <==> SomeEmpty(w, h, nmrf)
  {
    match IndexGrid(w, h, nmrf)
    case Failure(e) => Failure(e)
    case Success(grid) => Success(BodyOf(Cells(grid)))
  }

  /** Every cell index is between 0 and the size of that cell's output, so a positive one names an output. */
  lemma IndexesInRange(w: nat, h: nat, nmrf: (real, real) -> seq<real>, x: nat, y: nat)
    requires IndexGrid(w, h, nmrf).Success? && x < w && y < h
    ensures IndexGrid(w, h, nmrf).value[x][y] <= |Query(nmrf, x, y, w, h)|
  {
  }

  /**
   * When no cell's output has more values than there are available voxels,
   * as for the example function, whose outputs have exactly one value per
   * voxel, every positive index `i` names an entry `i - 1` of the list.
   */
  lemma LookupsInRange(w: nat, h: nat, nmrf: (real, real) -> seq<real>, nOfVoxels: nat)
    requires IndexGrid(w, h, nmrf).Success?
    requires forall x: nat, y: nat | x < w && y < h :: |Query(nmrf, x, y, w, h)| <= nOfVoxels
    ensures forall x, y | 0 <= x < w && 0 <= y < h :: IndexGrid(w, h, nmrf).value[x][y] <= nOfVoxels
  {
    forall x, y | 0 <= x < w && 0 <= y < h ensures IndexGrid(w, h, nmrf).value[x][y] <= nOfVoxels {
      IndexesInRange(w, h, nmrf, x, y);
    }
  }

  /** The function gives the placeholder body exactly when no output of any cell is positive. */
  lemma NmrfPlaceholder(w: nat, h: nat, nmrf: (real, real) -> seq<real>)
    requires !SomeEmpty(w, h, nmrf)
    ensures NmrfToReactiveGridVsr(w, h, nmrf) == Success(Placeholder) <==>
      forall x: nat, y: nat | x < w && y < h ::
        forall j | 0 <= j < |Query(nmrf, x, y, w, h)| :: Query(nmrf, x, y, w, h)[j] <= 0.0
  {
    var grid := IndexGrid(w, h, nmrf).value;
    CellsAllZero(grid);
    PlaceholderRule(Cells(grid));
    forall x: nat, y: nat | x < w && y < h
      ensures grid[x][y] == 0 <==>
        forall j | 0 <= j < |Query(nmrf, x, y, w, h)| :: Query(nmrf, x, y, w, h)[j] <= 0.0
    {
      assert grid[x][y] == CellIndex(Query(nmrf, x, y, w, h)).value;
    }
  }
}
