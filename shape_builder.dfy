/**
 * `Main.buildStringShape` as written: a boolean grid cleared cell by cell,
 * a cascade of bounded loops that set cells rigid, and a string builder
 * that prints the grid. `BuildStringShape` is proved to return
 * `ShapeEncoder.Encode(shape, nOfRigids)` for every family and every count.
 */
module ShapeBuilder {
  import opened ShapeEncoder

  // ---------------------------------------------------------------------
  // Proof tables: where the printing code shows each grid cell, and what it
  // writes at each position of the string.

  /** The dimensions of the `rigids` grid each family allocates. */
  ghost function GridRows(shape: Shape): nat {
    match shape case Biped => 4 case Worm => 5 case T => 2 case Plus => 6
  }

  ghost function GridCols(shape: Shape): nat {
    match shape case Biped => 3 case Worm => 2 case T => 5 case Plus => 6
  }

  ghost predicate InGrid(shape: Shape, r: int, c: int) {
    0 <= r < GridRows(shape) && 0 <= c < GridCols(shape)
  }

  /** The string position at which `rigids[r][c]` is printed, or -1 for a cell that is never printed. */
  ghost function Position(shape: Shape, r: int, c: int): int {
    match shape
    case Biped =>
      if 0 <= r < 4 && 0 <= c < 2 then 5 * c + r
      else if r == 0 && c == 2 then 10 else if r == 3 && c == 2 then 13 else -1
    case Worm => if 0 <= r < 5 && 0 <= c < 2 then 6 * c + r else -1
    case T => if 0 <= r < 2 && 0 <= c < 5 then 5 * c + r + 1 else -1
    case Plus => if 0 <= r < 6 && 0 <= c < 6 && (2 <= c < 4 || 2 <= r < 4) then 7 * r + c else -1
  }

  /** The grid cell printed at position `p`, or (-1, -1) where something else is printed. */
  ghost function CellAt(shape: Shape, p: int): (int, int) {
    match shape
    case Biped =>
      if 0 <= p < 10 && p % 5 < 4 then (p % 5, p / 5)
      else if p == 10 then (0, 2) else if p == 13 then (3, 2) else (-1, -1)
    case Worm => if 0 <= p < 11 && p % 6 < 5 then (p % 6, p / 6) else (-1, -1)
    case T => if 0 <= p < 20 && 1 <= p % 5 <= 2 then (p % 5 - 1, p / 5) else if p == 21 then (0, 4) else if p == 22 then (1, 4) else (-1, -1)
    case Plus =>
      if 0 <= p < 41 && p % 7 < 6 && (2 <= p % 7 < 4 || 2 <= p / 7 < 4) then (p / 7, p % 7) else (-1, -1)
  }

  /** The loop step at which the marking code sets `rigids[r][c]`: the slot of the position it is printed at. */
  ghost function Rank(shape: Shape, r: int, c: int): int {
    Slot(shape, Position(shape, r, c))
  }

  /** A printed cell is the one shown at its position. */
  ghost predicate GridPrinted(shape: Shape) {
    forall r, c | InGrid(shape, r, c) && Position(shape, r, c) >= 0 :: CellAt(shape, Position(shape, r, c)) == (r, c)
  }

  lemma GridIsPrinted(shape: Shape)
    ensures GridPrinted(shape)
  {
    match shape
    case Biped => BipedPrinted();
    case Worm => WormPrinted();
    case T => TPrinted();
    case Plus => PlusPrinted();
  }

  lemma BipedPrinted() ensures GridPrinted(Biped) {
    forall r, c | InGrid(Biped, r, c) && Position(Biped, r, c) >= 0
      ensures CellAt(Biped, Position(Biped, r, c)) == (r, c)
    {
      assert r == 0 || r == 1 || r == 2 || r == 3;
      assert c == 0 || c == 1 || c == 2;
    }
  }

  lemma WormPrinted() ensures GridPrinted(Worm) {
    forall r, c | InGrid(Worm, r, c) && Position(Worm, r, c) >= 0
      ensures CellAt(Worm, Position(Worm, r, c)) == (r, c)
    {
      assert r == 0 || r == 1 || r == 2 || r == 3 || r == 4;
      assert c == 0 || c == 1;
    }
  }

  lemma TPrinted() ensures GridPrinted(T) {
    forall r, c | InGrid(T, r, c) && Position(T, r, c) >= 0
      ensures CellAt(T, Position(T, r, c)) == (r, c)
    {
      assert r == 0 || r == 1;
      assert c == 0 || c == 1 || c == 2 || c == 3 || c == 4;
    }
  }

  lemma PlusPrinted() ensures GridPrinted(Plus) {
    forall r, c | InGrid(Plus, r, c) && Position(Plus, r, c) >= 0
      ensures CellAt(Plus, Position(Plus, r, c)) == (r, c)
    {
      assert r == 0 || r == 1 || r == 2 || r == 3 || r == 4 || r == 5;
      assert c == 0 || c == 1 || c == 2 || c == 3 || c == 4 || c == 5;
    }
  }

  /** The cell of a given rank is the one printed at the position of that rank in Priority. */
  lemma RankInverse(shape: Shape, r: int, c: int)
    requires InGrid(shape, r, c) && Rank(shape, r, c) >= 0
    ensures Rank(shape, r, c) < Cap(shape) && CellAt(shape, Priority(shape)[Rank(shape, r, c)]) == (r, c)
  {
    TablesFit(shape);
    GridIsPrinted(shape);
  }

  /** The two positions of the T string that the source prints without looking at the grid. */
  ghost predicate TSpecial(shape: Shape, p: int) {
    shape == T && (p == 20 || p == 23)
  }

  /** The filler or row break printed at a position that shows no cell. */
  ghost function Fixed(shape: Shape, p: int): char {
    match shape
    case Biped => if p % 5 == 4 then '-' else '.'
    case Worm => '-'
    case T => if p % 5 == 4 then '-' else '.'
    case Plus => if p % 7 == 6 then '-' else '.'
  }

  /**
   * Position `p` of the template shows the grid cell printed there, which
   * is soft in the template, or is one of the T specials, or holds the
   * filler the printing code writes there.
   */
  ghost predicate LayoutAt(shape: Shape, p: int) {
    if InGrid(shape, CellAt(shape, p).0, CellAt(shape, p).1) then
      0 <= p < |Template(shape)| && Position(shape, CellAt(shape, p).0, CellAt(shape, p).1) == p && Template(shape)[p] == 's'
    else
      TSpecial(shape, p) || (0 <= p < |Template(shape)| && Template(shape)[p] == Fixed(shape, p) && Fixed(shape, p) != 's')
  }

  ghost predicate LayoutAgrees(shape: Shape) {
    forall p | 0 <= p < |Template(shape)| :: LayoutAt(shape, p)
  }

  lemma LayoutsAgree(shape: Shape)
    ensures LayoutAgrees(shape)
  {
    match shape
    case Biped => BipedLayout();
    case Worm => WormLayout();
    case T => TLayoutTop(); TLayoutBottom();
    case Plus => PlusLayout1(); PlusLayout2(); PlusLayout3(); PlusLayout4();
  }

  lemma BipedLayout() ensures forall p | 0 <= p < 14 :: LayoutAt(Biped, p) {
    forall p | 0 <= p < 14 ensures LayoutAt(Biped, p) {
      assert p == 0 || p == 1 || p == 2 || p == 3 || p == 4 || p == 5 || p == 6 || p == 7 || p == 8 || p == 9 || p == 10 || p == 11 || p == 12 || p == 13;
    }
  }

  lemma WormLayout() ensures forall p | 0 <= p < 11 :: LayoutAt(Worm, p) {
    forall p | 0 <= p < 11 ensures LayoutAt(Worm, p) {
      assert p == 0 || p == 1 || p == 2 || p == 3 || p == 4 || p == 5 || p == 6 || p == 7 || p == 8 || p == 9 || p == 10;
    }
  }

  lemma TLayoutTop() ensures forall p | 0 <= p < 12 :: LayoutAt(T, p) {
    forall p | 0 <= p < 12 ensures LayoutAt(T, p) {
      assert p == 0 || p == 1 || p == 2 || p == 3 || p == 4 || p == 5 || p == 6 || p == 7 || p == 8 || p == 9 || p == 10 || p == 11;
    }
  }

  lemma TLayoutBottom() ensures forall p | 12 <= p < 24 :: LayoutAt(T, p) {
    forall p | 12 <= p < 24 ensures LayoutAt(T, p) {
      assert p == 12 || p == 13 || p == 14 || p == 15 || p == 16 || p == 17 || p == 18 || p == 19 || p == 20 || p == 21 || p == 22 || p == 23;
    }
  }

  lemma PlusLayout1() ensures forall p | 0 <= p < 11 :: LayoutAt(Plus, p) {
    forall p | 0 <= p < 11 ensures LayoutAt(Plus, p) {
      assert p == 0 || p == 1 || p == 2 || p == 3 || p == 4 || p == 5 || p == 6 || p == 7 || p == 8 || p == 9 || p == 10;
    }
  }

  lemma PlusLayout2() ensures forall p | 11 <= p < 21 :: LayoutAt(Plus, p) {
    forall p | 11 <= p < 21 ensures LayoutAt(Plus, p) {
      assert p == 11 || p == 12 || p == 13 || p == 14 || p == 15 || p == 16 || p == 17 || p == 18 || p == 19 || p == 20;
    }
  }

  lemma PlusLayout3() ensures forall p | 21 <= p < 31 :: LayoutAt(Plus, p) {
    forall p | 21 <= p < 31 ensures LayoutAt(Plus, p) {
      assert p == 21 || p == 22 || p == 23 || p == 24 || p == 25 || p == 26 || p == 27 || p == 28 || p == 29 || p == 30;
    }
  }

  lemma PlusLayout4() ensures forall p | 31 <= p < 41 :: LayoutAt(Plus, p) {
    forall p | 31 <= p < 41 ensures LayoutAt(Plus, p) {
      assert p == 31 || p == 32 || p == 33 || p == 34 || p == 35 || p == 36 || p == 37 || p == 38 || p == 39 || p == 40;
    }
  }

  /** The character `rigids[r][c] ? "r" : "s"`. */
  function Flag(b: bool): char {
    if b then 'r' else 's'
  }

  /** The character the printing code of the source writes at position `p`, for grid `g`. */
  ghost function Printed(shape: Shape, g: array2<bool>, n: int, p: int): char
    reads g
  {
    var cell := CellAt(shape, p);
    if 0 <= cell.0 < g.Length0 && 0 <= cell.1 < g.Length1 then Flag(g[cell.0, cell.1])
    else if shape == T && p == 20 then (if n < 11 then 's' else 'r')
    else if shape == T && p == 23 then 's'
    else Fixed(shape, p)
  }

  /** Grid `g` holds exactly the cells set by the first `k` loop steps. */
  ghost predicate RigidBelow(g: array2<bool>, shape: Shape, k: int)
    reads g
  {
    forall r, c | 0 <= r < g.Length0 && 0 <= c < g.Length1 :: g[r, c] == (0 <= Rank(shape, r, c) < k)
  }

  /** One position of the print of a fully marked grid. */
  lemma PrintedIsEncoded(g: array2<bool>, shape: Shape, n: int, p: int)
    requires g.Length0 == GridRows(shape) && g.Length1 == GridCols(shape)
    requires RigidBelow(g, shape, Saturate(n, Cap(shape)))
    requires SlotsFit(shape) && 0 <= p < |Template(shape)| && LayoutAt(shape, p)
    ensures Printed(shape, g, n, p) == Encode(shape, n)[p]
  {
    EncodeChar(shape, n, p);
    var (r, c) := CellAt(shape, p);
    if InGrid(shape, r, c) {
      assert g[r, c] == (0 <= Rank(shape, r, c) < Saturate(n, Cap(shape)));
    } else if TSpecial(shape, p) {
      TSpecialCells(n);
    }
  }

  /** Printing a fully marked grid gives the declarative encoding, position by position. */
  lemma PrintingMatchesEncode(g: array2<bool>, shape: Shape, n: int)
    requires g.Length0 == GridRows(shape) && g.Length1 == GridCols(shape)
    requires RigidBelow(g, shape, Saturate(n, Cap(shape)))
    ensures |Encode(shape, n)| == |Template(shape)|
    ensures forall p | 0 <= p < |Template(shape)| :: Printed(shape, g, n, p) == Encode(shape, n)[p]
  {
    TablesFit(shape);
    LayoutsAgree(shape);
    EncodeChar(shape, n, 0);
    forall p | 0 <= p < |Template(shape)| ensures Printed(shape, g, n, p) == Encode(shape, n)[p] {
      PrintedIsEncoded(g, shape, n, p);
    }
  }

  // ---------------------------------------------------------------------
  // buildStringShape

  method BuildStringShape(shape: Shape, nOfRigids: int) returns (s: string)
    ensures s == Encode(shape, nOfRigids)
  {
    match shape
    case Biped =>
      var rigids := MarkBiped(nOfRigids);
      s := ShowBiped(rigids, nOfRigids);
      ShownIsEncode(s, shape, rigids, nOfRigids);
    case Worm =>
      var rigids := MarkWorm(nOfRigids);
      s := ShowWorm(rigids, nOfRigids);
      ShownIsEncode(s, shape, rigids, nOfRigids);
    case T =>
      var rigids := MarkT(nOfRigids);
      s := ShowT(rigids, nOfRigids);
      ShownIsEncode(s, shape, rigids, nOfRigids);
    case Plus =>
      var rigids := MarkPlus(nOfRigids);
      s := ShowPlus(rigids, nOfRigids);
      ShownIsEncode(s, shape, rigids, nOfRigids);
  }

  // ---------------------------------------------------------------------
  // Marking

  // Rank, one family at a time, to hand to the generic marking code.
  ghost function BipedRank(r: int, c: int): int { Rank(Biped, r, c) }
  ghost function WormRank(r: int, c: int): int { Rank(Worm, r, c) }
  ghost function TRank(r: int, c: int): int { Rank(T, r, c) }
  ghost function PlusRank(r: int, c: int): int { Rank(Plus, r, c) }

  /** Grid `g` holds exactly the cells whose `rank` is below `k`. */
  ghost predicate Marked(g: array2<bool>, rank: (int, int) -> int, k: int)
    reads g
  {
    forall r, c | 0 <= r < g.Length0 && 0 <= c < g.Length1 :: g[r, c] == (0 <= rank(r, c) < k)
  }

  /**
   * The cells a marking loop sets: step i of a loop of `len` steps sets the
   * in-bounds cell `cell(i)`, and that is the one cell of rank offset + i.
   */
  ghost predicate RunFits(rank: (int, int) -> int, rows: int, cols: int, offset: nat, len: nat, cell: int -> (int, int)) {
    && (forall i | 0 <= i < len ::
          0 <= cell(i).0 < rows && 0 <= cell(i).1 < cols && rank(cell(i).0, cell(i).1) == offset + i)
    && (forall r, c, i | 0 <= r < rows && 0 <= c < cols && 0 <= i < len && rank(r, c) == offset + i ::
          cell(i) == (r, c))
  }

  /**
   * One marking loop of the source,
   * `for (int i = 0; i < nOfRigids - offset && i < len; ++i) rigids[cell(i)] = true`.
   */
  method MarkRun(rigids: array2<bool>, ghost rank: (int, int) -> int, nOfRigids: int, offset: nat, len: nat,
                 cell: int -> (int, int))
    requires RunFits(rank, rigids.Length0, rigids.Length1, offset, len, cell)
    requires Marked(rigids, rank, Saturate(nOfRigids, offset))
    modifies rigids
    ensures Marked(rigids, rank, Saturate(nOfRigids, offset + len))
  {
    ghost var base := Saturate(nOfRigids, offset);
    var i := 0;
    while i < nOfRigids - offset && i < len
      invariant 0 <= i <= len && (i == 0 || i <= nOfRigids - offset)
      invariant 0 < i ==> base == offset
      invariant Marked(rigids, rank, base + i)
    {
      rigids[cell(i).0, cell(i).1] := true;
      i := i + 1;
    }
    RunEnds(nOfRigids, offset, len, i);
  }

  /** Where a marking loop stops, the marked count is the saturated count of the run's end. */
  lemma RunEnds(n: int, offset: nat, len: nat, i: nat)
    requires i <= len && (i == 0 || i <= n - offset) && (0 < i ==> Saturate(n, offset) == offset)
    requires !(i < n - offset && i < len)
    ensures Saturate(n, offset) + i == Saturate(n, offset + len)
  {
  }

  /** Cell (r, c) is the one cell of rank `step`. */
  ghost predicate OnlyCell(rank: (int, int) -> int, rows: int, cols: int, step: nat, r: int, c: int) {
    && 0 <= r < rows && 0 <= c < cols && rank(r, c) == step
    && (forall r', c' | 0 <= r' < rows && 0 <= c' < cols && rank(r', c') == step :: r' == r && c' == c)
  }

  /** One guarded assignment of the source, `if (nOfRigids > step) rigids[r][c] = true`. */
  method MarkIf(rigids: array2<bool>, ghost rank: (int, int) -> int, nOfRigids: int, step: nat, r: int, c: int)
    requires OnlyCell(rank, rigids.Length0, rigids.Length1, step, r, c)
    requires Marked(rigids, rank, Saturate(nOfRigids, step))
    modifies rigids
    ensures Marked(rigids, rank, Saturate(nOfRigids, step + 1))
  {
    if nOfRigids > step {
      rigids[r, c] := true;
    }
  }

  /** The generic marking state, read back as RigidBelow when no cell has a rank from `k` up to `k'`. */
  lemma MarkedIsRigidBelow(g: array2<bool>, shape: Shape, rank: (int, int) -> int, k: int, k': int)
    requires forall r, c :: rank(r, c) == Rank(shape, r, c)
    requires Marked(g, rank, k) && k <= k'
    requires forall r, c | 0 <= r < g.Length0 && 0 <= c < g.Length1 :: !(k <= rank(r, c) < k')
    ensures RigidBelow(g, shape, k')
  {
  }

  /** The eleventh T cell is not in the grid: it is printed from the count alone. */
  lemma TNoRankTen()
    ensures forall r, c | 0 <= r < 2 && 0 <= c < 5 :: TRank(r, c) != 10
  {
    forall r, c | 0 <= r < 2 && 0 <= c < 5 && TRank(r, c) >= 0 ensures TRank(r, c) != 10 {
      RankInverse(T, r, c);
    }
  }

  /** Step i of the loop sets the cell printed at the place of step offset + i in Priority. */
  ghost predicate Walks(shape: Shape, offset: nat, len: nat, cell: int -> (int, int)) {
    offset + len <= Cap(shape) &&
    forall i | 0 <= i < len :: cell(i) == CellAt(shape, Priority(shape)[offset + i])
  }

  /** Each priority position but the T special is printed from a grid cell of that rank. */
  lemma PriorityCell(shape: Shape, k: nat)
    requires k < Cap(shape) && !(shape == T && k == 10)
    ensures InGrid(shape, CellAt(shape, Priority(shape)[k]).0, CellAt(shape, Priority(shape)[k]).1)
    ensures Rank(shape, CellAt(shape, Priority(shape)[k]).0, CellAt(shape, Priority(shape)[k]).1) == k
  {
    TablesFit(shape);
    LayoutsAgree(shape);
    var p := Priority(shape)[k];
    assert Slot(shape, p) == k;
    assert LayoutAt(shape, p);
    assert !TSpecial(shape, p) by {
      if shape == T {
        assert Slot(T, 20) == 10 && Slot(T, 23) == -1;
      }
    }
  }

  /** A loop that walks a stretch of Priority sets each cell at its rank, and only there. */
  lemma WalkFits(shape: Shape, rank: (int, int) -> int, offset: nat, len: nat, cell: int -> (int, int))
    requires Walks(shape, offset, len, cell)
    requires shape == T ==> offset + len < Cap(T)
    requires forall r, c :: rank(r, c) == Rank(shape, r, c)
    ensures RunFits(rank, GridRows(shape), GridCols(shape), offset, len, cell)
  {
    forall i | 0 <= i < len
      ensures InGrid(shape, cell(i).0, cell(i).1) && Rank(shape, cell(i).0, cell(i).1) == offset + i
    {
      PriorityCell(shape, offset + i);
    }
    forall r, c, i | InGrid(shape, r, c) && 0 <= i < len && rank(r, c) == offset + i
      ensures cell(i) == (r, c)
    {
      RankInverse(shape, r, c);
    }
  }

  // The index expressions of the source's marking loops.
  function BipedLoop1(i: int): (int, int) { (3 * (i % 2), 2 - i / 2) }
  function BipedLoop2(i: int): (int, int) { (1 + i % 2, i / 2) }
  function WormLoop1(i: int): (int, int) { (i, i % 2) }
  function TLoop1(i: int): (int, int) { (i % 2, i) }
  function TLoop2(i: int): (int, int) { (1 - i % 2, i) }
  function PlusLoop1(i: int): (int, int) { (i, 2 + i % 2) }
  function PlusLoop2(i: int): (int, int) { (2 + i % 2, i) }
  function PlusLoop3(i: int): (int, int) { (2 + i % 2, 5 - i) }
  function PlusLoop4(i: int): (int, int) { (i, 3 - i % 2) }
  function PlusLoop5(i: int): (int, int) { (3 - i % 2, i) }
  function PlusLoop6(i: int): (int, int) { (3 - i % 2, 5 - i) }
  function PlusLoop7(i: int): (int, int) { (5 - i, 2 + i % 2) }

  lemma BipedRun1() ensures RunFits(BipedRank, 4, 3, 0, 6, BipedLoop1) {
    forall i | 0 <= i < 6 ensures BipedLoop1(i) == CellAt(Biped, Priority(Biped)[0 + i]) {
      assert i == 0 || i == 1 || i == 2 || i == 3 || i == 4 || i == 5;
    }
    WalkFits(Biped, BipedRank, 0, 6, BipedLoop1);
  }

  lemma BipedRun2() ensures RunFits(BipedRank, 4, 3, 6, 4, BipedLoop2) {
    forall i | 0 <= i < 4 ensures BipedLoop2(i) == CellAt(Biped, Priority(Biped)[6 + i]) {
      assert i == 0 || i == 1 || i == 2 || i == 3;
    }
    WalkFits(Biped, BipedRank, 6, 4, BipedLoop2);
  }

  lemma WormRun1() ensures RunFits(WormRank, 5, 2, 0, 5, WormLoop1) {
    forall i | 0 <= i < 5 ensures WormLoop1(i) == CellAt(Worm, Priority(Worm)[0 + i]) {
      assert i == 0 || i == 1 || i == 2 || i == 3 || i == 4;
    }
    WalkFits(Worm, WormRank, 0, 5, WormLoop1);
  }

  lemma TRun1() ensures RunFits(TRank, 2, 5, 0, 5, TLoop1) {
    forall i | 0 <= i < 5 ensures TLoop1(i) == CellAt(T, Priority(T)[0 + i]) {
      assert i == 0 || i == 1 || i == 2 || i == 3 || i == 4;
    }
    WalkFits(T, TRank, 0, 5, TLoop1);
  }

  lemma TRun2() ensures RunFits(TRank, 2, 5, 5, 5, TLoop2) {
    forall i | 0 <= i < 5 ensures TLoop2(i) == CellAt(T, Priority(T)[5 + i]) {
      assert i == 0 || i == 1 || i == 2 || i == 3 || i == 4;
    }
    WalkFits(T, TRank, 5, 5, TLoop2);
  }

  lemma PlusRun1() ensures RunFits(PlusRank, 6, 6, 0, 6, PlusLoop1) {
    forall i | 0 <= i < 6 ensures PlusLoop1(i) == CellAt(Plus, Priority(Plus)[0 + i]) {
      assert i == 0 || i == 1 || i == 2 || i == 3 || i == 4 || i == 5;
    }
    WalkFits(Plus, PlusRank, 0, 6, PlusLoop1);
  }

  lemma PlusRun2() ensures RunFits(PlusRank, 6, 6, 6, 2, PlusLoop2) {
    forall i | 0 <= i < 2 ensures PlusLoop2(i) == CellAt(Plus, Priority(Plus)[6 + i]) {
      assert i == 0 || i == 1;
    }
    WalkFits(Plus, PlusRank, 6, 2, PlusLoop2);
  }

  lemma PlusRun3() ensures RunFits(PlusRank, 6, 6, 8, 2, PlusLoop3) {
    forall i | 0 <= i < 2 ensures PlusLoop3(i) == CellAt(Plus, Priority(Plus)[8 + i]) {
      assert i == 0 || i == 1;
    }
    WalkFits(Plus, PlusRank, 8, 2, PlusLoop3);
  }

  lemma PlusRun4() ensures RunFits(PlusRank, 6, 6, 10, 2, PlusLoop4) {
    forall i | 0 <= i < 2 ensures PlusLoop4(i) == CellAt(Plus, Priority(Plus)[10 + i]) {
      assert i == 0 || i == 1;
    }
    WalkFits(Plus, PlusRank, 10, 2, PlusLoop4);
  }

  lemma PlusRun5() ensures RunFits(PlusRank, 6, 6, 12, 2, PlusLoop5) {
    forall i | 0 <= i < 2 ensures PlusLoop5(i) == CellAt(Plus, Priority(Plus)[12 + i]) {
      assert i == 0 || i == 1;
    }
    WalkFits(Plus, PlusRank, 12, 2, PlusLoop5);
  }

  lemma PlusRun6() ensures RunFits(PlusRank, 6, 6, 14, 2, PlusLoop6) {
    forall i | 0 <= i < 2 ensures PlusLoop6(i) == CellAt(Plus, Priority(Plus)[14 + i]) {
      assert i == 0 || i == 1;
    }
    WalkFits(Plus, PlusRank, 14, 2, PlusLoop6);
  }

  lemma PlusRun7() ensures RunFits(PlusRank, 6, 6, 16, 2, PlusLoop7) {
    forall i | 0 <= i < 2 ensures PlusLoop7(i) == CellAt(Plus, Priority(Plus)[16 + i]) {
      assert i == 0 || i == 1;
    }
    WalkFits(Plus, PlusRank, 16, 2, PlusLoop7);
  }

  lemma WormSteps() ensures OnlyCell(WormRank, 5, 2, 5, 1, 0) && OnlyCell(WormRank, 5, 2, 6, 2, 1) {
    forall r, c | 0 <= r < 5 && 0 <= c < 2 && (WormRank(r, c) == 5 || WormRank(r, c) == 6)
      ensures (r, c) == if WormRank(r, c) == 5 then (1, 0) else (2, 1)
    {
      RankInverse(Worm, r, c);
    }
  }

  method MarkBiped(nOfRigids: int) returns (rigids: array2<bool>)
    ensures fresh(rigids) && rigids.Length0 == 4 && rigids.Length1 == 3
    ensures RigidBelow(rigids, Biped, Saturate(nOfRigids, Cap(Biped)))
  {
    rigids := new bool[4, 3];
    for i := 0 to 12
      invariant forall r, c | 0 <= r < 4 && 0 <= c < 3 && 3 * r + c < i :: !rigids[r, c]
    {
      rigids[i / 3, i % 3] := false;
    }
    BipedRun1();
    MarkRun(rigids, BipedRank, nOfRigids, 0, 6, BipedLoop1);
    BipedRun2();
    MarkRun(rigids, BipedRank, nOfRigids, 6, 4, BipedLoop2);
    MarkedIsRigidBelow(rigids, Biped, BipedRank, Saturate(nOfRigids, Cap(Biped)), Saturate(nOfRigids, Cap(Biped)));
  }

  method MarkWorm(nOfRigids: int) returns (rigids: array2<bool>)
    ensures fresh(rigids) && rigids.Length0 == 5 && rigids.Length1 == 2
    ensures RigidBelow(rigids, Worm, Saturate(nOfRigids, Cap(Worm)))
  {
    rigids := new bool[5, 2];
    for i := 0 to 10
      invariant forall r, c | 0 <= r < 5 && 0 <= c < 2 && 2 * r + c < i :: !rigids[r, c]
    {
      rigids[i / 2, i % 2] := false;
    }
    WormRun1();
    MarkRun(rigids, WormRank, nOfRigids, 0, 5, WormLoop1);
    WormSteps();
    MarkIf(rigids, WormRank, nOfRigids, 5, 1, 0);
    MarkIf(rigids, WormRank, nOfRigids, 6, 2, 1);
    MarkedIsRigidBelow(rigids, Worm, WormRank, Saturate(nOfRigids, Cap(Worm)), Saturate(nOfRigids, Cap(Worm)));
  }

  method MarkT(nOfRigids: int) returns (rigids: array2<bool>)
    ensures fresh(rigids) && rigids.Length0 == 2 && rigids.Length1 == 5
    ensures RigidBelow(rigids, T, Saturate(nOfRigids, Cap(T)))
  {
    rigids := new bool[2, 5];
    for i := 0 to 10
      invariant forall r, c | 0 <= r < 2 && 0 <= c < 5 && 5 * r + c < i :: !rigids[r, c]
    {
      rigids[i / 5, i % 5] := false;
    }
    TRun1();
    MarkRun(rigids, TRank, nOfRigids, 0, 5, TLoop1);
    TRun2();
    MarkRun(rigids, TRank, nOfRigids, 5, 5, TLoop2);
    TNoRankTen();
    MarkedIsRigidBelow(rigids, T, TRank, Saturate(nOfRigids, 10), Saturate(nOfRigids, Cap(T)));
  }

  method MarkPlus(nOfRigids: int) returns (rigids: array2<bool>)
    ensures fresh(rigids) && rigids.Length0 == 6 && rigids.Length1 == 6
    ensures RigidBelow(rigids, Plus, Saturate(nOfRigids, Cap(Plus)))
  {
    rigids := new bool[6, 6];
    for i := 0 to 36
      invariant forall r, c | 0 <= r < 6 && 0 <= c < 6 && 6 * r + c < i :: !rigids[r, c]
    {
      rigids[i / 6, i % 6] := false;
    }
    PlusRun1();
    MarkRun(rigids, PlusRank, nOfRigids, 0, 6, PlusLoop1);
    PlusRun2();
    MarkRun(rigids, PlusRank, nOfRigids, 6, 2, PlusLoop2);
    PlusRun3();
    MarkRun(rigids, PlusRank, nOfRigids, 8, 2, PlusLoop3);
    PlusRun4();
    MarkRun(rigids, PlusRank, nOfRigids, 10, 2, PlusLoop4);
    PlusRun5();
    MarkRun(rigids, PlusRank, nOfRigids, 12, 2, PlusLoop5);
    PlusRun6();
    MarkRun(rigids, PlusRank, nOfRigids, 14, 2, PlusLoop6);
    PlusRun7();
    MarkRun(rigids, PlusRank, nOfRigids, 16, 2, PlusLoop7);
    MarkedIsRigidBelow(rigids, Plus, PlusRank, Saturate(nOfRigids, Cap(Plus)), Saturate(nOfRigids, Cap(Plus)));
  }

  // ---------------------------------------------------------------------
  // Printing

  /** `s` is what the printing code writes first, for grid `g`. */
  ghost predicate ShowsPrefix(s: string, shape: Shape, g: array2<bool>, n: int)
    reads g
  {
    forall k | 0 <= k < |s| :: s[k] == Printed(shape, g, n, k)
  }

  /** `t` is what the printing code writes from position `at` on. */
  ghost predicate ShowsAt(t: string, at: int, shape: Shape, g: array2<bool>, n: int)
    reads g
  {
    forall j | 0 <= j < |t| :: t[j] == Printed(shape, g, n, at + j)
  }

  lemma ShowsAppend(s: string, t: string, shape: Shape, g: array2<bool>, n: int)
    requires ShowsPrefix(s, shape, g, n) && ShowsAt(t, |s|, shape, g, n)
    ensures ShowsPrefix(s + t, shape, g, n)
  {
    forall k | 0 <= k < |s + t| ensures (s + t)[k] == Printed(shape, g, n, k) {
      if k >= |s| {
        assert (s + t)[k] == t[k - |s|];
      }
    }
  }

  /** The print of a complete, fully marked grid is the declarative encoding. */
  lemma ShownIsEncode(s: string, shape: Shape, g: array2<bool>, n: int)
    requires g.Length0 == GridRows(shape) && g.Length1 == GridCols(shape)
    requires RigidBelow(g, shape, Saturate(n, Cap(shape)))
    requires |s| == |Template(shape)| && ShowsPrefix(s, shape, g, n)
    ensures s == Encode(shape, n)
  {
    PrintingMatchesEncode(g, shape, n);
  }

  // What each append of the printing code writes, chunk by chunk.

  lemma BipedCellShown(g: array2<bool>, n: int, i: int, j: int)
    requires g.Length0 == 4 && g.Length1 == 3 && 0 <= i < 2 && 0 <= j < 4
    ensures ShowsAt([Flag(g[j, i])], 5 * i + j, Biped, g, n)
  {
    assert i == 0 || i == 1;
    assert j == 0 || j == 1 || j == 2 || j == 3;
  }

  lemma BipedBreakShown(g: array2<bool>, n: int, i: int)
    requires g.Length0 == 4 && g.Length1 == 3 && 0 <= i < 2
    ensures ShowsAt("-", 5 * i + 4, Biped, g, n)
  {
    assert i == 0 || i == 1;
  }

  lemma BipedLastRowShown(g: array2<bool>, n: int)
    requires g.Length0 == 4 && g.Length1 == 3
    ensures ShowsAt([Flag(g[0, 2])], 10, Biped, g, n)
    ensures ShowsAt("..", 11, Biped, g, n)
    ensures ShowsAt([Flag(g[3, 2])], 13, Biped, g, n)
  {
  }

  lemma WormCellShown(g: array2<bool>, n: int, i: int, col: int)
    requires g.Length0 == 5 && g.Length1 == 2 && 0 <= i < 5 && 0 <= col < 2
    ensures ShowsAt([Flag(g[i, col])], 6 * col + i, Worm, g, n)
  {
    assert i == 0 || i == 1 || i == 2 || i == 3 || i == 4;
    assert col == 0 || col == 1;
  }

  lemma TRowShown(g: array2<bool>, n: int, i: int)
    requires g.Length0 == 2 && g.Length1 == 5 && 0 <= i < 4
    ensures ShowsAt(['.', Flag(g[0, i]), Flag(g[1, i]), '.', '-'], 5 * i, T, g, n)
  {
    forall j | 0 <= j < 5 ensures ['.', Flag(g[0, i]), Flag(g[1, i]), '.', '-'][j] == Printed(T, g, n, 5 * i + j) {
      assert i == 0 || i == 1 || i == 2 || i == 3;
      assert j == 0 || j == 1 || j == 2 || j == 3 || j == 4;
    }
  }

  lemma TLastRowShown(g: array2<bool>, n: int)
    requires g.Length0 == 2 && g.Length1 == 5
    ensures ShowsAt([if n < 11 then 's' else 'r', Flag(g[0, 4]), Flag(g[1, 4]), 's'], 20, T, g, n)
  {
    var last := [if n < 11 then 's' else 'r', Flag(g[0, 4]), Flag(g[1, 4]), 's'];
    forall j | 0 <= j < 4 ensures last[j] == Printed(T, g, n, 20 + j) {
      assert j == 0 || j == 1 || j == 2 || j == 3;
    }
  }

  lemma PlusNarrowRowShown(g: array2<bool>, n: int, i: int)
    requires g.Length0 == 6 && g.Length1 == 6 && (i == 0 || i == 1 || i == 4)
    ensures ShowsAt(['.', '.', Flag(g[i, 2]), Flag(g[i, 3]), '.', '.', '-'], 7 * i, Plus, g, n)
  {
    forall j | 0 <= j < 7 ensures ['.', '.', Flag(g[i, 2]), Flag(g[i, 3]), '.', '.', '-'][j] == Printed(Plus, g, n, 7 * i + j) {
      assert j == 0 || j == 1 || j == 2 || j == 3 || j == 4 || j == 5 || j == 6;
    }
  }

  lemma PlusWideRowShown(g: array2<bool>, n: int, i: int)
    requires g.Length0 == 6 && g.Length1 == 6 && (i == 2 || i == 3)
    ensures ShowsAt([Flag(g[i, 0]), Flag(g[i, 1]), Flag(g[i, 2]), Flag(g[i, 3]), Flag(g[i, 4]), Flag(g[i, 5]), '-'], 7 * i, Plus, g, n)
  {
    forall j | 0 <= j < 7
      ensures [Flag(g[i, 0]), Flag(g[i, 1]), Flag(g[i, 2]), Flag(g[i, 3]), Flag(g[i, 4]), Flag(g[i, 5]), '-'][j] == Printed(Plus, g, n, 7 * i + j)
    {
      assert j == 0 || j == 1 || j == 2 || j == 3 || j == 4 || j == 5 || j == 6;
    }
  }

  lemma PlusLastRowShown(g: array2<bool>, n: int)
    requires g.Length0 == 6 && g.Length1 == 6
    ensures ShowsAt(['.', '.', Flag(g[5, 2]), Flag(g[5, 3]), '.', '.'], 35, Plus, g, n)
  {
    forall j | 0 <= j < 6 ensures ['.', '.', Flag(g[5, 2]), Flag(g[5, 3]), '.', '.'][j] == Printed(Plus, g, n, 35 + j) {
      assert j == 0 || j == 1 || j == 2 || j == 3 || j == 4 || j == 5;
    }
  }

  method ShowBiped(rigids: array2<bool>, nOfRigids: int) returns (s: string)
    requires rigids.Length0 == 4 && rigids.Length1 == 3
    ensures |s| == 14 && ShowsPrefix(s, Biped, rigids, nOfRigids)
  {
    s := [];
    for i := 0 to 2
      invariant |s| == 5 * i && ShowsPrefix(s, Biped, rigids, nOfRigids)
    {
      for j := 0 to 4
        invariant |s| == 5 * i + j && ShowsPrefix(s, Biped, rigids, nOfRigids)
      {
        BipedCellShown(rigids, nOfRigids, i, j);
        ShowsAppend(s, [Flag(rigids[j, i])], Biped, rigids, nOfRigids);
        s := s + [Flag(rigids[j, i])];
      }
      BipedBreakShown(rigids, nOfRigids, i);
      ShowsAppend(s, "-", Biped, rigids, nOfRigids);
      s := s + "-";
    }
    BipedLastRowShown(rigids, nOfRigids);
    ShowsAppend(s, [Flag(rigids[0, 2])], Biped, rigids, nOfRigids);
    s := s + [Flag(rigids[0, 2])];
    ShowsAppend(s, "..", Biped, rigids, nOfRigids);
    s := s + "..";
    ShowsAppend(s, [Flag(rigids[3, 2])], Biped, rigids, nOfRigids);
    s := s + [Flag(rigids[3, 2])];
  }

  method ShowWorm(rigids: array2<bool>, nOfRigids: int) returns (s: string)
    requires rigids.Length0 == 5 && rigids.Length1 == 2
    ensures |s| == 11 && ShowsPrefix(s, Worm, rigids, nOfRigids)
  {
    s := [];
    for i := 0 to 5
      invariant |s| == i && ShowsPrefix(s, Worm, rigids, nOfRigids)
    {
      WormCellShown(rigids, nOfRigids, i, 0);
      ShowsAppend(s, [Flag(rigids[i, 0])], Worm, rigids, nOfRigids);
      s := s + [Flag(rigids[i, 0])];
    }
    ShowsAppend(s, "-", Worm, rigids, nOfRigids);
    s := s + "-";
    for i := 0 to 5
      invariant |s| == 6 + i && ShowsPrefix(s, Worm, rigids, nOfRigids)
    {
      WormCellShown(rigids, nOfRigids, i, 1);
      ShowsAppend(s, [Flag(rigids[i, 1])], Worm, rigids, nOfRigids);
      s := s + [Flag(rigids[i, 1])];
    }
  }

  method ShowT(rigids: array2<bool>, nOfRigids: int) returns (s: string)
    requires rigids.Length0 == 2 && rigids.Length1 == 5
    ensures |s| == 24 && ShowsPrefix(s, T, rigids, nOfRigids)
  {
    s := [];
    for i := 0 to 4
      invariant |s| == 5 * i && ShowsPrefix(s, T, rigids, nOfRigids)
    {
      var row := ['.', Flag(rigids[0, i]), Flag(rigids[1, i]), '.', '-'];
      TRowShown(rigids, nOfRigids, i);
      ShowsAppend(s, row, T, rigids, nOfRigids);
      s := s + row;
    }
    var last := [if nOfRigids < 11 then 's' else 'r', Flag(rigids[0, 4]), Flag(rigids[1, 4]), 's'];
    TLastRowShown(rigids, nOfRigids);
    ShowsAppend(s, last, T, rigids, nOfRigids);
    s := s + last;
  }

  method ShowPlus(rigids: array2<bool>, nOfRigids: int) returns (s: string)
    requires rigids.Length0 == 6 && rigids.Length1 == 6
    ensures |s| == 41 && ShowsPrefix(s, Plus, rigids, nOfRigids)
  {
    s := [];
    for i := 0 to 2
      invariant |s| == 7 * i && ShowsPrefix(s, Plus, rigids, nOfRigids)
    {
      var row := ['.', '.', Flag(rigids[i, 2]), Flag(rigids[i, 3]), '.', '.', '-'];
      PlusNarrowRowShown(rigids, nOfRigids, i);
      ShowsAppend(s, row, Plus, rigids, nOfRigids);
      s := s + row;
    }
    for i := 2 to 4
      invariant |s| == 7 * i && ShowsPrefix(s, Plus, rigids, nOfRigids)
    {
      var row := [Flag(rigids[i, 0]), Flag(rigids[i, 1]), Flag(rigids[i, 2]),
                  Flag(rigids[i, 3]), Flag(rigids[i, 4]), Flag(rigids[i, 5]), '-'];
      PlusWideRowShown(rigids, nOfRigids, i);
      ShowsAppend(s, row, Plus, rigids, nOfRigids);
      s := s + row;
    }
    var row4 := ['.', '.', Flag(rigids[4, 2]), Flag(rigids[4, 3]), '.', '.', '-'];
    PlusNarrowRowShown(rigids, nOfRigids, 4);
    ShowsAppend(s, row4, Plus, rigids, nOfRigids);
    s := s + row4;
    var row5 := ['.', '.', Flag(rigids[5, 2]), Flag(rigids[5, 3]), '.', '.'];
    PlusLastRowShown(rigids, nOfRigids);
    ShowsAppend(s, row5, Plus, rigids, nOfRigids);
    s := s + row5;
  }
}
