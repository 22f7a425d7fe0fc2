/**
 * The declarative shape encoder: for each body family, a baseline
 * all-soft layout and an ordered list of the layout positions that turn
 * rigid one after the other. `Encode(shape, n)` marks the first `n`
 * positions of that list (saturating at its length). The loops of
 * `Main.buildStringShape` are proved equal to it in module ShapeBuilder.
 *
 * Layout alphabet: 'r' rigid cell, 's' soft cell, '.' no cell, '-' row break.
 */
module ShapeEncoder {

  /** The four body families (`Main.Shape`). */
  datatype Shape = Biped | Worm | T | Plus

  /** How many cells of a family can be made rigid. */
  function Cap(shape: Shape): nat {
    match shape
    case Biped => 10
    case Worm => 7
    case T => 11
    case Plus => 18
  }

  /** The layout with no rigid cell. */
  function Template(shape: Shape): string {
    match shape
    case Biped => "ssss-ssss-s..s"
    case Worm => "sssss-sssss"
    case T => ".ss.-.ss.-.ss.-.ss.-ssss"
    case Plus => "..ss..-..ss..-ssssss-ssssss-..ss..-..ss.."
  }

  /**
   * The layout positions in the order in which they become rigid: the
   * k-th entry is the cell made rigid when the count goes from k to k+1.
   */
  function Priority(shape: Shape): (p: seq<nat>)
    ensures |p| == Cap(shape)
  {
    match shape
    case Biped => [10, 13, 5, 8, 0, 3, 1, 2, 6, 7]
    case Worm => [0, 7, 2, 9, 4, 1, 8]
    case T => [1, 7, 11, 17, 21, 2, 6, 12, 16, 22, 20]
    case Plus => [2, 10, 16, 24, 30, 38, 14, 22, 19, 25, 3, 9, 21, 15, 26, 18, 37, 31]
  }

  /** `n` clamped to `0..cap`: how many priority positions are marked. */
  function Saturate(n: int, cap: nat): (k: nat)
    ensures k <= cap
    ensures n <= 0 ==> k == 0
    ensures 0 <= n <= cap ==> k == n
    ensures cap <= n ==> k == cap
  {
    if n <= 0 then 0 else if n < cap then n else cap
  }

  /** `template` with every position listed in `cells` turned rigid. */
  function Mark(template: string, cells: seq<nat>): (s: string)
    ensures |s| == |template|
  {
    seq(|template|, p requires 0 <= p < |template| => if p in cells then 'r' else template[p])
  }

  /** The shape string for `nOfRigids` rigid cells. */
  function Encode(shape: Shape, nOfRigids: int): string {
    Mark(Template(shape), Priority(shape)[..Saturate(nOfRigids, Cap(shape))])
  }

  /** Number of occurrences of `c` in `s`. */
  function CountOf(c: char, s: string): nat {
    if s == [] then 0 else (if s[0] == c then 1 else 0) + CountOf(c, s[1..])
  }

  ghost predicate NoDuplicates(s: seq<nat>) {
    forall i, j | 0 <= i < j < |s| :: s[i] != s[j]
  }

  // ---------------------------------------------------------------------
  // The inverse of the priority tables

  /** The place of layout position `p` in `Priority(shape)`, or -1 for a position that never turns rigid. */
  function Slot(shape: Shape, p: int): (k: int)
    ensures -1 <= k < Cap(shape)
  {
    match shape
    case Biped =>
      if p == 10 then 0 else if p == 13 then 1 else if p == 5 then 2 else if p == 8 then 3
      else if p == 0 then 4 else if p == 3 then 5 else if p == 1 then 6 else if p == 2 then 7
      else if p == 6 then 8 else if p == 7 then 9 else -1
    case Worm =>
      if p == 0 then 0 else if p == 7 then 1 else if p == 2 then 2 else if p == 9 then 3
      else if p == 4 then 4 else if p == 1 then 5 else if p == 8 then 6 else -1
    case T =>
      if p == 1 then 0 else if p == 7 then 1 else if p == 11 then 2 else if p == 17 then 3
      else if p == 21 then 4 else if p == 2 then 5 else if p == 6 then 6 else if p == 12 then 7
      else if p == 16 then 8 else if p == 22 then 9 else if p == 20 then 10 else -1
    case Plus =>
      if p == 2 then 0 else if p == 10 then 1 else if p == 16 then 2 else if p == 24 then 3
      else if p == 30 then 4 else if p == 38 then 5 else if p == 14 then 6 else if p == 22 then 7
      else if p == 19 then 8 else if p == 25 then 9 else if p == 3 then 10 else if p == 9 then 11
      else if p == 21 then 12 else if p == 15 then 13 else if p == 26 then 14 else if p == 18 then 15
      else if p == 37 then 16 else if p == 31 then 17 else -1
  }

  /** Slot and Priority are inverse, and Priority only lists template positions. */
  ghost predicate SlotsInvert(shape: Shape) {
    && (forall k | 0 <= k < Cap(shape) ::
          Priority(shape)[k] < |Template(shape)| && Slot(shape, Priority(shape)[k]) == k)
    && (forall p | Slot(shape, p) >= 0 :: 0 <= p < |Template(shape)| && Priority(shape)[Slot(shape, p)] == p)
  }

  /** Templates hold only '.', '-' and 's', and every listed position is a soft cell. */
  ghost predicate TemplateSoft(shape: Shape) {
    forall p | 0 <= p < |Template(shape)| ::
      && (Template(shape)[p] == '.' || Template(shape)[p] == '-' || Template(shape)[p] == 's')
      && (Slot(shape, p) >= 0 ==> Template(shape)[p] == 's')
  }

  ghost predicate SlotsFit(shape: Shape) {
    SlotsInvert(shape) && TemplateSoft(shape)
  }

  lemma TablesFit(shape: Shape)
    ensures SlotsFit(shape)
  {
    match shape
    case Biped => BipedSlots(); BipedTemplate();
    case Worm => WormSlots(); WormTemplate();
    case T => TSlots(); TTemplate();
    case Plus => PlusSlots(); PlusTemplate();
  }

  lemma BipedSlots() ensures SlotsInvert(Biped) {
    forall k | 0 <= k < 10 ensures Priority(Biped)[k] < 14 && Slot(Biped, Priority(Biped)[k]) == k {
      assert k == 0 || k == 1 || k == 2 || k == 3 || k == 4 || k == 5 || k == 6 || k == 7 || k == 8 || k == 9;
    }
    forall p | Slot(Biped, p) >= 0 ensures 0 <= p < 14 && Priority(Biped)[Slot(Biped, p)] == p {
      assert p == 10 || p == 13 || p == 5 || p == 8 || p == 0 || p == 3 || p == 1 || p == 2 || p == 6 || p == 7;
    }
  }

  lemma BipedTemplate() ensures TemplateSoft(Biped) {
    forall p | 0 <= p < 14
      ensures && (Template(Biped)[p] == '.' || Template(Biped)[p] == '-' || Template(Biped)[p] == 's')
              && (Slot(Biped, p) >= 0 ==> Template(Biped)[p] == 's')
    {
      assert p == 0 || p == 1 || p == 2 || p == 3 || p == 4 || p == 5 || p == 6 || p == 7 || p == 8 || p == 9 || p == 10 || p == 11 || p == 12 || p == 13;
    }
  }

  lemma WormSlots() ensures SlotsInvert(Worm) {
    forall k | 0 <= k < 7 ensures Priority(Worm)[k] < 11 && Slot(Worm, Priority(Worm)[k]) == k {
      assert k == 0 || k == 1 || k == 2 || k == 3 || k == 4 || k == 5 || k == 6;
    }
    forall p | Slot(Worm, p) >= 0 ensures 0 <= p < 11 && Priority(Worm)[Slot(Worm, p)] == p {
      assert p == 0 || p == 7 || p == 2 || p == 9 || p == 4 || p == 1 || p == 8;
    }
  }

  lemma WormTemplate() ensures TemplateSoft(Worm) {
    forall p | 0 <= p < 11
      ensures && (Template(Worm)[p] == '.' || Template(Worm)[p] == '-' || Template(Worm)[p] == 's')
              && (Slot(Worm, p) >= 0 ==> Template(Worm)[p] == 's')
    {
      assert p == 0 || p == 1 || p == 2 || p == 3 || p == 4 || p == 5 || p == 6 || p == 7 || p == 8 || p == 9 || p == 10;
    }
  }

  lemma TSlots() ensures SlotsInvert(T) {
    forall k | 0 <= k < 11 ensures Priority(T)[k] < 24 && Slot(T, Priority(T)[k]) == k {
      assert k == 0 || k == 1 || k == 2 || k == 3 || k == 4 || k == 5 || k == 6 || k == 7 || k == 8 || k == 9 || k == 10;
    }
    forall p | Slot(T, p) >= 0 ensures 0 <= p < 24 && Priority(T)[Slot(T, p)] == p {
      assert p == 1 || p == 7 || p == 11 || p == 17 || p == 21 || p == 2 || p == 6 || p == 12 || p == 16 || p == 22 || p == 20;
    }
  }

  lemma TTemplate() ensures TemplateSoft(T) {
    forall p | 0 <= p < 24
      ensures && (Template(T)[p] == '.' || Template(T)[p] == '-' || Template(T)[p] == 's')
              && (Slot(T, p) >= 0 ==> Template(T)[p] == 's')
    {
      assert p == 0 || p == 1 || p == 2 || p == 3 || p == 4 || p == 5 || p == 6 || p == 7 || p == 8 || p == 9 || p == 10 || p == 11 || p == 12 || p == 13 || p == 14 || p == 15 || p == 16 || p == 17 || p == 18 || p == 19 || p == 20 || p == 21 || p == 22 || p == 23;
    }
  }

  lemma PlusSlots() ensures SlotsInvert(Plus) {
    forall k | 0 <= k < 18 ensures Priority(Plus)[k] < 41 && Slot(Plus, Priority(Plus)[k]) == k {
      assert k == 0 || k == 1 || k == 2 || k == 3 || k == 4 || k == 5 || k == 6 || k == 7 || k == 8 || k == 9 || k == 10 || k == 11 || k == 12 || k == 13 || k == 14 || k == 15 || k == 16 || k == 17;
    }
    forall p | Slot(Plus, p) >= 0 ensures 0 <= p < 41 && Priority(Plus)[Slot(Plus, p)] == p {
      assert p == 2 || p == 10 || p == 16 || p == 24 || p == 30 || p == 38 || p == 14 || p == 22 || p == 19 || p == 25 || p == 3 || p == 9 || p == 21 || p == 15 || p == 26 || p == 18 || p == 37 || p == 31;
    }
  }

  lemma PlusTemplate() ensures TemplateSoft(Plus) {
    forall p | 0 <= p < 41
      ensures && (Template(Plus)[p] == '.' || Template(Plus)[p] == '-' || Template(Plus)[p] == 's')
              && (Slot(Plus, p) >= 0 ==> Template(Plus)[p] == 's')
    {
      assert p == 0 || p == 1 || p == 2 || p == 3 || p == 4 || p == 5 || p == 6 || p == 7 || p == 8 || p == 9 || p == 10 || p == 11 || p == 12 || p == 13 || p == 14 || p == 15 || p == 16 || p == 17 || p == 18 || p == 19 || p == 20 || p == 21 || p == 22 || p == 23 || p == 24 || p == 25 || p == 26 || p == 27 || p == 28 || p == 29 || p == 30 || p == 31 || p == 32 || p == 33 || p == 34 || p == 35 || p == 36 || p == 37 || p == 38 || p == 39 || p == 40;
    }
  }

  /** No two places of a priority list name the same position. */
  lemma PriorityNoDuplicates(shape: Shape)
    ensures NoDuplicates(Priority(shape))
  {
    TablesFit(shape);
  }

  // ---------------------------------------------------------------------
  // Generic lemmas about marking

  lemma {:induction false} CountOfUpdate(s: string, q: nat)
    requires q < |s| && s[q] != 'r'
    ensures CountOf('r', s[q := 'r']) == CountOf('r', s) + 1
  {
    if q > 0 {
      assert s[q := 'r'][1..] == s[1..][q - 1 := 'r'];
      CountOfUpdate(s[1..], q - 1);
    } else {
      assert s[q := 'r'][1..] == s[1..];
    }
  }

  lemma {:induction false} CountOfMark(template: string, cells: seq<nat>)
    requires NoDuplicates(cells)
    requires forall i | 0 <= i < |cells| :: cells[i] < |template|
    requires forall p | 0 <= p < |template| :: template[p] != 'r'
    ensures CountOf('r', Mark(template, cells)) == |cells|
  {
    if cells == [] {
      assert Mark(template, cells) == template;
      NoRigid(template);
    } else {
      var init, q := cells[..|cells| - 1], cells[|cells| - 1];
      assert q !in init by {
        forall idx | 0 <= idx < |init| ensures init[idx] != q {
          assert init[idx] == cells[idx];
        }
      }
      assert Mark(template, cells) == Mark(template, init)[q := 'r'] by {
        assert forall p | 0 <= p < |template| :: (p in cells <==> p in init || p == q) by {
          assert cells == init + [q];
        }
      }
      CountOfMark(template, init);
      CountOfUpdate(Mark(template, init), q);
    }
  }

  lemma {:induction false} NoRigid(s: string)
    requires forall p | 0 <= p < |s| :: s[p] != 'r'
    ensures CountOf('r', s) == 0
  {
    if s != [] {
      assert s[0] != 'r';
      NoRigid(s[1..]);
    }
  }

  // ---------------------------------------------------------------------
  // Position-wise reading of Encode

  /** Position `p` is rigid exactly when its slot is below the marked count; otherwise it keeps its template character. */
  lemma EncodeChar(shape: Shape, n: int, p: nat)
    requires p < |Template(shape)|
    ensures |Encode(shape, n)| == |Template(shape)|
    ensures Encode(shape, n)[p] == if 0 <= Slot(shape, p) < Saturate(n, Cap(shape)) then 'r' else Template(shape)[p]
  {
    TablesFit(shape);
    var k := Saturate(n, Cap(shape));
    var ps := Priority(shape)[..k];
    if p in ps {
      var idx :| 0 <= idx < k && ps[idx] == p;
      assert Priority(shape)[idx] == p;
    }
    if 0 <= Slot(shape, p) < k {
      assert ps[Slot(shape, p)] == p;
    }
  }

  /** The k-th priority cell is rigid exactly when k is below the marked count, and soft otherwise. */
  lemma EncodeAt(shape: Shape, n: int, k: nat)
    requires k < Cap(shape)
    ensures Priority(shape)[k] < |Encode(shape, n)|
    ensures Encode(shape, n)[Priority(shape)[k]] == if k < Saturate(n, Cap(shape)) then 'r' else 's'
  {
    TablesFit(shape);
    EncodeChar(shape, n, Priority(shape)[k]);
  }

  // ---------------------------------------------------------------------
  // Properties of the encoder

  /** With no rigid cell every family gives its documented baseline. */
  lemma Baselines()
    ensures Encode(Biped, 0) == "ssss-ssss-s..s"
    ensures Encode(Worm, 0) == "sssss-sssss"
    ensures Encode(T, 0) == ".ss.-.ss.-.ss.-.ss.-ssss"
    ensures Encode(Plus, 0) == "..ss..-..ss..-ssssss-ssssss-..ss..-..ss.."
  {
    forall shape: Shape ensures Encode(shape, 0) == Template(shape) {
      assert Priority(shape)[..0] == [];
    }
  }

  /**
   * The layout is fixed per family: the length is 14, 11, 24 or 41, every
   * '.' and '-' sits where the template has it, and only cells vary
   * between 'r' and 's'.
   */
  lemma LayoutIsFixed(shape: Shape, n: int)
    ensures |Encode(shape, n)| == match shape case Biped => 14 case Worm => 11 case T => 24 case Plus => 41
    ensures forall p | 0 <= p < |Template(shape)| ::
      (Encode(shape, n)[p] == '.' <==> Template(shape)[p] == '.') &&
      (Encode(shape, n)[p] == '-' <==> Template(shape)[p] == '-') &&
      (Encode(shape, n)[p] in "rs" <==> Template(shape)[p] == 's')
  {
    TablesFit(shape);
    var e, t := Encode(shape, n), Template(shape);
    forall p | 0 <= p < |t|
      ensures (e[p] == '.' <==> t[p] == '.') && (e[p] == '-' <==> t[p] == '-') && (e[p] in "rs" <==> t[p] == 's')
    {
      EncodeChar(shape, n, p);
    }
  }

  /** The number of rigid cells is the requested count clamped to `0..Cap(shape)`. */
  lemma RigidCountSaturates(shape: Shape, n: int)
    ensures CountOf('r', Encode(shape, n)) == Saturate(n, Cap(shape))
    ensures CountOf('r', Encode(shape, n)) == if n <= 0 then 0 else if n < Cap(shape) then n else Cap(shape)
  {
    TablesFit(shape);
    PriorityNoDuplicates(shape);
    var ps := Priority(shape)[..Saturate(n, Cap(shape))];
    assert NoDuplicates(ps);
    CountOfMark(Template(shape), ps);
  }

  /** A negative count behaves like zero, and a count above the cap like the cap. */
  lemma OutOfRangeCounts(shape: Shape, n: int)
    ensures n <= 0 ==> Encode(shape, n) == Encode(shape, 0)
    ensures Cap(shape) <= n ==> Encode(shape, n) == Encode(shape, Cap(shape))
  {
  }

  /** Raising the count never turns a rigid cell soft. */
  lemma Monotone(shape: Shape, n: int, m: int)
    requires n <= m
    ensures |Encode(shape, n)| == |Encode(shape, m)|
    ensures forall p | 0 <= p < |Encode(shape, n)| :: Encode(shape, n)[p] == 'r' ==> Encode(shape, m)[p] == 'r'
  {
    TablesFit(shape);
    forall p | 0 <= p < |Encode(shape, n)| && Encode(shape, n)[p] == 'r'
      ensures Encode(shape, m)[p] == 'r'
    {
      EncodeChar(shape, n, p);
      EncodeChar(shape, m, p);
    }
  }

  /** Each increment below the cap turns exactly the next priority cell, a soft one, rigid. */
  lemma IncrementAddsNextCell(shape: Shape, n: nat)
    requires n < Cap(shape)
    ensures Priority(shape)[n] < |Encode(shape, n)|
    ensures Encode(shape, n)[Priority(shape)[n]] == 's'
    ensures Encode(shape, n + 1) == Encode(shape, n)[Priority(shape)[n] := 'r']
  {
    TablesFit(shape);
    EncodeAt(shape, n, n);
    var e, e' := Encode(shape, n), Encode(shape, n + 1);
    var marked := e[Priority(shape)[n] := 'r'];
    assert Saturate(n, Cap(shape)) == n && Saturate(n + 1, Cap(shape)) == n + 1;
    forall p | 0 <= p < |Template(shape)| ensures e'[p] == marked[p] {
      EncodeChar(shape, n, p);
      EncodeChar(shape, n + 1, p);
      if p != Priority(shape)[n] {
        assert Slot(shape, p) != n;
      }
    }
  }

  /** The saturated layouts. */
  lemma BipedSaturated() ensures Encode(Biped, 10) == "rrrr-rrrr-r..r" {
    forall p | 0 <= p < 14 ensures Encode(Biped, 10)[p] == "rrrr-rrrr-r..r"[p] {
      EncodeChar(Biped, 10, p);
      assert p == 0 || p == 1 || p == 2 || p == 3 || p == 4 || p == 5 || p == 6 || p == 7 || p == 8 || p == 9 || p == 10 || p == 11 || p == 12 || p == 13;
    }
  }

  lemma WormSaturated() ensures Encode(Worm, 7) == "rrrsr-srrrs" {
    forall p | 0 <= p < 11 ensures Encode(Worm, 7)[p] == "rrrsr-srrrs"[p] {
      EncodeChar(Worm, 7, p);
      assert p == 0 || p == 1 || p == 2 || p == 3 || p == 4 || p == 5 || p == 6 || p == 7 || p == 8 || p == 9 || p == 10;
    }
  }

  lemma TSaturated() ensures Encode(T, 11) == ".rr.-.rr.-.rr.-.rr.-rrrs" {
    forall p | 0 <= p < 24 ensures Encode(T, 11)[p] == ".rr.-.rr.-.rr.-.rr.-rrrs"[p] {
      EncodeChar(T, 11, p);
      assert p == 0 || p == 1 || p == 2 || p == 3 || p == 4 || p == 5 || p == 6 || p == 7 || p == 8 || p == 9 || p == 10 || p == 11 || p == 12 || p == 13 || p == 14 || p == 15 || p == 16 || p == 17 || p == 18 || p == 19 || p == 20 || p == 21 || p == 22 || p == 23;
    }
  }

  lemma PlusSaturated() ensures Encode(Plus, 18) == "..rr..-..rr..-rrrsrr-rrsrrr-..rr..-..rr.." {
    forall p | 0 <= p < 41 ensures Encode(Plus, 18)[p] == "..rr..-..rr..-rrrsrr-rrsrrr-..rr..-..rr.."[p] {
      EncodeChar(Plus, 18, p);
      assert p == 0 || p == 1 || p == 2 || p == 3 || p == 4 || p == 5 || p == 6 || p == 7 || p == 8 || p == 9 || p == 10 || p == 11 || p == 12 || p == 13 || p == 14 || p == 15 || p == 16 || p == 17 || p == 18 || p == 19 || p == 20 || p == 21 || p == 22 || p == 23 || p == 24 || p == 25 || p == 26 || p == 27 || p == 28 || p == 29 || p == 30 || p == 31 || p == 32 || p == 33 || p == 34 || p == 35 || p == 36 || p == 37 || p == 38 || p == 39 || p == 40;
    }
  }

  /** In T, the last character is always soft and the head of the last row is rigid exactly from 11 on. */
  lemma TSpecialCells(n: int)
    ensures |Encode(T, n)| == 24
    ensures Encode(T, n)[23] == 's'
    ensures Encode(T, n)[20] == if n >= 11 then 'r' else 's'
  {
    EncodeChar(T, n, 23);
    EncodeChar(T, n, 20);
  }

  /** In PLUS, grid cells [2][3] and [3][2] (positions 17 and 23) never turn rigid. */
  lemma PlusNeverRigid(n: int)
    ensures |Encode(Plus, n)| == 41
    ensures Encode(Plus, n)[17] == 's' && Encode(Plus, n)[23] == 's'
  {
    EncodeChar(Plus, n, 17);
    EncodeChar(Plus, n, 23);
  }
}
