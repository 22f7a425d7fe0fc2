/**
 * What the landscape files contain: how the walk of one trial is laid out,
 * which rows a point writes when evaluations succeed or fail, how many rows
 * a configuration contributes, and that the rows of a sweep come out in
 * configuration-then-point order after a single header line.
 */
module LandscapeProperties {
  import opened Results
  import opened ShapeEncoder
  import opened Landscape

  // ---------------------------------------------------------------------
  // The walk of one trial

  /** Step 0 would be the base itself and step FRAGMENTATIONS reaches `base + dir`. */
  lemma WalkEnds(base: Genotype, dir: Genotype)
    requires |dir| == |base|
    ensures Fragment(base, dir, 0) == base
    ensures forall i | 0 <= i < |base| :: Fragment(base, dir, FRAGMENTATIONS)[i] == base[i] + dir[i]
  {
    assert Tick(0) == 0.0;
    assert Tick(FRAGMENTATIONS) == 1.0;
    assert forall i | 0 <= i < |base| :: Fragment(base, dir, 0)[i] == base[i];
  }

  /** Consecutive steps are `dir / FRAGMENTATIONS` apart in every component. */
  lemma EqualSteps(base: Genotype, dir: Genotype, iter: int)
    requires |dir| == |base|
    ensures forall i | 0 <= i < |base| ::
      Fragment(base, dir, iter + 1)[i] - Fragment(base, dir, iter)[i] == dir[i] / FRAGMENTATIONS as real
  {
    var step := 1.0 / FRAGMENTATIONS as real;
    assert Tick(iter + 1) == Tick(iter) + step;
    forall i | 0 <= i < |base|
      ensures Fragment(base, dir, iter + 1)[i] - Fragment(base, dir, iter)[i] == dir[i] / FRAGMENTATIONS as real
    {
      calc {
        Fragment(base, dir, iter + 1)[i] - Fragment(base, dir, iter)[i];
        (base[i] + (Tick(iter) + step) * dir[i]) - (base[i] + Tick(iter) * dir[i]);
        step * dir[i];
      }
    }
  }

  /**
   * Submission order: step `iter` of trial `t` is genotype number
   * `t * FRAGMENTATIONS + iter - 1` of the point, and its row's segment is `t`.
   */
  lemma SubmissionOrder(base: Genotype, dirs: seq<Genotype>, t: nat, iter: nat)
    requires DirectionsFit(base, dirs)
    requires t < NOFTRIALS && 1 <= iter <= FRAGMENTATIONS
    ensures t * FRAGMENTATIONS + iter - 1 < |Fragments(base, dirs)|
    ensures Fragments(base, dirs)[t * FRAGMENTATIONS + iter - 1] == Fragment(base, dirs[t], iter)
    ensures (t * FRAGMENTATIONS + iter - 1) / FRAGMENTATIONS == t
  {
    StepIndex(t, iter - 1);
  }

  // ---------------------------------------------------------------------
  // The rows of one point

  /** The first failure is the number of results exactly when no evaluation failed. */
  lemma NoFailure(vs: seq<Option<real>>)
    ensures FirstFailure(vs) == |vs| <==> forall j | 0 <= j < |vs| :: vs[j].Some?
  {
  }

  /**
   * A failed base evaluation writes nothing; otherwise the base row comes
   * first, with segment -1, and row `1 + j` is result `j` with segment
   * `j / FRAGMENTATIONS`, up to the first failure.
   */
  lemma WrittenRows(config: int, point: int, base: Genotype, baseResult: Option<real>,
                    gs: seq<Genotype>, vs: seq<Option<real>>)
    requires |gs| == |vs|
    ensures baseResult.None? ==> Written(config, point, base, baseResult, gs, vs) == []
    ensures baseResult.Some? ==>
      var ls := Written(config, point, base, baseResult, gs, vs);
      && |ls| == 1 + FirstFailure(vs)
      && ls[0] == Data(Row(config, point, -1, base, baseResult.value))
      && forall j | 0 <= j < FirstFailure(vs) ::
           ls[1 + j] == Data(Row(config, point, j / FRAGMENTATIONS, gs[j], vs[j].value))
  {
  }

  lemma PointLabels(config: int, point: int, robot: Robot, base: Genotype, dirs: seq<Genotype>,
                    eval: (Robot, Genotype) -> Option<real>)
    requires DirectionsFit(base, dirs)
    ensures LabelledAs(PointLines(config, point, robot, base, dirs, eval), config, point)
  {
    var gs := Fragments(base, dirs);
    var vs := Evaluations(robot, gs, eval);
    WrittenRows(config, point, base, eval(robot, base), gs, vs);
  }

  /** The base and every step of every trial evaluate without an exception. */
  ghost predicate PointSucceeds(robot: Robot, base: Genotype, dirs: seq<Genotype>,
                                eval: (Robot, Genotype) -> Option<real>)
    requires DirectionsFit(base, dirs)
  {
    && eval(robot, base).Some?
    && forall t, iter | 0 <= t < NOFTRIALS && 1 <= iter <= FRAGMENTATIONS ::
         eval(robot, Fragment(base, dirs[t], iter)).Some?
  }

  /**
   * A point writes at most `1 + NOFTRIALS * FRAGMENTATIONS` rows, and all of
   * them exactly when every evaluation of the point succeeds.
   */
  lemma PointComplete(config: int, point: int, robot: Robot, base: Genotype, dirs: seq<Genotype>,
                      eval: (Robot, Genotype) -> Option<real>)
    requires DirectionsFit(base, dirs)
    ensures |PointLines(config, point, robot, base, dirs, eval)| <= 1 + NOFTRIALS * FRAGMENTATIONS
    ensures |PointLines(config, point, robot, base, dirs, eval)| == 1 + NOFTRIALS * FRAGMENTATIONS
            <==> PointSucceeds(robot, base, dirs, eval)
  {
    var gs := Fragments(base, dirs);
    var vs := Evaluations(robot, gs, eval);
    WrittenRows(config, point, base, eval(robot, base), gs, vs);
    NoFailure(vs);
    if PointSucceeds(robot, base, dirs, eval) {
      forall j | 0 <= j < |vs| ensures vs[j].Some? {
        SubmissionOrder(base, dirs, j / FRAGMENTATIONS, j % FRAGMENTATIONS + 1);
      }
    }
    if |PointLines(config, point, robot, base, dirs, eval)| == 1 + NOFTRIALS * FRAGMENTATIONS {
      assert eval(robot, base).Some?;
      forall t, iter | 0 <= t < NOFTRIALS && 1 <= iter <= FRAGMENTATIONS
        ensures eval(robot, Fragment(base, dirs[t], iter)).Some?
      {
        SubmissionOrder(base, dirs, t, iter);
        assert vs[t * FRAGMENTATIONS + iter - 1].Some?;
      }
    }
  }

  /**
   * Once step `iter` of trial `t` throws, no row of that step or of any
   * later step of the point is written.
   */
  lemma PointTruncated(config: int, point: int, robot: Robot, base: Genotype, dirs: seq<Genotype>,
                       eval: (Robot, Genotype) -> Option<real>, t: nat, iter: nat)
    requires DirectionsFit(base, dirs)
    requires t < NOFTRIALS && 1 <= iter <= FRAGMENTATIONS
    requires eval(robot, Fragment(base, dirs[t], iter)).None?
    ensures |PointLines(config, point, robot, base, dirs, eval)| <= t * FRAGMENTATIONS + iter
  {
    var gs := Fragments(base, dirs);
    var vs := Evaluations(robot, gs, eval);
    WrittenRows(config, point, base, eval(robot, base), gs, vs);
    SubmissionOrder(base, dirs, t, iter);
    assert vs[t * FRAGMENTATIONS + iter - 1].None?;
  }

  // ---------------------------------------------------------------------
  // Files as concatenations of blocks

  /** The blocks of lines in order, as the loops append them. */
  ghost function Flatten(bs: seq<seq<Line>>): seq<Line> {
    if |bs| == 0 then [] else Flatten(bs[..|bs| - 1]) + bs[|bs| - 1]
  }

  lemma {:induction false} FlattenBound(bs: seq<seq<Line>>, c: nat)
    requires forall p | 0 <= p < |bs| :: |bs[p]| <= c
    ensures |Flatten(bs)| <= |bs| * c
  {
    if |bs| > 0 {
      FlattenBound(bs[..|bs| - 1], c);
      assert |bs| * c == (|bs| - 1) * c + c;
    }
  }

  lemma {:induction false} FlattenExact(bs: seq<seq<Line>>, c: nat)
    requires forall p | 0 <= p < |bs| :: |bs[p]| == c
    ensures |Flatten(bs)| == |bs| * c
  {
    if |bs| > 0 {
      FlattenExact(bs[..|bs| - 1], c);
      assert |bs| * c == (|bs| - 1) * c + c;
    }
  }

  /** Every line is a data row of configuration `config` and point `point`. */
  ghost predicate LabelledAs(ls: seq<Line>, config: int, point: int) {
    forall i | 0 <= i < |ls| :: ls[i].Data? && ls[i].row.config == config && ls[i].row.point == point
  }

  /** `a` comes no later than `b` in configuration-then-point order. */
  predicate NotAfter(a: Row, b: Row) {
    a.config < b.config || (a.config == b.config && a.point <= b.point)
  }

  /** Every line is a data row with configuration in `[lo, hi)` and point in `[0, NOFPOINTS)`, in order. */
  ghost predicate SweepRows(ls: seq<Line>, lo: int, hi: int) {
    && (forall i | 0 <= i < |ls| ::
          ls[i].Data? && lo <= ls[i].row.config < hi && 0 <= ls[i].row.point < NOFPOINTS)
    && (forall i, j | 0 <= i < j < |ls| :: NotAfter(ls[i].row, ls[j].row))
  }

  /** Rows in order followed by rows that come after all of them stay in order. */
  lemma SweepRowsAppend(a: seq<Line>, b: seq<Line>, lo: int, hi: int)
    requires SweepRows(a, lo, hi) && SweepRows(b, lo, hi)
    requires forall i, j | 0 <= i < |a| && 0 <= j < |b| :: NotAfter(a[i].row, b[j].row)
    ensures SweepRows(a + b, lo, hi)
  {
    var ab := a + b;
    forall i, j | 0 <= i < j < |ab| ensures NotAfter(ab[i].row, ab[j].row) {
      if j < |a| {
        assert ab[i] == a[i] && ab[j] == a[j];
      } else if i < |a| {
        assert ab[i] == a[i] && ab[j] == b[j - |a|];
      } else {
        assert ab[i] == b[i - |a|] && ab[j] == b[j - |a|];
      }
    }
  }

  /** Blocks of points `0, 1, ...` of one configuration give its rows in point order. */
  lemma {:induction false} FlattenPoints(bs: seq<seq<Line>>, config: int)
    requires |bs| <= NOFPOINTS
    requires forall p | 0 <= p < |bs| :: LabelledAs(bs[p], config, p)
    ensures SweepRows(Flatten(bs), config, config + 1)
    ensures forall i | 0 <= i < |Flatten(bs)| :: Flatten(bs)[i].row.point < |bs|
  {
    if |bs| > 0 {
      var prefix, last := bs[..|bs| - 1], bs[|bs| - 1];
      FlattenPoints(prefix, config);
      assert SweepRows(last, config, config + 1) by {
        forall i, j | 0 <= i < j < |last| ensures NotAfter(last[i].row, last[j].row) {
          assert last[i].row.point == last[j].row.point;
        }
      }
      SweepRowsAppend(Flatten(prefix), last, config, config + 1);
    }
  }

  /** Blocks of configurations `lo, lo + 1, ...`, each in order, give all their rows in order. */
  lemma {:induction false} FlattenConfigs(bs: seq<seq<Line>>, lo: int)
    requires forall k | 0 <= k < |bs| :: SweepRows(bs[k], lo + k, lo + k + 1)
    ensures SweepRows(Flatten(bs), lo, lo + |bs|)
  {
    if |bs| > 0 {
      var prefix, last := bs[..|bs| - 1], bs[|bs| - 1];
      FlattenConfigs(prefix, lo);
      SweepRowsAppend(Flatten(prefix), last, lo, lo + |bs|);
    }
  }

  // ---------------------------------------------------------------------
  // The rows of one configuration

  /** The size of the lines of a point that succeeds, `1 + NOFTRIALS * FRAGMENTATIONS`. */
  const POINTROWS: nat := 1 + NOFTRIALS * FRAGMENTATIONS

  /** The evaluator returns normally for every genotype of this robot. */
  ghost predicate NeverThrows(robot: Robot, eval: (Robot, Genotype) -> Option<real>) {
    forall g: Genotype :: eval(robot, g).Some?
  }

  lemma PointAtBounds(config: int, point: int, robot: Robot, nOfParams: nat, draws: Draws,
                      eval: (Robot, Genotype) -> Option<real>)
    ensures |PointAt(config, point, robot, nOfParams, draws, eval)| <= POINTROWS
    ensures NeverThrows(robot, eval) ==> |PointAt(config, point, robot, nOfParams, draws, eval)| == POINTROWS
    ensures LabelledAs(PointAt(config, point, robot, nOfParams, draws, eval), config, point)
  {
    var base := BaseGenotype(draws, config, point, nOfParams);
    var dirs := Directions(draws, config, point, nOfParams);
    PointComplete(config, point, robot, base, dirs, eval);
    PointLabels(config, point, robot, base, dirs, eval);
  }

  /** The lines of the points of a configuration, one block per point. */
  ghost function PointBlocks(config: int, robot: Robot, nOfParams: nat, draws: Draws,
                             eval: (Robot, Genotype) -> Option<real>): (bs: seq<seq<Line>>)
    ensures |bs| == NOFPOINTS
  {
    seq(NOFPOINTS, p => PointAt(config, p, robot, nOfParams, draws, eval))
  }

  lemma {:induction false} PointsAsBlocks(config: int, robot: Robot, nOfParams: nat, draws: Draws,
                                          eval: (Robot, Genotype) -> Option<real>, n: nat)
    requires n <= NOFPOINTS
    ensures PointsLines(config, robot, nOfParams, draws, eval, n)
            == Flatten(PointBlocks(config, robot, nOfParams, draws, eval)[..n])
  {
    if n > 0 {
      PointsAsBlocks(config, robot, nOfParams, draws, eval, n - 1);
      PointBlocksStep(config, robot, nOfParams, draws, eval, n);
    }
  }

  lemma PointBlocksStep(config: int, robot: Robot, nOfParams: nat, draws: Draws,
                        eval: (Robot, Genotype) -> Option<real>, n: nat)
    requires 0 < n <= NOFPOINTS
    ensures Flatten(PointBlocks(config, robot, nOfParams, draws, eval)[..n])
            == Flatten(PointBlocks(config, robot, nOfParams, draws, eval)[..n - 1])
               + PointAt(config, n - 1, robot, nOfParams, draws, eval)
  {
    var bs := PointBlocks(config, robot, nOfParams, draws, eval);
    assert bs[..n][..n - 1] == bs[..n - 1];
  }

  /**
   * A configuration writes at most `NOFPOINTS * POINTROWS` rows, exactly
   * that many when the evaluator never throws, all of them data rows of
   * that configuration in point order.
   */
  lemma ConfigRows(config: int, robot: Robot, nOfParams: nat, draws: Draws,
                   eval: (Robot, Genotype) -> Option<real>)
    ensures |ConfigLines(config, robot, nOfParams, draws, eval)| <= NOFPOINTS * POINTROWS
    ensures NeverThrows(robot, eval) ==> |ConfigLines(config, robot, nOfParams, draws, eval)| == NOFPOINTS * POINTROWS
    ensures SweepRows(ConfigLines(config, robot, nOfParams, draws, eval), config, config + 1)
  {
    var bs := PointBlocks(config, robot, nOfParams, draws, eval);
    PointsAsBlocks(config, robot, nOfParams, draws, eval, NOFPOINTS);
    assert bs[..NOFPOINTS] == bs;
    forall p | 0 <= p < NOFPOINTS
      ensures |bs[p]| <= POINTROWS && LabelledAs(bs[p], config, p)
      ensures NeverThrows(robot, eval) ==> |bs[p]| == POINTROWS
    {
      PointAtBounds(config, p, robot, nOfParams, draws, eval);
    }
    FlattenBound(bs, POINTROWS);
    if NeverThrows(robot, eval) {
      FlattenExact(bs, POINTROWS);
    }
    FlattenPoints(bs, config);
  }

  // ---------------------------------------------------------------------
  // The two sweeps

  /**
   * Configuration `rigids` of the controller sweep has `min(rigids, Cap)`
   * rigid voxels, so every count from Cap on repeats the saturated body.
   */
  lemma ControllerBodies(shape: Shape, controller: string, rigids: nat)
    ensures CountOf('r', ControllerRobot(shape, controller, rigids).body)
            == if rigids < Cap(shape) then rigids else Cap(shape)
    ensures Cap(shape) <= rigids ==>
      ControllerRobot(shape, controller, rigids) == ControllerRobot(shape, controller, Cap(shape))
  {
    RigidCountSaturates(shape, rigids);
    OutOfRangeCounts(shape, rigids);
  }

  /** Every configuration of the body sweep uses the all-soft body and an inner-layer ratio of `neurons / 2`. */
  lemma BodyRobots(shape: Shape, neurons: int)
    ensures BodyRobot(shape, neurons).body == Template(shape)
    ensures CountOf('r', BodyRobot(shape, neurons).body) == 0
    ensures BodyRobot(shape, neurons).controller == Mlp(neurons as real / 2.0)
  {
    RigidCountSaturates(shape, 0);
    Baselines();
  }

  /** The lines of the controller sweep, one block per rigid count `0..n-1`. */
  ghost function ControllerBlocks(shape: Shape, controller: string, nOfParams: Robot -> nat, draws: Draws,
                                  eval: (Robot, Genotype) -> Option<real>, n: nat): (bs: seq<seq<Line>>)
    ensures |bs| == n
  {
    seq(n, k => ControllerConfigLines(shape, controller, nOfParams, draws, eval, k))
  }

  lemma {:induction false} ControllerAsBlocks(shape: Shape, controller: string, nOfParams: Robot -> nat, draws: Draws,
                                              eval: (Robot, Genotype) -> Option<real>, n: nat)
    ensures ControllerLines(shape, controller, nOfParams, draws, eval, n)
            == Flatten(ControllerBlocks(shape, controller, nOfParams, draws, eval, n))
  {
    if n > 0 {
      var bs := ControllerBlocks(shape, controller, nOfParams, draws, eval, n);
      ControllerAsBlocks(shape, controller, nOfParams, draws, eval, n - 1);
      assert bs[..n - 1] == ControllerBlocks(shape, controller, nOfParams, draws, eval, n - 1);
    }
  }

  /** Block `k` of the body sweep: the configuration with `k + 1` neurons. */
  ghost function BodyBlock(shape: Shape, nOfParams: Robot -> nat, draws: Draws,
                           eval: (Robot, Genotype) -> Option<real>, k: int): seq<Line>
  {
    BodyConfigLines(shape, nOfParams, draws, eval, k + 1)
  }

  /** The lines of the body sweep, one block per neuron count `1..n`. */
  ghost function BodyBlocks(shape: Shape, nOfParams: Robot -> nat, draws: Draws,
                            eval: (Robot, Genotype) -> Option<real>, n: nat): (bs: seq<seq<Line>>)
    ensures |bs| == n
  {
    seq(n, k => BodyBlock(shape, nOfParams, draws, eval, k))
  }

  lemma {:induction false} BodyAsBlocks(shape: Shape, nOfParams: Robot -> nat, draws: Draws,
                                        eval: (Robot, Genotype) -> Option<real>, n: nat)
    ensures BodyLines(shape, nOfParams, draws, eval, n) == Flatten(BodyBlocks(shape, nOfParams, draws, eval, n))
  {
    if n > 0 {
      var bs := BodyBlocks(shape, nOfParams, draws, eval, n);
      BodyAsBlocks(shape, nOfParams, draws, eval, n - 1);
      assert bs[..n - 1] == BodyBlocks(shape, nOfParams, draws, eval, n - 1);
    }
  }

  lemma ControllerConfigRows(shape: Shape, controller: string, nOfParams: Robot -> nat, draws: Draws,
                             eval: (Robot, Genotype) -> Option<real>, rigids: int)
    ensures SweepRows(ControllerConfigLines(shape, controller, nOfParams, draws, eval, rigids), rigids, rigids + 1)
    ensures |ControllerConfigLines(shape, controller, nOfParams, draws, eval, rigids)| <= NOFPOINTS * POINTROWS
  {
    var robot := ControllerRobot(shape, controller, rigids);
    ConfigRows(rigids, robot, nOfParams(robot), draws, eval);
  }

  /** Block `k` of the body sweep is configuration `k + 1`. */
  lemma BodyBlockRows(shape: Shape, nOfParams: Robot -> nat, draws: Draws,
                      eval: (Robot, Genotype) -> Option<real>, k: int)
    ensures SweepRows(BodyBlock(shape, nOfParams, draws, eval, k), 1 + k, 1 + k + 1)
    ensures |BodyBlock(shape, nOfParams, draws, eval, k)| <= NOFPOINTS * POINTROWS
  {
    var robot := BodyRobot(shape, k + 1);
    ConfigRows(k + 1, robot, nOfParams(robot), draws, eval);
  }

  /** The controller blocks: configurations `0..n-1` in order, each of at most `NOFPOINTS * POINTROWS` rows. */
  lemma ControllerBlocksRows(shape: Shape, controller: string, nOfParams: Robot -> nat, draws: Draws,
                             eval: (Robot, Genotype) -> Option<real>, n: nat)
    ensures SweepRows(Flatten(ControllerBlocks(shape, controller, nOfParams, draws, eval, n)), 0, n)
    ensures |Flatten(ControllerBlocks(shape, controller, nOfParams, draws, eval, n))| <= n * (NOFPOINTS * POINTROWS)
  {
    var bs := ControllerBlocks(shape, controller, nOfParams, draws, eval, n);
    forall k | 0 <= k < n
      ensures SweepRows(bs[k], k, k + 1) && |bs[k]| <= NOFPOINTS * POINTROWS
    {
      ControllerConfigRows(shape, controller, nOfParams, draws, eval, k);
    }
    FlattenConfigs(bs, 0);
    FlattenBound(bs, NOFPOINTS * POINTROWS);
  }

  /** The body blocks: configurations `1..n` in order, each of at most `NOFPOINTS * POINTROWS` rows. */
  lemma BodyBlocksRows(shape: Shape, nOfParams: Robot -> nat, draws: Draws,
                       eval: (Robot, Genotype) -> Option<real>, n: nat)
    ensures SweepRows(Flatten(BodyBlocks(shape, nOfParams, draws, eval, n)), 1, n + 1)
    ensures |Flatten(BodyBlocks(shape, nOfParams, draws, eval, n))| <= n * (NOFPOINTS * POINTROWS)
  {
    var bs := BodyBlocks(shape, nOfParams, draws, eval, n);
    forall k | 0 <= k < n
      ensures SweepRows(bs[k], 1 + k, 1 + k + 1) && |bs[k]| <= NOFPOINTS * POINTROWS
    {
      BodyBlockRows(shape, nOfParams, draws, eval, k);
    }
    FlattenConfigs(bs, 1);
    FlattenBound(bs, NOFPOINTS * POINTROWS);
  }

  /** A file whose only header is its first line, followed by rows in order. */
  ghost predicate WellFormedFile(file: seq<Line>, lo: int, hi: int) {
    |file| >= 1 && file[0] == Header && SweepRows(file[1..], lo, hi)
  }

  /**
   * The controller sweep writes one header, then the rows of configurations
   * `0..nOfShapes-1` in order, at most `NOFPOINTS * POINTROWS` per configuration.
   */
  lemma ControllerFile(shape: Shape, nOfShapes: int, controller: string, nOfParams: Robot -> nat, draws: Draws,
                       eval: (Robot, Genotype) -> Option<real>)
    ensures WellFormedFile([Header] + ControllerLines(shape, controller, nOfParams, draws, eval, Passes(nOfShapes)),
                           0, nOfShapes)
    ensures |[Header] + ControllerLines(shape, controller, nOfParams, draws, eval, Passes(nOfShapes))|
            <= 1 + Passes(nOfShapes) * (NOFPOINTS * POINTROWS)
  {
    var n := Passes(nOfShapes);
    var lines := ControllerLines(shape, controller, nOfParams, draws, eval, n);
    ControllerAsBlocks(shape, controller, nOfParams, draws, eval, n);
    ControllerBlocksRows(shape, controller, nOfParams, draws, eval, n);
    assert ([Header] + lines)[1..] == lines;
  }

  /** With an evaluator that always returns, the controller sweep writes every row of every configuration. */
  lemma ControllerFileLength(shape: Shape, nOfShapes: int, controller: string, nOfParams: Robot -> nat, draws: Draws,
                             eval: (Robot, Genotype) -> Option<real>)
    requires forall robot: Robot :: NeverThrows(robot, eval)
    ensures |[Header] + ControllerLines(shape, controller, nOfParams, draws, eval, Passes(nOfShapes))|
            == 1 + Passes(nOfShapes) * (NOFPOINTS * POINTROWS)
  {
    var n := Passes(nOfShapes);
    var bs := ControllerBlocks(shape, controller, nOfParams, draws, eval, n);
    ControllerAsBlocks(shape, controller, nOfParams, draws, eval, n);
    forall k | 0 <= k < n ensures |bs[k]| == NOFPOINTS * POINTROWS {
      var robot := ControllerRobot(shape, controller, k);
      ConfigRows(k, robot, nOfParams(robot), draws, eval);
    }
    FlattenExact(bs, NOFPOINTS * POINTROWS);
  }

  /** The first `n` configurations of the body sweep: one header, then their rows in order. */
  lemma BodyPrefixFile(shape: Shape, nOfParams: Robot -> nat, draws: Draws, eval: (Robot, Genotype) -> Option<real>,
                       n: nat)
    ensures WellFormedFile([Header] + BodyLines(shape, nOfParams, draws, eval, n), 1, n + 1)
    ensures |[Header] + BodyLines(shape, nOfParams, draws, eval, n)| <= 1 + n * (NOFPOINTS * POINTROWS)
  {
    var lines := BodyLines(shape, nOfParams, draws, eval, n);
    BodyAsBlocks(shape, nOfParams, draws, eval, n);
    BodyBlocksRows(shape, nOfParams, draws, eval, n);
    assert ([Header] + lines)[1..] == lines;
  }

  /**
   * The body sweep writes one header, then the rows of configurations
   * `1..10` in order, at most `NOFPOINTS * POINTROWS` per configuration.
   */
  lemma BodyFile(shape: Shape, nOfParams: Robot -> nat, draws: Draws, eval: (Robot, Genotype) -> Option<real>)
    ensures WellFormedFile([Header] + BodyLines(shape, nOfParams, draws, eval, 10), 1, 11)
    ensures |[Header] + BodyLines(shape, nOfParams, draws, eval, 10)| <= 1 + 10 * (NOFPOINTS * POINTROWS)
  {
    BodyPrefixFile(shape, nOfParams, draws, eval, 10);
  }

  /** With an evaluator that always returns, the body sweep writes every row of its ten configurations. */
  lemma BodyFileLength(shape: Shape, nOfParams: Robot -> nat, draws: Draws, eval: (Robot, Genotype) -> Option<real>)
    requires forall robot: Robot :: NeverThrows(robot, eval)
    ensures |[Header] + BodyLines(shape, nOfParams, draws, eval, 10)| == 1 + 10 * (NOFPOINTS * POINTROWS)
  {
    var bs := BodyBlocks(shape, nOfParams, draws, eval, 10);
    BodyAsBlocks(shape, nOfParams, draws, eval, 10);
    forall k | 0 <= k < 10 ensures |bs[k]| == NOFPOINTS * POINTROWS {
      var robot := BodyRobot(shape, k + 1);
      ConfigRows(k + 1, robot, nOfParams(robot), draws, eval);
    }
    FlattenExact(bs, NOFPOINTS * POINTROWS);
  }
}
