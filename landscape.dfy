/**
 * The fitness-landscape sweeps of `Main.fixedControllerLandscape` and
 * `Main.fixedBodyLandscape`. For every configuration of the robot, and for
 * each of NOFPOINTS base genotypes, the base is evaluated and then walked
 * towards each of NOFTRIALS directions in FRAGMENTATIONS equal steps; every
 * step is evaluated too. One CSV row is written per evaluation, in
 * submission order, after a single header line.
 *
 * The random draws and the simulation are inputs: a `Draws` value gives
 * every component of every base genotype and of every (already normalised)
 * direction, `nOfParams` gives the genotype size of a robot (its mapper's
 * example input), and the evaluator returns `None` where the source's
 * `Future.get()` throws. The output file is the sequence of lines written.
 */
module Landscape {
  import opened Results
  import opened ShapeEncoder
  import ShapeBuilder

  const NOFPOINTS: nat := 20
  const NOFTRIALS: nat := 20
  const FRAGMENTATIONS: nat := 500

  type Genotype = seq<real>

  /** The controller part of the robot description handed to the named builder. */
  datatype Controller = Given(description: string) | Mlp(innerLayerRatio: real)

  /** A robot: a body in the layout alphabet of ShapeEncoder and a controller. */
  datatype Robot = Robot(body: string, controller: Controller)

  /**
   * The random numbers: `base(config, point, i)` is component `i` of the base
   * genotype of a point, `dir(config, point, trial, i)` component `i` of the
   * direction of a trial.
   */
  datatype Draws = Draws(base: (int, int, int) -> real, dir: (int, int, int, int) -> real)

  /** One data row `config;point;segment;genotype;fitness` (the genotype before serialisation). */
  datatype Row = Row(config: int, point: int, segment: int, genotype: Genotype, fitness: real)

  /** A line of the CSV file: the header `rigids;point;segment;genotype;fitness` or a data row. */
  datatype Line = Header | Data(row: Row)

  // ---------------------------------------------------------------------
  // What is submitted for one point

  /** `tick = iter / (double) FRAGMENTATIONS`, exactly. */
  function Tick(iter: int): (t: real)
    ensures t * FRAGMENTATIONS as real == iter as real
  {
    iter as real / FRAGMENTATIONS as real
  }

  /**
   * Step `iter` of the walk from `base` along `dir`: `base[i] + tick * dir[i]`
   * elementwise, so its offset from the base is `iter / FRAGMENTATIONS` of
   * the direction in every component.
   */
  function Fragment(base: Genotype, dir: Genotype, iter: int): (g: Genotype)
    requires |dir| == |base|
    ensures |g| == |base|
    ensures forall i | 0 <= i < |base| :: (g[i] - base[i]) * FRAGMENTATIONS as real == iter as real * dir[i]
  {
    var t := Tick(iter);
    var g := seq(|base|, i requires 0 <= i < |base| => base[i] + t * dir[i]);
    assert forall i | 0 <= i < |base| :: (g[i] - base[i]) * FRAGMENTATIONS as real == (t * FRAGMENTATIONS as real) * dir[i];
    g
  }

  ghost predicate DirectionsFit(base: Genotype, dirs: seq<Genotype>) {
    |dirs| == NOFTRIALS && forall t | 0 <= t < |dirs| :: |dirs[t]| == |base|
  }

  /** The base genotype of a point: `nOfParams` draws. */
  function BaseGenotype(draws: Draws, config: int, point: int, nOfParams: nat): (g: Genotype)
    ensures |g| == nOfParams
  {
    seq(nOfParams, i => draws.base(config, point, i))
  }

  /** The directions of a point, one per trial, each of `nOfParams` components. */
  function Directions(draws: Draws, config: int, point: int, nOfParams: nat): (ds: seq<Genotype>)
    ensures |ds| == NOFTRIALS && forall t | 0 <= t < |ds| :: |ds[t]| == nOfParams
  {
    seq(NOFTRIALS, t => seq(nOfParams, i => draws.dir(config, point, t, i)))
  }

  /** The genotypes of one point in submission order: trial by trial, steps 1 to FRAGMENTATIONS. */
  function Fragments(base: Genotype, dirs: seq<Genotype>): (gs: seq<Genotype>)
    requires DirectionsFit(base, dirs)
    ensures |gs| == NOFTRIALS * FRAGMENTATIONS
  {
    seq(NOFTRIALS * FRAGMENTATIONS, j requires 0 <= j < NOFTRIALS * FRAGMENTATIONS =>
      Fragment(base, dirs[j / FRAGMENTATIONS], j % FRAGMENTATIONS + 1))
  }

  /** The result of every submitted genotype, in submission order. */
  function Evaluations(robot: Robot, gs: seq<Genotype>, eval: (Robot, Genotype) -> Option<real>): (vs: seq<Option<real>>)
    ensures |vs| == |gs|
  {
    seq(|gs|, j requires 0 <= j < |gs| => eval(robot, gs[j]))
  }

  /** The index of the first failed evaluation, or the number of results if none failed. */
  function FirstFailure(vs: seq<Option<real>>): (k: nat)
    ensures k <= |vs|
    ensures forall j | 0 <= j < k :: vs[j].Some?
    ensures k < |vs| ==> vs[k].None?
  {
    if vs == [] || vs[0].None? then 0 else 1 + FirstFailure(vs[1..])
  }

  // ---------------------------------------------------------------------
  // What is written

  /** The data rows for the first `k` results, each tagged with its trial `counter / FRAGMENTATIONS`. */
  function DataLines(config: int, point: int, gs: seq<Genotype>, vs: seq<Option<real>>, k: nat): (ls: seq<Line>)
    requires |gs| == |vs| && k <= FirstFailure(vs)
    ensures |ls| == k
  {
    seq(k, j requires 0 <= j < k => Data(Row(config, point, j / FRAGMENTATIONS, gs[j], vs[j].value)))
  }

  /**
   * The lines the `try` block writes: nothing if the base evaluation
   * fails, otherwise the base row (segment -1) followed by one row per
   * result up to the first failure.
   */
  function Written(config: int, point: int, base: Genotype, baseResult: Option<real>,
                   gs: seq<Genotype>, vs: seq<Option<real>>): seq<Line>
    requires |gs| == |vs|
  {
    match baseResult
    case None => []
    case Some(v) => [Data(Row(config, point, -1, base, v))] + DataLines(config, point, gs, vs, FirstFailure(vs))
  }

  /** Everything one point contributes to the file. */
  function PointLines(config: int, point: int, robot: Robot, base: Genotype, dirs: seq<Genotype>,
                      eval: (Robot, Genotype) -> Option<real>): seq<Line>
    requires DirectionsFit(base, dirs)
  {
    var gs := Fragments(base, dirs);
    Written(config, point, base, eval(robot, base), gs, Evaluations(robot, gs, eval))
  }

  /** The lines of point `point` of a configuration: its draws submitted, then written. */
  function PointAt(config: int, point: int, robot: Robot, nOfParams: nat, draws: Draws,
                   eval: (Robot, Genotype) -> Option<real>): seq<Line>
  {
    PointLines(config, point, robot, BaseGenotype(draws, config, point, nOfParams),
               Directions(draws, config, point, nOfParams), eval)
  }

  /** The lines of the first `n` points of a configuration, in order. */
  function PointsLines(config: int, robot: Robot, nOfParams: nat, draws: Draws,
                       eval: (Robot, Genotype) -> Option<real>, n: nat): seq<Line>
  {
    if n == 0 then []
    else PointsLines(config, robot, nOfParams, draws, eval, n - 1) + PointAt(config, n - 1, robot, nOfParams, draws, eval)
  }

  /** The lines of one configuration: its points `0..NOFPOINTS-1` in order. */
  function ConfigLines(config: int, robot: Robot, nOfParams: nat, draws: Draws,
                       eval: (Robot, Genotype) -> Option<real>): seq<Line>
  {
    PointsLines(config, robot, nOfParams, draws, eval, NOFPOINTS)
  }

  /** `fixedControllerLandscape` builds, for `rigids` rigid voxels, the body `buildStringShape(shape, rigids)`. */
  function ControllerRobot(shape: Shape, controller: string, rigids: int): Robot {
    Robot(Encode(shape, rigids), Given(controller))
  }

  /** How many times `for (int i = 0; i < n; ++i)` runs its body. */
  function Passes(n: int): (k: nat)
    ensures k == 0 <==> n <= 0
    ensures n >= 0 ==> k == n
  {
    if n < 0 then 0 else n
  }

  /** The lines of configuration `rigids` of `fixedControllerLandscape`. */
  function ControllerConfigLines(shape: Shape, controller: string, nOfParams: Robot -> nat, draws: Draws,
                                 eval: (Robot, Genotype) -> Option<real>, rigids: int): seq<Line>
  {
    var robot := ControllerRobot(shape, controller, rigids);
    ConfigLines(rigids, robot, nOfParams(robot), draws, eval)
  }

  /** The data lines of `fixedControllerLandscape` for the rigid counts `0..n-1`. */
  function ControllerLines(shape: Shape, controller: string, nOfParams: Robot -> nat, draws: Draws,
                           eval: (Robot, Genotype) -> Option<real>, n: nat): seq<Line>
  {
    if n == 0 then []
    else ControllerLines(shape, controller, nOfParams, draws, eval, n - 1)
         + ControllerConfigLines(shape, controller, nOfParams, draws, eval, n - 1)
  }

  /** `fixedBodyLandscape` keeps the all-soft body and uses an MLP with inner-layer ratio `neurons / 2`. */
  function BodyRobot(shape: Shape, neurons: int): Robot {
    Robot(Encode(shape, 0), Mlp(neurons as real / 2.0))
  }

  /** The lines of configuration `neurons` of `fixedBodyLandscape`. */
  function BodyConfigLines(shape: Shape, nOfParams: Robot -> nat, draws: Draws,
                           eval: (Robot, Genotype) -> Option<real>, neurons: int): seq<Line>
  {
    var robot := BodyRobot(shape, neurons);
    ConfigLines(neurons, robot, nOfParams(robot), draws, eval)
  }

  /** The data lines of `fixedBodyLandscape` for the neuron counts `1..n`. */
  function BodyLines(shape: Shape, nOfParams: Robot -> nat, draws: Draws,
                     eval: (Robot, Genotype) -> Option<real>, n: nat): seq<Line>
  {
    if n == 0 then []
    else BodyLines(shape, nOfParams, draws, eval, n - 1) + BodyConfigLines(shape, nOfParams, draws, eval, n)
  }

  // ---------------------------------------------------------------------
  // The source's loops

  lemma StepIndex(trial: nat, k: nat)
    requires k < FRAGMENTATIONS
    ensures (trial * FRAGMENTATIONS + k) / FRAGMENTATIONS == trial
    ensures (trial * FRAGMENTATIONS + k) % FRAGMENTATIONS == k
  {
  }

  /** The trial and fragment loops: every step genotype is recorded and submitted, in order. */
  method SubmitPoint(robot: Robot, base: Genotype, dirs: seq<Genotype>, eval: (Robot, Genotype) -> Option<real>)
    returns (genotypes: seq<Genotype>, results: seq<Option<real>>)
    requires DirectionsFit(base, dirs)
    ensures genotypes == Fragments(base, dirs)
    ensures results == Evaluations(robot, genotypes, eval)
  {
    genotypes, results := [], [];
    for trial := 0 to NOFTRIALS
      invariant |genotypes| == |results| == trial * FRAGMENTATIONS
      invariant forall j | 0 <= j < |genotypes| ::
        genotypes[j] == Fragment(base, dirs[j / FRAGMENTATIONS], j % FRAGMENTATIONS + 1)
      invariant forall j | 0 <= j < |results| :: results[j] == eval(robot, genotypes[j])
    {
      for iter := 1 to FRAGMENTATIONS + 1
        invariant |genotypes| == |results| == trial * FRAGMENTATIONS + iter - 1
        invariant forall j | 0 <= j < |genotypes| ::
          genotypes[j] == Fragment(base, dirs[j / FRAGMENTATIONS], j % FRAGMENTATIONS + 1)
        invariant forall j | 0 <= j < |results| :: results[j] == eval(robot, genotypes[j])
      {
        var tick := iter as real / FRAGMENTATIONS as real;
        var placeholder := seq(|base|, i requires 0 <= i < |base| => base[i] + tick * dirs[trial][i]);
        StepIndex(trial, iter - 1);
        assert tick == Tick(iter);
        assert forall i | 0 <= i < |base| :: placeholder[i] == Fragment(base, dirs[trial], iter)[i];
        assert placeholder == Fragment(base, dirs[trial], iter);
        genotypes := genotypes + [placeholder];
        results := results + [eval(robot, placeholder)];
      }
    }
  }

  /**
   * The `try` block: write the base row, then one row per result; the
   * first `get()` that throws ends the block and skips the remaining rows.
   */
  method WritePoint(config: int, point: int, base: Genotype, baseResult: Option<real>,
                    genotypes: seq<Genotype>, results: seq<Option<real>>) returns (lines: seq<Line>)
    requires |genotypes| == |results|
    ensures lines == Written(config, point, base, baseResult, genotypes, results)
  {
    lines := [];
    if baseResult.None? {
      return;
    }
    lines := lines + [Data(Row(config, point, -1, base, baseResult.value))];
    var counter := 0;
    while counter < |results|
      invariant counter <= FirstFailure(results)
      invariant lines == [Data(Row(config, point, -1, base, baseResult.value))]
                         + DataLines(config, point, genotypes, results, counter)
    {
      if results[counter].None? {
        break;
      }
      lines := lines + [Data(Row(config, point, counter / FRAGMENTATIONS, genotypes[counter], results[counter].value))];
      counter := counter + 1;
    }
  }

  lemma Append3(a: seq<Line>, b: seq<Line>, c: seq<Line>)
    ensures a + b + c == a + (b + c)
  {
  }

  /** The point loop shared by both sweeps: draw, submit, then write. */
  method SweepPoints(config: int, robot: Robot, nOfParams: nat, draws: Draws,
                     eval: (Robot, Genotype) -> Option<real>) returns (lines: seq<Line>)
    ensures lines == ConfigLines(config, robot, nOfParams, draws, eval)
  {
    lines := [];
    for point := 0 to NOFPOINTS
      invariant lines == PointsLines(config, robot, nOfParams, draws, eval, point)
    {
      var base := BaseGenotype(draws, config, point, nOfParams);
      var baseResult := eval(robot, base);
      var dirs := Directions(draws, config, point, nOfParams);
      var genotypes, results := SubmitPoint(robot, base, dirs, eval);
      var written := WritePoint(config, point, base, baseResult, genotypes, results);
      lines := lines + written;
    }
  }

  /** One configuration of `fixedControllerLandscape`: build the body with `rigids` rigid voxels, then sweep. */
  method ControllerConfig(shape: Shape, controller: string, rigids: int, nOfParams: Robot -> nat, draws: Draws,
                          eval: (Robot, Genotype) -> Option<real>) returns (lines: seq<Line>)
    ensures lines == ControllerConfigLines(shape, controller, nOfParams, draws, eval, rigids)
  {
    var body := ShapeBuilder.BuildStringShape(shape, rigids);
    var robot := Robot(body, Given(controller));
    assert robot == ControllerRobot(shape, controller, rigids);
    lines := SweepPoints(rigids, robot, nOfParams(robot), draws, eval);
  }

  /** One pass of the `rigids` loop of `fixedControllerLandscape`: that configuration's rows are appended. */
  method AppendControllerConfig(shape: Shape, controller: string, rigids: nat, nOfParams: Robot -> nat,
                                draws: Draws, eval: (Robot, Genotype) -> Option<real>, file: seq<Line>)
    returns (file': seq<Line>)
    requires file == [Header] + ControllerLines(shape, controller, nOfParams, draws, eval, rigids)
    ensures file' == [Header] + ControllerLines(shape, controller, nOfParams, draws, eval, rigids + 1)
  {
    var lines := ControllerConfig(shape, controller, rigids, nOfParams, draws, eval);
    Append3([Header], ControllerLines(shape, controller, nOfParams, draws, eval, rigids), lines);
    file' := file + lines;
  }

  /** `fixedControllerLandscape`: one configuration per rigid count `0..nOfShapes-1`, with a given controller. */
  method FixedControllerLandscape(shape: Shape, nOfShapes: int, controller: string, nOfParams: Robot -> nat,
                                  draws: Draws, eval: (Robot, Genotype) -> Option<real>)
    returns (file: seq<Line>)
    ensures file == [Header] + ControllerLines(shape, controller, nOfParams, draws, eval, Passes(nOfShapes))
  {
    file := [Header];
    for rigids := 0 to Passes(nOfShapes)
      invariant file == [Header] + ControllerLines(shape, controller, nOfParams, draws, eval, rigids)
    {
      file := AppendControllerConfig(shape, controller, rigids, nOfParams, draws, eval, file);
    }
  }

  /** `fixedBodyLandscape`: the all-soft body, one configuration per MLP size `neurons = 1..10`. */
  method FixedBodyLandscape(shape: Shape, nOfParams: Robot -> nat, draws: Draws,
                            eval: (Robot, Genotype) -> Option<real>)
    returns (file: seq<Line>)
    ensures file == [Header] + BodyLines(shape, nOfParams, draws, eval, 10)
  {
    var body := ShapeBuilder.BuildStringShape(shape, 0);
    file := [Header];
    for neurons := 1 to 11
      invariant file == [Header] + BodyLines(shape, nOfParams, draws, eval, neurons - 1)
    {
      var robot := Robot(body, Mlp(neurons as real / 2.0));
      assert robot == BodyRobot(shape, neurons);
      var lines := SweepPoints(neurons, robot, nOfParams(robot), draws, eval);
      Append3([Header], BodyLines(shape, nOfParams, draws, eval, neurons - 1), lines);
      file := file + lines;
    }
  }
}
