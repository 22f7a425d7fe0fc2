/**
 * The parameter plumbing of `Mappers`: `argmax`, the brain consistency
 * checks, and the two ways a flat genotype becomes brain parameters:
 * heterogeneous (each brain gets its own consecutive slice) and homogeneous
 * (every brain gets the whole vector).
 *
 * A brain is an abstract value: its input and output sizes, and the
 * parameter vector of its shallowest `NumericalParametrized` part (`None`
 * when it has none). `setParams` is modelled as replacing that vector.
 */
module Mappers {
  import opened Results

  /** The exceptions thrown by the modelled code, with what their messages report. */
  datatype Error =
    | EmptyArray                                             // argmax of no values
    | NotParametrized(nOfBrains: nat)                        // checkType
    | NoParametrizedPart                                     // Optional.orElseThrow on a brain with no such part
    | InputSizesDiffer(inBrains: nat, inSizes: seq<int>)     // checkIOSizeConsistency
    | OutputSizesDiffer(outBrains: nat, outSizes: seq<int>)  // checkIOSizeConsistency
    | ParamSizesDiffer(paramBrains: nat, paramSizes: seq<int>) // checkNumericalParametrizedSizeConsistency
    | WrongNumberOfParams(expected: int, found: int)         // the mapping functions
    | VoxelSizesDiffer(voxelInSizes: seq<int>, voxelOutSizes: seq<int>) // ndsToFixedBodyHomoDistributedVSR
    | NegativeCopies(copies: int)                            // Collections.nCopies with a negative count

  datatype Brain = Brain(nOfInputs: int, nOfOutputs: int, params: Option<seq<real>>)

  // ---------------------------------------------------------------------
  // argmax

  /** `i` is the lowest index holding the maximum of `s`. */
  ghost predicate IsFirstMax(s: seq<real>, i: int) {
    && 0 <= i < |s|
    && (forall j | 0 <= j < |s| :: s[j] <= s[i])
    && (forall j | 0 <= j < i :: s[j] < s[i])
  }

  /** At most one index is the lowest maximal one. */
  lemma FirstMaxUnique(s: seq<real>, i: int, k: int)
    requires IsFirstMax(s, i) && IsFirstMax(s, k)
    ensures i == k
  {
    assert s[k] <= s[i] && s[i] <= s[k];
  }

  /** The index the loop of `argmax` settles on: a later value replaces the candidate only when strictly greater. */
  function FirstMax(s: seq<real>): (i: nat)
    requires |s| > 0
    ensures IsFirstMax(s, i)
  {
    if |s| == 1 then 0
    else
      var i := FirstMax(s[..|s| - 1]);
      if s[|s| - 1] > s[i] then |s| - 1 else i
  }

  method Argmax(values: array<real>) returns (r: Result<nat, Error>)
    ensures values.Length == 0 ==> r == Failure(EmptyArray)
    ensures values.Length > 0 ==> r == Success(FirstMax(values[..]))
    ensures r.Success? ==> IsFirstMax(values[..], r.value)
  {
    if values.Length == 0 {
      return Failure(EmptyArray);
    }
    var i := 0;
    for j := 1 to values.Length
      invariant i == FirstMax(values[..j])
    {
      assert values[..j + 1][..j] == values[..j];
      if values[j] > values[i] {
        i := j;
      }
    }
    assert values[..values.Length] == values[..];
    return Success(i);
  }

  // ---------------------------------------------------------------------
  // Distinct sizes

  /** `stream().distinct().toList()`: the first occurrence of each value, in order. */
  function Distinct(xs: seq<int>): (ds: seq<int>)
    ensures forall i | 0 <= i < |xs| :: xs[i] in ds
    ensures forall i | 0 <= i < |ds| :: ds[i] in xs
    ensures forall i, j | 0 <= i < j < |ds| :: ds[i] != ds[j]
  {
    if xs == [] then []
    else
      var rest := Distinct(xs[..|xs| - 1]);
      assert forall i | 0 <= i < |xs| - 1 :: xs[..|xs| - 1][i] == xs[i];
      if xs[|xs| - 1] in rest then rest else rest + [xs[|xs| - 1]]
  }

  /** The index of the first occurrence of `v` in `xs`. */
  function IndexOf(xs: seq<int>, v: int): (i: nat)
    requires v in xs
    ensures i < |xs| && xs[i] == v
    ensures forall j | 0 <= j < i :: xs[j] != v
  {
    if xs[0] == v then 0 else 1 + IndexOf(xs[1..], v)
  }

  /** A value of the list without its last element is first found at the same place in the whole list. */
  lemma IndexOfInit(xs: seq<int>, v: int)
    requires |xs| > 0 && v in xs[..|xs| - 1]
    ensures IndexOf(xs, v) == IndexOf(xs[..|xs| - 1], v)
  {
    var a := IndexOf(xs[..|xs| - 1], v);
    var b := IndexOf(xs, v);
    assert xs[a] == v;
    assert b <= a;
    assert xs[..|xs| - 1][b] == v;
  }

  /** The distinct values come in the order of their first occurrences. */
  lemma {:induction false} DistinctInOrder(xs: seq<int>)
    ensures forall i, j | 0 <= i < j < |Distinct(xs)| :: IndexOf(xs, Distinct(xs)[i]) < IndexOf(xs, Distinct(xs)[j])
  {
    if xs != [] {
      var init := xs[..|xs| - 1];
      var last := xs[|xs| - 1];
      var rest := Distinct(init);
      var ds := Distinct(xs);
      DistinctInOrder(init);
      assert forall i | 0 <= i < |init| :: init[i] == xs[i];
      forall i | 0 <= i < |rest| ensures IndexOf(xs, rest[i]) == IndexOf(init, rest[i]) < |init| {
        IndexOfInit(xs, rest[i]);
      }
      if last !in rest {
        assert last !in init;
        assert ds == rest + [last];
        assert IndexOf(xs, last) == |xs| - 1;
      }
    }
  }

  /** A list of one repeated value has that value as its only distinct one. */
  lemma {:induction false} DistinctOfConstant(xs: seq<int>, v: int)
    requires forall i | 0 <= i < |xs| :: xs[i] == v
    ensures Distinct(xs) == if xs == [] then [] else [v]
  {
    if xs != [] {
      var init := xs[..|xs| - 1];
      assert forall i | 0 <= i < |init| :: init[i] == xs[i];
      DistinctOfConstant(init, v);
    }
  }

  /** All values are equal to `v`, and there is at least one. */
  ghost predicate AllEqual(xs: seq<int>, v: int) {
    |xs| > 0 && forall i | 0 <= i < |xs| :: xs[i] == v
  }

  /** Exactly one distinct size: a non-empty list of one repeated value. */
  lemma OneDistinct(xs: seq<int>)
    ensures |Distinct(xs)| == 1 <==> |xs| > 0 && AllEqual(xs, xs[0])
    ensures |Distinct(xs)| == 1 ==> Distinct(xs) == [xs[0]]
  {
    if |xs| > 0 && AllEqual(xs, xs[0]) {
      DistinctOfConstant(xs, xs[0]);
    }
    if |Distinct(xs)| == 1 {
      SingleDistinct(xs);
    }
  }

  /** One distinct value: every element is it. */
  lemma SingleDistinct(xs: seq<int>)
    requires |Distinct(xs)| == 1
    ensures |xs| > 0 && AllEqual(xs, Distinct(xs)[0])
  {
    var ds := Distinct(xs);
    assert ds[0] in xs;
    forall i | 0 <= i < |xs| ensures xs[i] == ds[0] {
      assert xs[i] in ds;
    }
  }

  // ---------------------------------------------------------------------
  // Brain checks

  function InputSizes(brains: seq<Brain>): (s: seq<int>)
    ensures |s| == |brains|
  {
    seq(|brains|, k requires 0 <= k < |brains| => brains[k].nOfInputs)
  }

  function OutputSizes(brains: seq<Brain>): (s: seq<int>)
    ensures |s| == |brains|
  {
    seq(|brains|, k requires 0 <= k < |brains| => brains[k].nOfOutputs)
  }

  /** At least one brain, and all brains have the input and output sizes of the first. */
  ghost predicate SameIO(brains: seq<Brain>) {
    && |brains| > 0
    && forall k | 0 <= k < |brains| ::
         brains[k].nOfInputs == brains[0].nOfInputs && brains[k].nOfOutputs == brains[0].nOfOutputs
  }

  /** Whether `xs` has exactly one distinct value, the test every size check makes. */
  function OneSize(xs: seq<int>): (b: bool)
    ensures b <==> |xs| > 0 && AllEqual(xs, xs[0])
  {
    OneDistinct(xs);
    |Distinct(xs)| == 1
  }

  lemma SameIOSizes(brains: seq<Brain>)
    ensures SameIO(brains) <==> OneSize(InputSizes(brains)) && OneSize(OutputSizes(brains))
  {
    if OneSize(InputSizes(brains)) && OneSize(OutputSizes(brains)) {
      assert forall k | 0 <= k < |brains| :: InputSizes(brains)[k] == brains[k].nOfInputs;
      assert forall k | 0 <= k < |brains| :: OutputSizes(brains)[k] == brains[k].nOfOutputs;
    }
  }

  /** `checkIOSizeConsistency`: exactly one distinct input size, then exactly one distinct output size. */
  function CheckIOSizeConsistency(brains: seq<Brain>): (r: Outcome<Error>)
    ensures r == Pass <==> SameIO(brains)
  {
    SameIOSizes(brains);
    if !OneSize(InputSizes(brains)) then Fail(InputSizesDiffer(|brains|, Distinct(InputSizes(brains))))
    else if !OneSize(OutputSizes(brains)) then Fail(OutputSizesDiffer(|brains|, Distinct(OutputSizes(brains))))
    else Pass
  }

  predicate AllParametrized(brains: seq<Brain>) {
    forall k | 0 <= k < |brains| :: brains[k].params.Some?
  }

  /** `checkType(target, NumericalParametrized.class)`: throws at the first brain without such a part. */
  method CheckType(brains: seq<Brain>) returns (r: Outcome<Error>)
    ensures r == Pass <==> AllParametrized(brains)
    ensures r.Fail? ==> r.error == NotParametrized(|brains|)
  {
    for k := 0 to |brains|
      invariant forall j | 0 <= j < k :: brains[j].params.Some?
    {
      if brains[k].params.None? {
        return Fail(NotParametrized(|brains|));
      }
    }
    return Pass;
  }

  /** The parameter-vector lengths of the brains, in order. */
  function Sizes(brains: seq<Brain>): (s: seq<nat>)
    requires AllParametrized(brains)
    ensures |s| == |brains|
    ensures forall k | 0 <= k < |brains| :: s[k] == |brains[k].params.value|
  {
    seq(|brains|, k requires 0 <= k < |brains| => |brains[k].params.value|)
  }

  /** All brains have a parameter vector, there is at least one, and all vectors have the same length. */
  ghost predicate SameParamSize(brains: seq<Brain>) {
    && |brains| > 0 && AllParametrized(brains)
    && forall k | 0 <= k < |brains| :: |brains[k].params.value| == |brains[0].params.value|
  }

  /**
   * `checkNumericalParametrizedSizeConsistency`: every brain's parameter
   * vector is looked up (absent: `orElseThrow`), then exactly one distinct
   * length is required.
   */
  function CheckNumericalParametrizedSizeConsistency(brains: seq<Brain>): (r: Outcome<Error>)
    ensures r == Pass <==> SameParamSize(brains)
    ensures !AllParametrized(brains) ==> r == Fail(NoParametrizedPart)
  {
    if !AllParametrized(brains) then Fail(NoParametrizedPart)
    else if !OneSize(Sizes(brains)) then Fail(ParamSizesDiffer(|brains|, Distinct(Sizes(brains))))
    else Pass
  }

  // ---------------------------------------------------------------------
  // Heterogeneous brains: one slice per brain

  function Sum(xs: seq<nat>): nat {
    if xs == [] then 0 else Sum(xs[..|xs| - 1]) + xs[|xs| - 1]
  }

  lemma SumStep(xs: seq<nat>, k: nat)
    requires k < |xs|
    ensures Sum(xs[..k + 1]) == Sum(xs[..k]) + xs[k]
  {
    assert xs[..k + 1][..k] == xs[..k];
  }

  lemma {:induction false} SumPrefixBound(xs: seq<nat>, k: nat)
    requires k <= |xs|
    ensures Sum(xs[..k]) <= Sum(xs)
    decreases |xs| - k
  {
    if k < |xs| {
      SumStep(xs, k);
      SumPrefixBound(xs, k + 1);
    } else {
      assert xs[..k] == xs;
    }
  }

  /** Where the slice of brain `k` starts: the sum of the earlier sizes. */
  function Offset(sizes: seq<nat>, k: nat): (c: nat)
    requires k <= |sizes|
    ensures c <= Sum(sizes)
    ensures k < |sizes| ==> c + sizes[k] <= Sum(sizes)
  {
    SumPrefixBound(sizes, k);
    if k < |sizes| then
      SumStep(sizes, k);
      SumPrefixBound(sizes, k + 1);
      Sum(sizes[..k])
    else Sum(sizes[..k])
  }

  /** Consecutive slices: brain `k + 1`'s slice starts where brain `k`'s ends. */
  lemma OffsetStep(sizes: seq<nat>, k: nat)
    requires k < |sizes|
    ensures Offset(sizes, k + 1) == Offset(sizes, k) + sizes[k]
  {
    SumStep(sizes, k);
  }

  /** `values.subList(c, c + brainSize)` for brain `k`. */
  function Slice(values: seq<real>, sizes: seq<nat>, k: nat): (p: seq<real>)
    requires k < |sizes| && |values| == Sum(sizes)
    ensures |p| == sizes[k]
  {
    values[Offset(sizes, k)..Offset(sizes, k) + sizes[k]]
  }

  /** The brains after the supplier's loop: brain `k` holds slice `k`, nothing else changes. */
  function HeteroAssigned(brains: seq<Brain>, values: seq<real>): (bs: seq<Brain>)
    requires AllParametrized(brains) && |values| == Sum(Sizes(brains))
    ensures |bs| == |brains| && AllParametrized(bs)
  {
    seq(|brains|, k requires 0 <= k < |brains| => brains[k].(params := Some(Slice(values, Sizes(brains), k))))
  }

  /** Each brain keeps its input and output sizes and the length of its parameter vector. */
  lemma HeteroKeepsShape(brains: seq<Brain>, values: seq<real>)
    requires AllParametrized(brains) && |values| == Sum(Sizes(brains))
    ensures Sizes(HeteroAssigned(brains, values)) == Sizes(brains)
    ensures InputSizes(HeteroAssigned(brains, values)) == InputSizes(brains)
    ensures OutputSizes(HeteroAssigned(brains, values)) == OutputSizes(brains)
  {
  }

  /**
   * `dsToNpHeteroBrains` applied to `values` and its supplier invoked:
   * `checkType` when the mapper is built, the length check when it is
   * applied, then the running-offset loop that hands out the slices.
   */
  method DsToNpHeteroBrains(target: seq<Brain>, values: seq<real>) returns (r: Result<seq<Brain>, Error>)
    ensures !AllParametrized(target) ==> r == Failure(NotParametrized(|target|))
    ensures AllParametrized(target) && |values| != Sum(Sizes(target)) ==>
      r == Failure(WrongNumberOfParams(Sum(Sizes(target)), |values|))
    ensures AllParametrized(target) && |values| == Sum(Sizes(target)) ==>
      r == Success(HeteroAssigned(target, values))
  {
    var checked := CheckType(target);
    if checked.Fail? {
      return Failure(checked.error);
    }
    var overallBrainSize := Sum(Sizes(target));
    if |values| != overallBrainSize {
      return Failure(WrongNumberOfParams(overallBrainSize, |values|));
    }
    var t := AssignSlices(target, values);
    return Success(t);
  }

  /** The supplier's loop: a running offset `c` hands each brain the next `brainSize` values. */
  method AssignSlices(target: seq<Brain>, values: seq<real>) returns (t: seq<Brain>)
    requires AllParametrized(target) && |values| == Sum(Sizes(target))
    ensures t == HeteroAssigned(target, values)
  {
    var brainSizes := Sizes(target);
    t := [];
    var c := 0;
    for k := 0 to |target|
      invariant c == Offset(brainSizes, k)
      invariant |t| == k
      invariant forall j | 0 <= j < k :: t[j] == target[j].(params := Some(Slice(values, brainSizes, j)))
    {
      var brainSize := |target[k].params.value|;
      OffsetStep(brainSizes, k);
      ghost var slice := Slice(values, brainSizes, k);
      assert values[c..c + brainSize] == slice;
      ghost var done := t;
      t := t + [target[k].(params := Some(values[c..c + brainSize]))];
      assert forall j | 0 <= j < k :: t[j] == done[j];
      c := c + brainSize;
    }
    ghost var expected := HeteroAssigned(target, values);
    assert forall j | 0 <= j < |target| :: t[j] == expected[j];
  }

  /** The parameter vectors of the brains laid end to end. */
  function ParamsConcat(brains: seq<Brain>): seq<real>
    requires AllParametrized(brains)
  {
    if brains == [] then [] else ParamsConcat(brains[..|brains| - 1]) + brains[|brains| - 1].params.value
  }

  lemma PrefixSplit(values: seq<real>, a: nat, b: nat)
    requires a <= b <= |values|
    ensures values[..b] == values[..a] + values[a..b]
  {
  }

  lemma ParamsConcatStep(bs: seq<Brain>, k: nat)
    requires AllParametrized(bs) && 0 < k <= |bs|
    ensures ParamsConcat(bs[..k]) == ParamsConcat(bs[..k - 1]) + bs[k - 1].params.value
  {
    assert bs[..k][..k - 1] == bs[..k - 1];
  }

  lemma {:induction false} ParamsConcatPrefix(brains: seq<Brain>, values: seq<real>, k: nat)
    requires AllParametrized(brains) && |values| == Sum(Sizes(brains)) && k <= |brains|
    ensures ParamsConcat(HeteroAssigned(brains, values)[..k]) == values[..Offset(Sizes(brains), k)]
  {
    var bs := HeteroAssigned(brains, values);
    var sizes := Sizes(brains);
    if k == 0 {
      assert Offset(sizes, 0) == Sum(sizes[..0]) == 0 by { assert sizes[..0] == []; }
    } else {
      ParamsConcatPrefix(brains, values, k - 1);
      ParamsConcatStep(bs, k);
      OffsetStep(sizes, k - 1);
      var a, b := Offset(sizes, k - 1), Offset(sizes, k);
      assert bs[k - 1].params.value == Slice(values, sizes, k - 1);
      PrefixSplit(values, a, b);
    }
  }

  /** The slices are consecutive and cover the genotype: laid end to end they give `values` back. */
  lemma HeteroSlicesCover(brains: seq<Brain>, values: seq<real>)
    requires AllParametrized(brains) && |values| == Sum(Sizes(brains))
    ensures ParamsConcat(HeteroAssigned(brains, values)) == values
  {
    var bs := HeteroAssigned(brains, values);
    ParamsConcatPrefix(brains, values, |brains|);
    assert bs[..|brains|] == bs;
    assert Sizes(brains)[..|brains|] == Sizes(brains);
  }

  lemma {:induction false} ParamsConcatSize(brains: seq<Brain>)
    requires AllParametrized(brains)
    ensures |ParamsConcat(brains)| == Sum(Sizes(brains))
  {
    if brains != [] {
      var init := brains[..|brains| - 1];
      ParamsConcatSize(init);
      assert Sizes(brains)[..|brains| - 1] == Sizes(init);
    }
  }

  lemma {:induction false} ParamsConcatSlices(brains: seq<Brain>, k: nat)
    requires AllParametrized(brains) && k <= |brains|
    ensures |ParamsConcat(brains)| == Sum(Sizes(brains))
    ensures ParamsConcat(brains)[..Offset(Sizes(brains), k)] == ParamsConcat(brains[..k])
    decreases |brains| - k
  {
    ParamsConcatSize(brains);
    var sizes := Sizes(brains);
    if k == |brains| {
      assert brains[..k] == brains;
      assert sizes[..k] == sizes;
    } else {
      ParamsConcatSlices(brains, k + 1);
      OffsetStep(sizes, k);
      var pre := brains[..k + 1];
      assert pre[..k] == brains[..k];
      assert AllParametrized(pre);
      ParamsConcatSize(brains[..k]);
      assert Sizes(brains[..k]) == sizes[..k];
      var whole := ParamsConcat(brains);
      assert whole[..Offset(sizes, k + 1)] == ParamsConcat(brains[..k]) + brains[k].params.value;
      assert whole[..Offset(sizes, k)] == whole[..Offset(sizes, k + 1)][..Offset(sizes, k)];
    }
  }

  /** Brain `k`'s slice of the concatenated parameters is brain `k`'s own vector. */
  lemma SliceOfConcat(brains: seq<Brain>, k: nat)
    requires AllParametrized(brains) && k < |brains|
    ensures |ParamsConcat(brains)| == Sum(Sizes(brains))
    ensures Slice(ParamsConcat(brains), Sizes(brains), k) == brains[k].params.value
  {
    var sizes := Sizes(brains);
    var whole := ParamsConcat(brains);
    ParamsConcatSlices(brains, k + 1);
    OffsetStep(sizes, k);
    ParamsConcatSize(brains[..k]);
    var pre := brains[..k + 1];
    assert pre[..k] == brains[..k];
    assert Sizes(brains[..k]) == sizes[..k];
    var a, b := Offset(sizes, k), Offset(sizes, k + 1);
    assert whole[..b] == ParamsConcat(brains[..k]) + brains[k].params.value;
    assert whole[a..b] == whole[..b][a..];
  }

  /** The inverse direction: the concatenated parameters of the brains assign every brain its own vector back. */
  lemma HeteroRoundTrip(brains: seq<Brain>)
    requires AllParametrized(brains)
    ensures |ParamsConcat(brains)| == Sum(Sizes(brains))
    ensures HeteroAssigned(brains, ParamsConcat(brains)) == brains
  {
    ParamsConcatSize(brains);
    var bs := HeteroAssigned(brains, ParamsConcat(brains));
    forall k | 0 <= k < |brains| ensures bs[k] == brains[k] {
      SliceOfConcat(brains, k);
    }
  }

  /** The hetero mapper's example genotype: `nCopies(overallBrainSize, 0d)`, once `checkType` has passed. */
  function HeteroExample(target: seq<Brain>): (r: Result<seq<real>, Error>)
    ensures !AllParametrized(target) <==> r == Failure(NotParametrized(|target|))
    ensures r.Success? ==> |r.value| == Sum(Sizes(target)) && forall i | 0 <= i < |r.value| :: r.value[i] == 0.0
  {
    if !AllParametrized(target) then Failure(NotParametrized(|target|))
    else Success(seq(Sum(Sizes(target)), _ => 0.0))
  }

  // ---------------------------------------------------------------------
  // Homogeneous brains: every brain gets the whole vector

  /**
   * The checks `dsToNpHomoBrains` makes when it is built, in order, and the
   * common parameter size of the first brain.
   */
  function HomoBrainSize(target: seq<Brain>): (r: Result<nat, Error>)
    ensures r.Success? <==> SameIO(target) && SameParamSize(target)
    ensures r.Success? ==> forall k | 0 <= k < |target| :: |target[k].params.value| == r.value
    ensures !AllParametrized(target) ==> r == Failure(NotParametrized(|target|))
  {
    if !AllParametrized(target) then Failure(NotParametrized(|target|))
    else match CheckIOSizeConsistency(target)
      case Fail(e) => Failure(e)
      case Pass =>
        match CheckNumericalParametrizedSizeConsistency(target)
        case Fail(e) => Failure(e)
        case Pass => Success(|target[0].params.value|)
  }

  /** `dsToNpHomoBrains` applied to `values` and its supplier invoked. */
  function DsToNpHomoBrains(target: seq<Brain>, values: seq<real>): (r: Result<seq<Brain>, Error>)
    ensures HomoBrainSize(target).Failure? ==> r == Failure(HomoBrainSize(target).error)
    ensures HomoBrainSize(target).Success? && |values| != HomoBrainSize(target).value ==>
      r == Failure(WrongNumberOfParams(HomoBrainSize(target).value, |values|))
    ensures r.Success? <==> HomoBrainSize(target).Success? && |values| == HomoBrainSize(target).value
    ensures r.Success? ==> |r.value| == |target| && forall k | 0 <= k < |target| ::
      && r.value[k].params == Some(values)
      && r.value[k].nOfInputs == target[k].nOfInputs && r.value[k].nOfOutputs == target[k].nOfOutputs
  {
    match HomoBrainSize(target)
    case Failure(e) => Failure(e)
    case Success(brainSize) =>
      if |values| != brainSize then Failure(WrongNumberOfParams(brainSize, |values|))
      else Success(seq(|target|, k requires 0 <= k < |target| => target[k].(params := Some(values))))
  }

  /** The homo mapper's example genotype: `nCopies(brainSize, 0d)`, once the build-time checks have passed. */
  function HomoExample(target: seq<Brain>): (r: Result<seq<real>, Error>)
    ensures r.Success? <==> HomoBrainSize(target).Success?
    ensures r.Success? ==> |r.value| == HomoBrainSize(target).value && forall i | 0 <= i < |r.value| :: r.value[i] == 0.0
  {
    match HomoBrainSize(target)
    case Failure(e) => Failure(e)
    case Success(brainSize) => Success(seq(brainSize, _ => 0.0))
  }

  /** The example genotype is accepted by the mapping, and every brain then holds all zeros. */
  lemma HomoExampleAccepted(target: seq<Brain>)
    requires HomoExample(target).Success?
    ensures DsToNpHomoBrains(target, HomoExample(target).value).Success?
  {
  }

  /** When all brains already share one vector, handing them that vector changes nothing. */
  lemma HomoRoundTrip(target: seq<Brain>)
    requires SameIO(target) && AllParametrized(target)
    requires forall k | 0 <= k < |target| :: target[k].params == target[0].params
    ensures DsToNpHomoBrains(target, target[0].params.value) == Success(target)
  {
    var r := DsToNpHomoBrains(target, target[0].params.value);
    assert SameParamSize(target);
    assert r.Success?;
    assert forall k | 0 <= k < |target| :: r.value[k] == target[k];
    assert r.value == target;
  }

  // ---------------------------------------------------------------------
  // ndsToFixedBodyHomoDistributedVSR

  /** A voxel of the fixed body: whether it is NONE, and the input and output sizes of its brain. */
  datatype VoxelSizes = VoxelSizes(isNone: bool, nOfInputs: int, nOfOutputs: int)

  /** The entries whose type is not NONE, in order. */
  function Present(voxels: seq<VoxelSizes>): (ps: seq<VoxelSizes>)
    ensures forall i | 0 <= i < |ps| :: !ps[i].isNone && ps[i] in voxels
    ensures forall k | 0 <= k < |voxels| :: !voxels[k].isNone ==> voxels[k] in ps
  {
    if voxels == [] then []
    else
      var init := Present(voxels[..|voxels| - 1]);
      assert forall k | 0 <= k < |voxels| - 1 :: voxels[..|voxels| - 1][k] == voxels[k];
      if voxels[|voxels| - 1].isNone then init else init + [voxels[|voxels| - 1]]
  }

  /** There is a voxel that is not NONE, and all such voxels have the same input and output sizes. */
  ghost predicate VoxelsAgree(voxels: seq<VoxelSizes>) {
    && (exists k | 0 <= k < |voxels| :: !voxels[k].isNone)
    && forall k, l | 0 <= k < |voxels| && 0 <= l < |voxels| && !voxels[k].isNone && !voxels[l].isNone ::
         voxels[k].nOfInputs == voxels[l].nOfInputs && voxels[k].nOfOutputs == voxels[l].nOfOutputs
  }

  /** The consistency check of `ndsToFixedBodyHomoDistributedVSR`, giving the one input and output size. */
  function FixedBodyVoxelSizes(voxels: seq<VoxelSizes>): (r: Result<(int, int), Error>)
    ensures r.Success? <==> VoxelsAgree(voxels)
    ensures r.Success? ==> forall k | 0 <= k < |voxels| && !voxels[k].isNone ::
      voxels[k].nOfInputs == r.value.0 && voxels[k].nOfOutputs == r.value.1
  {
    var ps := Present(voxels);
    var ins := Distinct(seq(|ps|, i requires 0 <= i < |ps| => ps[i].nOfInputs));
    var outs := Distinct(seq(|ps|, i requires 0 <= i < |ps| => ps[i].nOfOutputs));
    PresentSizes(voxels);
    if |ins| != 1 || |outs| != 1 then Failure(VoxelSizesDiffer(ins, outs))
    else Success((ins[0], outs[0]))
  }

  lemma PresentSizes(voxels: seq<VoxelSizes>)
    ensures var ps := Present(voxels);
      var ins := seq(|ps|, i requires 0 <= i < |ps| => ps[i].nOfInputs);
      var outs := seq(|ps|, i requires 0 <= i < |ps| => ps[i].nOfOutputs);
      && (|Distinct(ins)| == 1 && |Distinct(outs)| == 1 <==> VoxelsAgree(voxels))
      && (|Distinct(ins)| == 1 && |Distinct(outs)| == 1 ==>
            forall k | 0 <= k < |voxels| && !voxels[k].isNone ::
              voxels[k].nOfInputs == Distinct(ins)[0] && voxels[k].nOfOutputs == Distinct(outs)[0])
  {
    var ps := Present(voxels);
    var ins := seq(|ps|, i requires 0 <= i < |ps| => ps[i].nOfInputs);
    var outs := seq(|ps|, i requires 0 <= i < |ps| => ps[i].nOfOutputs);
    OneDistinct(ins);
    OneDistinct(outs);
    if |Distinct(ins)| == 1 && |Distinct(outs)| == 1 {
      forall k | 0 <= k < |voxels| && !voxels[k].isNone
        ensures voxels[k].nOfInputs == ins[0] && voxels[k].nOfOutputs == outs[0]
      {
        var i :| 0 <= i < |ps| && ps[i] == voxels[k];
        assert ins[i] == voxels[k].nOfInputs && outs[i] == voxels[k].nOfOutputs;
      }
      var v0 :| v0 in voxels && v0 == ps[0];
      var k0 :| 0 <= k0 < |voxels| && voxels[k0] == ps[0];
      assert !voxels[k0].isNone;
    }
    if VoxelsAgree(voxels) {
      var k0 :| 0 <= k0 < |voxels| && !voxels[k0].isNone;
      assert voxels[k0] in ps;
      forall i | 0 <= i < |ps| ensures ins[i] == ins[0] && outs[i] == outs[0] {
        var a :| 0 <= a < |voxels| && voxels[a] == ps[i];
        var b :| 0 <= b < |voxels| && voxels[b] == ps[0];
      }
    }
  }
}
