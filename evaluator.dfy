/** The evaluator: a left fold over the whole of `aCalc` from accumulator 0,
    with the arithmetic of C#'s `int` in the default unchecked context. */
module Evaluator {
  import opened Wrappers
  import opened CSharpInt
  import opened Extractor

  /** The exceptions an `int` division or remainder raises. */
  datatype ArithError =
    | DivideByZero  // a divisor of 0
    | Overflow      // MinValue / -1 or MinValue % -1

  /** What a file's evaluation yields: the final accumulator and the number of
      slots it went through. */
  datatype SuccessData = SuccessData(result: Int32, count: nat)

  /** A `divide` or `mod` step. */
  predicate IsDivision(c: Calc)
  {
    c.op == Divide || c.op == Mod
  }

  /** One step of the fold: `acc op= num`. Addition, subtraction and
      multiplication wrap around modulo 2^32; division and remainder truncate
      toward zero and raise on a zero divisor or on MinValue by -1. */
  function Step(acc: Int32, c: Calc): (r: Result<Int32, ArithError>)
    ensures r.Err? <==> IsDivision(c) && (c.num == 0 || (acc == MinValue && c.num == -1))
    ensures r.Err? ==> r.error == if c.num == 0 then DivideByZero else Overflow
  {
    match c.op
    case Add => Ok(Wrap(acc + c.num))
    case Subtract => Ok(Wrap(acc - c.num))
    case Multiply => Ok(Wrap(acc * c.num))
    case Divide =>
      if c.num == 0 then Err(DivideByZero)
      else if acc == MinValue && c.num == -1 then Err(Overflow)
      else
        TruncDivInRange(acc, c.num);
        Ok(TruncDiv(acc, c.num))
    case Mod =>
      if c.num == 0 then Err(DivideByZero)
      else if acc == MinValue && c.num == -1 then Err(Overflow)
      else Ok(TruncRem(acc, c.num))
  }

  /** The fold from `acc` over `calcs`; the first exception ends it. */
  function Fold(acc: Int32, calcs: seq<Calc>): (r: Result<Int32, ArithError>)
    ensures r.Err? ==> exists k :: 0 <= k < |calcs| && IsDivision(calcs[k])
  {
    if |calcs| == 0 then Ok(acc)
    else
      match Fold(acc, calcs[..|calcs| - 1])
      case Err(e) => Err(e)
      case Ok(v) => Step(v, calcs[|calcs| - 1])
  }

  /** The value of `calcResult` after the loop over `calcs`. */
  function Evaluate(calcs: seq<Calc>): Result<Int32, ArithError>
  {
    Fold(0, calcs)
  }

  // ---------------------------------------------------------------------------
  // Properties of the fold
  // ---------------------------------------------------------------------------

  /** Folding over `a + b` is folding over `a`, then over `b` from where `a`
      left off. */
  lemma {:induction false} FoldAppend(acc: Int32, a: seq<Calc>, b: seq<Calc>)
    ensures Fold(acc, a + b) == match Fold(acc, a) case Err(e) => Err(e) case Ok(v) => Fold(v, b)
  {
    if |b| == 0 {
      assert a + b == a;
    } else {
      assert (a + b)[..|a + b| - 1] == a + b[..|b| - 1];
      FoldAppend(acc, a, b[..|b| - 1]);
    }
  }

  /** Once an exception is raised, later slots change nothing. */
  lemma ErrorSticks(a: seq<Calc>, b: seq<Calc>)
    requires Evaluate(a).Err?
    ensures Evaluate(a + b) == Evaluate(a)
  {
    FoldAppend(0, a, b);
  }

  /** A default slot `{add, 0}` leaves the accumulator as it is. */
  lemma {:induction false} FoldDefaults(acc: Int32, k: nat)
    ensures Fold(acc, Defaults(k)) == Ok(acc)
  {
    if k > 0 {
      assert Defaults(k)[..k - 1] == Defaults(k - 1);
      FoldDefaults(acc, k - 1);
    }
  }

  /** Default slots after the filled ones do not change the result. */
  lemma EvaluatePadded(p: seq<Calc>, k: nat)
    ensures Evaluate(p + Defaults(k)) == Evaluate(p)
  {
    FoldAppend(0, p, Defaults(k));
    match Fold(0, p)
    case Err(_) =>
    case Ok(v) => FoldDefaults(v, k);
  }

  /** Folding the slots of `aCalc` is folding the valid calculations alone. */
  lemma EvaluateSlots(folders: seq<XmlTree.Element>)
    ensures Evaluate(Slots(folders)) == Evaluate(ValidCalcs(folders))
  {
    EvaluatePadded(ValidCalcs(folders), |folders| - |ValidCalcs(folders)|);
  }

  /** The exact sum of the operands. */
  function Sum(calcs: seq<Calc>): int
  {
    if |calcs| == 0 then 0 else Sum(calcs[..|calcs| - 1]) + calcs[|calcs| - 1].num
  }

  /** Additions only: the sum of the operands, wrapped to 32 bits. */
  lemma {:induction false} AllAdds(calcs: seq<Calc>)
    requires forall i :: 0 <= i < |calcs| ==> calcs[i].op == Add
    ensures Evaluate(calcs) == Ok(Wrap(Sum(calcs)))
  {
    if |calcs| > 0 {
      var init := calcs[..|calcs| - 1];
      AllAdds(init);
      WrapAdd(Sum(init), calcs[|calcs| - 1].num);
    }
  }

  /** Multiplications only: the accumulator starts at 0 and stays 0, so the
      result is 0 and not the product of the operands. */
  lemma {:induction false} AllMultiplies(calcs: seq<Calc>)
    requires forall i :: 0 <= i < |calcs| ==> calcs[i].op == Multiply
    ensures Evaluate(calcs) == Ok(0)
  {
    if |calcs| > 0 {
      AllMultiplies(calcs[..|calcs| - 1]);
    }
  }

  /** A `divide` or `mod` by 0 anywhere makes the evaluation raise. */
  lemma DivisionByZeroFaults(calcs: seq<Calc>, k: nat)
    requires k < |calcs| && IsDivision(calcs[k]) && calcs[k].num == 0
    ensures Evaluate(calcs).Err?
  {
    var a, b := calcs[..k + 1], calcs[k + 1..];
    assert a[..k] == calcs[..k];
    assert calcs == a + b;
    if Evaluate(a).Err? {
      ErrorSticks(a, b);
    }
  }

  /** The evaluation raises only at a `divide` or `mod` whose divisor is 0 or
      -1, and DivideByZero only at a divisor of 0. */
  lemma {:induction false} FaultsHaveCause(acc: Int32, calcs: seq<Calc>)
    requires Fold(acc, calcs).Err?
    ensures exists k :: 0 <= k < |calcs| && IsDivision(calcs[k]) && (calcs[k].num == 0 || calcs[k].num == -1)
    ensures Fold(acc, calcs).error == DivideByZero
            ==> exists k :: 0 <= k < |calcs| && IsDivision(calcs[k]) && calcs[k].num == 0
  {
    var n := |calcs|;
    var init := calcs[..n - 1];
    if Fold(acc, init).Err? {
      FaultsHaveCause(acc, init);
      var k :| 0 <= k < |init| && IsDivision(init[k]) && (init[k].num == 0 || init[k].num == -1);
      assert calcs[k] == init[k];
      if Fold(acc, calcs).error == DivideByZero {
        var k' :| 0 <= k' < |init| && IsDivision(init[k']) && init[k'].num == 0;
        assert calcs[k'] == init[k'];
      }
    } else {
      assert IsDivision(calcs[n - 1]) && (calcs[n - 1].num == 0 || calcs[n - 1].num == -1);
    }
  }

  // ---------------------------------------------------------------------------
  // The loop over aCalc as ProcXml in xmlCalc's Program.cs performs it
  // ---------------------------------------------------------------------------

  /** Runs through every slot of `aCalc` in index order, updating the
      accumulator in place and counting each slot; an exception ends the loop
      with no result. */
  method EvaluateArray(aCalc: array<Calc>) returns (r: Result<SuccessData, ArithError>)
    ensures r.Ok? <==> Evaluate(aCalc[..]).Ok?
    ensures r.Ok? ==> r.value == SuccessData(Evaluate(aCalc[..]).value, aCalc.Length)
    ensures r.Err? ==> r.error == Evaluate(aCalc[..]).error
  {
    var calcResult: Int32, calcCount: nat := 0, 0;
    for k := 0 to aCalc.Length
      invariant Evaluate(aCalc[..k]) == Ok(calcResult)
      invariant calcCount == k
    {
      var c := aCalc[k];
      assert aCalc[..k + 1][..k] == aCalc[..k];
      assert aCalc[..] == aCalc[..k + 1] + aCalc[k + 1..];
      match c.op {
        case Add =>
          calcResult := Wrap(calcResult + c.num);
        case Subtract =>
          calcResult := Wrap(calcResult - c.num);
        case Multiply =>
          calcResult := Wrap(calcResult * c.num);
        case Divide =>
          if c.num == 0 {
            ErrorSticks(aCalc[..k + 1], aCalc[k + 1..]);
            return Err(DivideByZero);
          } else if calcResult == MinValue && c.num == -1 {
            ErrorSticks(aCalc[..k + 1], aCalc[k + 1..]);
            return Err(Overflow);
          }
          TruncDivInRange(calcResult, c.num);
          calcResult := TruncDiv(calcResult, c.num);
        case Mod =>
          if c.num == 0 {
            ErrorSticks(aCalc[..k + 1], aCalc[k + 1..]);
            return Err(DivideByZero);
          } else if calcResult == MinValue && c.num == -1 {
            ErrorSticks(aCalc[..k + 1], aCalc[k + 1..]);
            return Err(Overflow);
          }
          calcResult := TruncRem(calcResult, c.num);
      }
      calcCount := calcCount + 1;
    }
    assert aCalc[..aCalc.Length] == aCalc[..];
    return Ok(SuccessData(calcResult, calcCount));
  }
}
