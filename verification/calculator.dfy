/** The factor-picker calculator of one player: pick two factors from the
    number grid, choose an operation, and submit the result to the game. */
module Calculator {
  import opened Wrappers

  /** The number grid: the factors a player can pick. */
  const Nums: seq<int> := [1, 2, 3, 4, 5, 6, 7, 8, 9]

  /** One entry of the operation table. */
  datatype Operation = Operation(symbol: char, name: string)

  const Ops: seq<Operation> := [Operation('×', "Multiply"), Operation('+', "Add")]

  /** A position in the operation table. */
  type OpIndex = i: int | 0 <= i < 2

  /** What the table's entry at `i` computes. */
  function Apply(i: OpIndex, a: int, b: int): int
  {
    if i == 0 then a * b else a + b
  }

  datatype Calc = Calc(factorA: Option<int>, factorB: Option<int>, opIdx: OpIndex)

  /** Both factors unset, multiplication selected: no result yet. */
  function Initial(): (r: Calc)
    ensures r.factorA.None? && r.factorB.None?
    ensures Result(r).None? && Ops[r.opIdx].symbol == '×'
  {
    Calc(None, None, 0)
  }

  /** The result is shown only once both factors are picked. */
  function Result(c: Calc): (r: Option<int>)
    ensures r.Some? <==> c.factorA.Some? && c.factorB.Some?
    ensures r.Some? && Ops[c.opIdx].symbol == '×' ==> r.value == c.factorA.value * c.factorB.value
    ensures r.Some? && Ops[c.opIdx].symbol == '+' ==> r.value == c.factorA.value + c.factorB.value
  {
    if c.factorA.Some? && c.factorB.Some? then Some(Apply(c.opIdx, c.factorA.value, c.factorB.value))
    else None
  }

  predicate CanSubmit(c: Calc, disabled: bool, locked: bool)
  {
    !disabled && !locked && Result(c).Some?
  }

  /** Submitting needs an unlocked, enabled calculator with both factors. */
  lemma CanSubmitExactly(c: Calc, disabled: bool, locked: bool)
    ensures CanSubmit(c, disabled, locked) <==>
      !disabled && !locked && c.factorA.Some? && c.factorB.Some?
  {
  }

  datatype Factor = FactorA | FactorB

  /** The number grids, the operation buttons and the submit button are not
      rendered before the first game; otherwise the grids and the operation
      buttons work only while the calculator is enabled and unlocked. */
  predicate Frozen(idle: bool, disabled: bool, locked: bool)
  {
    idle || disabled || locked
  }

  /** Picking a number for one factor; ignored while frozen. */
  function Pick(c: Calc, which: Factor, val: int, idle: bool, disabled: bool, locked: bool)
    : (r: Calc)
    ensures Frozen(idle, disabled, locked) ==> r == c
    ensures !Frozen(idle, disabled, locked) && which == FactorA ==> r == c.(factorA := Some(val))
    ensures !Frozen(idle, disabled, locked) && which == FactorB ==> r == c.(factorB := Some(val))
    ensures r.opIdx == c.opIdx
  {
    if Frozen(idle, disabled, locked) then c
    else match which
      case FactorA => c.(factorA := Some(val))
      case FactorB => c.(factorB := Some(val))
  }

  /** A submission the game receives: the player's side and the value. */
  datatype Submission = Submission(side: string, value: int)

  datatype SubmitResult = SubmitResult(state: Calc, sent: Option<Submission>)

  /** Submitting sends the result once both factors are picked on an
      enabled, unlocked calculator outside the idle screen. */
  function Submit(c: Calc, side: string, idle: bool, disabled: bool, locked: bool): (r: SubmitResult)
    ensures idle || !CanSubmit(c, disabled, locked) ==> r == SubmitResult(c, None)
    ensures !idle && CanSubmit(c, disabled, locked) ==>
      && r.sent == Some(Submission(side, Result(c).value))
      && r.state == Calc(None, None, c.opIdx)
  {
    if idle || !CanSubmit(c, disabled, locked) then SubmitResult(c, None)
    else SubmitResult(Calc(None, None, c.opIdx), Some(Submission(side, Result(c).value)))
  }

  /** Choosing an operation clears both factors; ignored while frozen. */
  function SelectOp(c: Calc, i: OpIndex, idle: bool, disabled: bool, locked: bool): (r: Calc)
    ensures Frozen(idle, disabled, locked) ==> r == c
    ensures !Frozen(idle, disabled, locked) ==> r.opIdx == i && Result(r).None?
    ensures !Frozen(idle, disabled, locked) ==> r.factorA.None? && r.factorB.None?
  {
    if Frozen(idle, disabled, locked) then c else Calc(None, None, i)
  }

  /** After a submission the result is gone, so an immediate second submit
      sends nothing. */
  lemma NoDoubleSubmit(c: Calc, side: string, disabled: bool, locked: bool)
    requires CanSubmit(c, disabled, locked)
    ensures var after := Submit(c, side, false, disabled, locked).state;
      && Result(after).None?
      && Submit(after, side, false, disabled, locked) == SubmitResult(after, None)
  {
  }

  /** Picking both factors and submitting sends what the selected operation
      computes from them. */
  lemma PickBothThenSubmit(c: Calc, a: int, b: int, side: string)
    ensures var picked := Pick(Pick(c, FactorA, a, false, false, false), FactorB, b, false, false, false);
      Submit(picked, side, false, false, false).sent == Some(Submission(side, Apply(c.opIdx, a, b)))
  {
  }

  /** On the idle screen nothing the player does changes the calculator or
      reaches the game. */
  lemma IdleIgnoresInput(c: Calc, which: Factor, val: int, i: OpIndex, side: string,
                         disabled: bool, locked: bool)
    ensures Pick(c, which, val, true, disabled, locked) == c
    ensures SelectOp(c, i, true, disabled, locked) == c
    ensures Submit(c, side, true, disabled, locked) == SubmitResult(c, None)
  {
  }

  /** Every factor, when set, comes from the number grid. */
  predicate Valid(c: Calc)
  {
    (c.factorA.Some? ==> c.factorA.value in Nums) && (c.factorB.Some? ==> c.factorB.value in Nums)
  }

  /** The grid's buttons keep the calculator valid, whatever else happens. */
  lemma OperationsPreserveValid(c: Calc, which: Factor, val: int, i: OpIndex, side: string,
                                idle: bool, disabled: bool, locked: bool)
    requires Valid(c) && val in Nums
    ensures Valid(Pick(c, which, val, idle, disabled, locked))
    ensures Valid(SelectOp(c, i, idle, disabled, locked))
    ensures Valid(Submit(c, side, idle, disabled, locked).state)
  {
  }

  /** With factors from the grid a product lies in [1, 81] and a sum in
      [2, 18]; so every result lies in [1, 81]. */
  lemma {:induction false} ResultRange(c: Calc)
    requires Valid(c) && Result(c).Some?
    ensures c.opIdx == 0 ==> 1 <= Result(c).value <= 81
    ensures c.opIdx == 1 ==> 2 <= Result(c).value <= 18
    ensures 1 <= Result(c).value <= 81
  {
    var a := c.factorA.value;
    var b := c.factorB.value;
    assert 1 <= a <= 9 && 1 <= b <= 9;
    if c.opIdx == 0 {
      GridProduct(a, b);
    }
  }

  lemma GridProduct(a: int, b: int)
    requires 1 <= a <= 9 && 1 <= b <= 9
    ensures 1 <= a * b <= 81
  {
    var i := a - 1;
    var j := b - 1;
    assert a * b == i * j + i + j + 1;
    assert 0 <= i * j by { if i > 0 { assert i * j >= 0; } }
    assert i * j <= 64 by {
      assert (8 - i) * j >= 0;
      assert i * (8 - j) + (8 - i) * (8 - j) >= 0;
    }
  }

  /** The extremes are reached: 1 × 1 = 1 and 9 × 9 = 81, 1 + 1 = 2 and
      9 + 9 = 18. */
  lemma ResultRangeTight()
    ensures Result(Calc(Some(1), Some(1), 0)) == Some(1)
    ensures Result(Calc(Some(9), Some(9), 0)) == Some(81)
    ensures Result(Calc(Some(1), Some(1), 1)) == Some(2)
    ensures Result(Calc(Some(9), Some(9), 1)) == Some(18)
    ensures Valid(Calc(Some(1), Some(1), 0)) && Valid(Calc(Some(9), Some(9), 0))
  {
  }
}
