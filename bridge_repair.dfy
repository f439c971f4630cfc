/**
 * Calibration equations: a target value and a list of numbers, to be combined
 * left to right by operators chosen from addition, multiplication and (in part 2)
 * decimal concatenation. Numbers are unbounded; the 64-bit width is not modelled.
 */
module BridgeRepair {

  datatype Equation = Equation(result: nat, numbers: seq<nat>)

  // ------------------------------------------------------- decimal numerals

  function DigitChar(d: nat): char
    requires d < 10
  {
    "0123456789"[d]
  }

  predicate IsDigit(c: char)
  {
    '0' <= c <= '9'
  }

  function DigitValue(c: char): (r: nat)
    requires IsDigit(c)
    ensures r < 10
  {
    c as int - '0' as int
  }

  /** The decimal numeral of `n`, with no leading zeros; "0" for zero. */
  function ToDecimal(n: nat): (s: string)
    ensures |s| > 0 && forall i :: 0 <= i < |s| ==> IsDigit(s[i])
  {
    if n < 10 then [DigitChar(n)] else ToDecimal(n / 10) + [DigitChar(n % 10)]
  }

  /** The value of a string of decimal digits. */
  function FromDecimal(s: string): nat
    requires forall i :: 0 <= i < |s| ==> IsDigit(s[i])
  {
    if |s| == 0 then 0 else FromDecimal(s[..|s| - 1]) * 10 + DigitValue(s[|s| - 1])
  }

  /** Number of decimal digits of `n`; zero has one. */
  function Digits(n: nat): (r: nat)
    ensures r >= 1
  {
    if n < 10 then 1 else 1 + Digits(n / 10)
  }

  function Pow10(k: nat): (r: nat)
    ensures r >= 1
  {
    if k == 0 then 1 else 10 * Pow10(k - 1)
  }

  /** Reading back a numeral gives the number, and the numeral has `Digits(n)` characters. */
  lemma {:induction false} DecimalRoundTrip(n: nat)
    ensures FromDecimal(ToDecimal(n)) == n
    ensures |ToDecimal(n)| == Digits(n)
    decreases n
  {
    if n >= 10 {
      DecimalRoundTrip(n / 10);
      var s := ToDecimal(n);
      assert s[..|s| - 1] == ToDecimal(n / 10);
    } else {
      assert DigitValue(DigitChar(n)) == n;
      assert ToDecimal(n)[..0] == [];
    }
  }

  /** The value of two digit strings written one after the other. */
  lemma {:induction false} FromDecimalAppend(s: string, t: string)
    requires forall i :: 0 <= i < |s| ==> IsDigit(s[i])
    requires forall i :: 0 <= i < |t| ==> IsDigit(t[i])
    ensures FromDecimal(s + t) == FromDecimal(s) * Pow10(|t|) + FromDecimal(t)
    decreases |t|
  {
    if |t| == 0 {
      assert s + t == s;
    } else {
      var u := s + t;
      var t' := t[..|t| - 1];
      var d := DigitValue(t[|t| - 1]);
      assert u[..|u| - 1] == s + t';
      assert FromDecimal(u) == FromDecimal(s + t') * 10 + d;
      assert FromDecimal(t) == FromDecimal(t') * 10 + d;
      FromDecimalAppend(s, t');
      ShiftLeft(FromDecimal(s), Pow10(|t'|), FromDecimal(t'), d);
    }
  }

  lemma ShiftLeft(a: int, p: int, b: int, d: int)
    ensures (a * p + b) * 10 + d == a * (10 * p) + (b * 10 + d)
  {
  }

  /** Decimal concatenation: `num`'s digits written after `accumulator`'s. */
  function Concat(accumulator: nat, num: nat): nat
  {
    accumulator * Pow10(Digits(num)) + num
  }

  /**
   * Concatenation as the program does it, printing both numbers side by side
   * and reading the text back, gives `Concat`.
   */
  lemma ConcatIsJoinedNumerals(accumulator: nat, num: nat)
    ensures FromDecimal(ToDecimal(accumulator) + ToDecimal(num)) == Concat(accumulator, num)
  {
    FromDecimalAppend(ToDecimal(accumulator), ToDecimal(num));
    DecimalRoundTrip(accumulator);
    DecimalRoundTrip(num);
  }

  // ------------------------------------------------------------- validators

  /** Every number from `index` on is positive. */
  predicate PositiveFrom(numbers: seq<nat>, index: nat)
  {
    forall i :: index <= i < |numbers| ==> numbers[i] > 0
  }

  /** None of the three operators makes the accumulator smaller when the number is positive. */
  lemma Grows(accumulator: nat, num: nat)
    ensures num > 0 ==> accumulator <= accumulator * num
    ensures accumulator <= Concat(accumulator, num)
  {
    if num > 0 {
      Scales(accumulator, num);
    }
    Scales(accumulator, Pow10(Digits(num)));
  }

  lemma Scales(a: nat, k: nat)
    requires k > 0
    ensures a <= a * k
  {
    assert a * k == a * (k - 1) + a;
  }

  /**
   * Whether the numbers from `index` on, combined onto `accumulator` left to
   * right with `+` or `*`, can reach the equation's result.
   */
  function ValidPart1(equation: Equation, accumulator: nat, index: nat): (r: bool)
    requires index <= |equation.numbers|
    ensures r && PositiveFrom(equation.numbers, index) ==> accumulator <= equation.result
    decreases |equation.numbers| - index
  {
    if index == |equation.numbers| then equation.result == accumulator
    else
      var num := equation.numbers[index];
      Grows(accumulator, num);
      ValidPart1(equation, accumulator + num, index + 1)
      || ValidPart1(equation, accumulator * num, index + 1)
  }

  /**
   * As `ValidPart1` with concatenation as a third operator; at index 0 the
   * multiplication starts from 0 instead of the accumulator.
   */
  function ValidPart2(equation: Equation, accumulator: nat, index: nat): (r: bool)
    requires index <= |equation.numbers|
    ensures r && index >= 1 && PositiveFrom(equation.numbers, index) ==> accumulator <= equation.result
    decreases |equation.numbers| - index
  {
    if index == |equation.numbers| then equation.result == accumulator
    else
      var num := equation.numbers[index];
      Grows(accumulator, num);
      ValidPart2(equation, accumulator + num, index + 1)
      || ValidPart2(equation, (if index == 0 then 0 else accumulator) * num, index + 1)
      || ValidPart2(equation, Concat(accumulator, num), index + 1)
  }

  // ------------------------------------------- the operator sequences searched

  datatype Op = Add | Mul | Cat

  function Apply(op: Op, accumulator: nat, num: nat): nat
  {
    match op
    case Add => accumulator + num
    case Mul => accumulator * num
    case Cat => Concat(accumulator, num)
  }

  /** Combines `nums` onto `accumulator` left to right, the i-th number with the i-th operator. */
  function Eval(accumulator: nat, nums: seq<nat>, ops: seq<Op>): nat
    requires |ops| == |nums|
    decreases |nums|
  {
    if |nums| == 0 then accumulator
    else Eval(Apply(ops[0], accumulator, nums[0]), nums[1..], ops[1..])
  }

  predicate NoConcat(ops: seq<Op>)
  {
    forall i :: 0 <= i < |ops| ==> ops[i] != Cat
  }

  /** Part 1 accepts exactly when some choice of `+` and `*` reaches the result. */
  lemma ValidPart1Iff(equation: Equation, accumulator: nat, index: nat)
    requires index <= |equation.numbers|
    ensures ValidPart1(equation, accumulator, index) <==>
      exists ops: seq<Op> :: |ops| == |equation.numbers| - index && NoConcat(ops)
        && Eval(accumulator, equation.numbers[index..], ops) == equation.result
  {
    if ValidPart1(equation, accumulator, index) {
      ValidPart1Chooses(equation, accumulator, index);
    }
    forall ops: seq<Op> | |ops| == |equation.numbers| - index && NoConcat(ops)
      && Eval(accumulator, equation.numbers[index..], ops) == equation.result
      ensures ValidPart1(equation, accumulator, index)
    {
      ChoiceValidPart1(equation, accumulator, index, ops);
    }
  }

  /** An accepted equation has a choice of `+` and `*` that reaches the result. */
  lemma {:induction false} ValidPart1Chooses(equation: Equation, accumulator: nat, index: nat)
    requires index <= |equation.numbers| && ValidPart1(equation, accumulator, index)
    ensures exists ops: seq<Op> ::
      |ops| == |equation.numbers| - index && NoConcat(ops) && Eval(accumulator, equation.numbers[index..], ops) == equation.result
    decreases |equation.numbers| - index
  {
    var nums := equation.numbers[index..];
    if index == |equation.numbers| {
      assert Eval(accumulator, nums, []) == accumulator;
    } else {
      var num := equation.numbers[index];
      assert nums[1..] == equation.numbers[index + 1..];
      var op := if ValidPart1(equation, accumulator + num, index + 1) then Add else Mul;
      ValidPart1Chooses(equation, Apply(op, accumulator, num), index + 1);
      var rest: seq<Op> :| |rest| == |equation.numbers| - (index + 1) && NoConcat(rest)
        && Eval(Apply(op, accumulator, num), equation.numbers[index + 1..], rest) == equation.result;
      assert ([op] + rest)[1..] == rest;
      assert NoConcat([op] + rest);
      assert Eval(accumulator, nums, [op] + rest) == equation.result;
    }
  }

  /** A choice of `+` and `*` that reaches the result makes part 1 accept. */
  lemma {:induction false} ChoiceValidPart1(equation: Equation, accumulator: nat, index: nat, ops: seq<Op>)
    requires index <= |equation.numbers| && |ops| == |equation.numbers| - index && NoConcat(ops)
    requires Eval(accumulator, equation.numbers[index..], ops) == equation.result
    ensures ValidPart1(equation, accumulator, index)
    decreases |equation.numbers| - index
  {
    var nums := equation.numbers[index..];
    if index < |equation.numbers| {
      var num := equation.numbers[index];
      assert nums[1..] == equation.numbers[index + 1..];
      assert NoConcat(ops[1..]);
      ChoiceValidPart1(equation, Apply(ops[0], accumulator, num), index + 1, ops[1..]);
    }
  }

  /** Some choice of operators reaching the result from `accumulator`, numbers from `index` on. */
  ghost predicate Reachable(equation: Equation, accumulator: nat, index: nat)
    requires index <= |equation.numbers|
  {
    exists ops: seq<Op> :: |ops| == |equation.numbers| - index
      && Eval(accumulator, equation.numbers[index..], ops) == equation.result
  }

  /** One step of part 2 from index 1 on: any operator leading on to acceptance makes it accept. */
  lemma ValidPart2Via(equation: Equation, accumulator: nat, index: nat, op: Op)
    requires 1 <= index < |equation.numbers|
    ensures ValidPart2(equation, Apply(op, accumulator, equation.numbers[index]), index + 1) ==>
      ValidPart2(equation, accumulator, index)
  {
  }

  /** One step of part 2 from index 1 on: acceptance goes on through one of the three operators. */
  lemma ValidPart2Choice(equation: Equation, accumulator: nat, index: nat)
    requires 1 <= index < |equation.numbers|
    ensures ValidPart2(equation, accumulator, index) ==>
      || ValidPart2(equation, Apply(Add, accumulator, equation.numbers[index]), index + 1)
      || ValidPart2(equation, Apply(Mul, accumulator, equation.numbers[index]), index + 1)
      || ValidPart2(equation, Apply(Cat, accumulator, equation.numbers[index]), index + 1)
  {
  }

  /** Evaluating a non-empty operator list: the first operator, then the rest. */
  lemma EvalFirst(accumulator: nat, nums: seq<nat>, ops: seq<Op>)
    requires |ops| == |nums| > 0
    ensures Eval(accumulator, nums, ops) == Eval(Apply(ops[0], accumulator, nums[0]), nums[1..], ops[1..])
  {
  }

  lemma {:induction false} ValidPart2Reachable(equation: Equation, accumulator: nat, index: nat)
    requires 1 <= index <= |equation.numbers|
    ensures ValidPart2(equation, accumulator, index) ==> Reachable(equation, accumulator, index)
    decreases |equation.numbers| - index
  {
    var nums := equation.numbers[index..];
    if index == |equation.numbers| {
      assert Eval(accumulator, nums, []) == accumulator;
    } else if ValidPart2(equation, accumulator, index) {
      var num := equation.numbers[index];
      ValidPart2Choice(equation, accumulator, index);
      var op :=
        if ValidPart2(equation, Apply(Add, accumulator, num), index + 1) then Add
        else if ValidPart2(equation, Apply(Mul, accumulator, num), index + 1) then Mul
        else Cat;
      ValidPart2Reachable(equation, Apply(op, accumulator, num), index + 1);
      var rest: seq<Op> :| |rest| == |equation.numbers| - (index + 1)
        && Eval(Apply(op, accumulator, num), equation.numbers[index + 1..], rest) == equation.result;
      assert nums[1..] == equation.numbers[index + 1..];
      assert ([op] + rest)[1..] == rest;
      EvalFirst(accumulator, nums, [op] + rest);
    }
  }

  /** A reaching choice of operators starts with an operator after which the rest still reaches. */
  lemma ReachableFirst(equation: Equation, accumulator: nat, index: nat) returns (op: Op)
    requires index < |equation.numbers| && Reachable(equation, accumulator, index)
    ensures Reachable(equation, Apply(op, accumulator, equation.numbers[index]), index + 1)
  {
    var nums := equation.numbers[index..];
    var ops: seq<Op> :| |ops| == |nums| && Eval(accumulator, nums, ops) == equation.result;
    assert nums[1..] == equation.numbers[index + 1..];
    EvalFirst(accumulator, nums, ops);
    op := ops[0];
    assert Eval(Apply(op, accumulator, nums[0]), nums[1..], ops[1..]) == equation.result;
  }

  lemma {:induction false} ReachableValidPart2(equation: Equation, accumulator: nat, index: nat)
    requires 1 <= index <= |equation.numbers|
    ensures Reachable(equation, accumulator, index) ==> ValidPart2(equation, accumulator, index)
    decreases |equation.numbers| - index
  {
    if Reachable(equation, accumulator, index) {
      if index == |equation.numbers| {
        var ops: seq<Op> :| |ops| == 0 && Eval(accumulator, equation.numbers[index..], ops) == equation.result;
      } else {
        var op := ReachableFirst(equation, accumulator, index);
        ReachableValidPart2(equation, Apply(op, accumulator, equation.numbers[index]), index + 1);
        ValidPart2Via(equation, accumulator, index, op);
      }
    }
  }

  /** From index 1 on, part 2 accepts exactly when some choice of `+`, `*` and concatenation reaches the result. */
  lemma ValidPart2Iff(equation: Equation, accumulator: nat, index: nat)
    requires 1 <= index <= |equation.numbers|
    ensures ValidPart2(equation, accumulator, index) <==>
      exists ops: seq<Op> :: |ops| == |equation.numbers| - index
        && Eval(accumulator, equation.numbers[index..], ops) == equation.result
  {
    ValidPart2Reachable(equation, accumulator, index);
    ReachableValidPart2(equation, accumulator, index);
  }

  /** From index 1 on, every equation part 1 accepts part 2 accepts too. */
  lemma {:induction false} Part1ImpliesPart2(equation: Equation, accumulator: nat, index: nat)
    requires 1 <= index <= |equation.numbers|
    ensures ValidPart1(equation, accumulator, index) ==> ValidPart2(equation, accumulator, index)
    decreases |equation.numbers| - index
  {
    if index < |equation.numbers| {
      var num := equation.numbers[index];
      Part1ImpliesPart2(equation, accumulator + num, index + 1);
      Part1ImpliesPart2(equation, accumulator * num, index + 1);
    }
  }

  /**
   * Called from index 0, the multiplication ignores the accumulator and yields
   * 0: whenever the numbers after the first reach the result from 0, every
   * accumulator is accepted.
   */
  lemma IndexZeroMultipliesZero(equation: Equation, accumulator: nat)
    requires |equation.numbers| > 0
    ensures ValidPart2(equation, 0, 1) ==> ValidPart2(equation, accumulator, 0)
  {
    assert 0 * equation.numbers[0] == 0;
  }

  // ------------------------------------------------------------------ totals

  /** Part 1's test of a whole equation: the first number starts the accumulator. */
  function IsValidPart1(equation: Equation): (r: bool)
    requires |equation.numbers| > 0
    ensures |equation.numbers| == 1 ==> (r <==> equation.result == equation.numbers[0])
  {
    ValidPart1(equation, equation.numbers[0], 1)
  }

  function IsValidPart2(equation: Equation): (r: bool)
    requires |equation.numbers| > 0
    ensures |equation.numbers| == 1 ==> (r <==> equation.result == equation.numbers[0])
  {
    ValidPart2(equation, equation.numbers[0], 1)
  }

  predicate AllNonEmpty(equations: seq<Equation>)
  {
    forall i :: 0 <= i < |equations| ==> |equations[i].numbers| > 0
  }

  /** Sum of the results of all the equations. */
  function SumResults(equations: seq<Equation>): nat
  {
    if |equations| == 0 then 0
    else SumResults(equations[..|equations| - 1]) + equations[|equations| - 1].result
  }

  /**
   * Sum of the results of the equations part 1 accepts: never more than the
   * sum of all results, and all of it when every equation is accepted.
   */
  function TotalPart1(equations: seq<Equation>): (r: nat)
    requires AllNonEmpty(equations)
    ensures r <= SumResults(equations)
    ensures (forall i :: 0 <= i < |equations| ==> IsValidPart1(equations[i])) ==> r == SumResults(equations)
    ensures (forall i :: 0 <= i < |equations| ==> !IsValidPart1(equations[i])) ==> r == 0
  {
    if |equations| == 0 then 0
    else
      var last := equations[|equations| - 1];
      TotalPart1(equations[..|equations| - 1]) + (if IsValidPart1(last) then last.result else 0)
  }

  /** Sum of the results of the equations part 2 accepts, bounded likewise. */
  function TotalPart2(equations: seq<Equation>): (r: nat)
    requires AllNonEmpty(equations)
    ensures r <= SumResults(equations)
    ensures (forall i :: 0 <= i < |equations| ==> IsValidPart2(equations[i])) ==> r == SumResults(equations)
    ensures (forall i :: 0 <= i < |equations| ==> !IsValidPart2(equations[i])) ==> r == 0
  {
    if |equations| == 0 then 0
    else
      var last := equations[|equations| - 1];
      TotalPart2(equations[..|equations| - 1]) + (if IsValidPart2(last) then last.result else 0)
  }

  /** Every equation part 1 accepts part 2 accepts, so the part 1 total never exceeds part 2's. */
  lemma {:induction false} TotalPart1AtMostPart2(equations: seq<Equation>)
    requires AllNonEmpty(equations)
    ensures TotalPart1(equations) <= TotalPart2(equations)
    decreases |equations|
  {
    if |equations| > 0 {
      var last := equations[|equations| - 1];
      TotalPart1AtMostPart2(equations[..|equations| - 1]);
      Part1ImpliesPart2(last, last.numbers[0], 1);
    }
  }
}
