// The example calculator: a chain of binary operations, evaluated from left to right.
module Calculator {
  import opened Wrappers

  type BinaryOperator = (int, int) -> int

  /** struct OperatorFunction. */
  datatype Operator = Operator(symbol: string, apply: BinaryOperator)

  /** The operator table, and what strtol reads from an argument, if anything. */
  datatype Setting = Setting(operators: seq<Operator>, parse: string -> Option<int>)

  /** The position of the first operator with the given symbol, |operators| if there is none. */
  function FirstAt(operators: seq<Operator>, symbol: string): (k: nat)
    ensures k <= |operators|
    ensures forall j :: 0 <= j < k ==> operators[j].symbol != symbol
    ensures k < |operators| ==> operators[k].symbol == symbol
  {
    if operators == [] || operators[0].symbol == symbol then 0 else 1 + FirstAt(operators[1..], symbol)
  }

  predicate Known(env: Setting, symbol: string) {
    FirstAt(env.operators, symbol) < |env.operators|
  }

  function Apply(env: Setting, symbol: string, x: int, y: int): int
    requires Known(env, symbol)
  {
    env.operators[FirstAt(env.operators, symbol)].apply(x, y)
  }

  /** An integer, then any number of known operators with an integer each. */
  ghost predicate Expression(env: Setting, args: seq<string>) {
    && |args| % 2 == 1
    && forall i :: 0 <= i < |args| ==> Fits(env, args, i)
  }

  predicate Fits(env: Setting, args: seq<string>, i: nat)
    requires i < |args|
  {
    if i % 2 == 0 then env.parse(args[i]).Some? else Known(env, args[i])
  }

  /** The value of an expression: the last operator applied to the value of what comes before it. */
  ghost function Value(env: Setting, args: seq<string>): int
    requires Expression(env, args)
    decreases |args|
  {
    var n := |args|;
    assert Fits(env, args, n - 1);
    if n == 1 then env.parse(args[0]).value else
    assert Fits(env, args, n - 2);
    Shorter(env, args, n - 2);
    Apply(env, args[n - 2], Value(env, args[..n - 2]), env.parse(args[n - 1]).value)
  }

  /** An expression cut off after an integer is an expression. */
  lemma Shorter(env: Setting, args: seq<string>, n: nat)
    requires Expression(env, args) && n <= |args| && n % 2 == 1
    ensures Expression(env, args[..n])
  {
    forall i | 0 <= i < n ensures Fits(env, args[..n], i) {
      assert Fits(env, args, i);
    }
  }

  /** Known operators, each with an integer behind it. */
  ghost predicate Operations(env: Setting, rest: seq<string>) {
    && |rest| % 2 == 0
    && forall i :: 0 <= i < |rest| ==> if i % 2 == 1 then env.parse(rest[i]).Some? else Known(env, rest[i])
  }

  /** The running total from the left, as one computes it by hand: the entry of the table for the symbol
      is given the total so far, then the next integer. */
  ghost function FoldLeft(env: Setting, total: int, rest: seq<string>): int
    requires Operations(env, rest)
    decreases |rest|
  {
    if rest == [] then total else
    var k := FirstAt(env.operators, rest[0]);
    FoldLeft(env, env.operators[k].apply(total, env.parse(rest[1]).value), rest[2..])
  }

  lemma RestOf(env: Setting, args: seq<string>, n: nat)
    requires Expression(env, args) && n <= |args| && n % 2 == 1
    ensures Expression(env, args[..n]) && Operations(env, args[n..])
  {
    Shorter(env, args, n);
    var rest := args[n..];
    forall i | 0 <= i < |rest| ensures if i % 2 == 1 then env.parse(rest[i]).Some? else Known(env, rest[i]) {
      assert Fits(env, args, n + i);
    }
  }

  /** The value of an expression is the left fold of its operations, so no operator has precedence. */
  lemma {:induction false} ValueIsFold(env: Setting, args: seq<string>, n: nat)
    requires Expression(env, args) && n <= |args| && n % 2 == 1
    ensures Expression(env, args[..n]) && Operations(env, args[n..])
    ensures Value(env, args) == FoldLeft(env, Value(env, args[..n]), args[n..])
    decreases |args| - n
  {
    hide FoldLeft, Value;
    RestOf(env, args, n);
    if n < |args| {
      RestOf(env, args, n + 2);
      ValueIsFold(env, args, n + 2);
      FoldStep(env, args, n);
    } else {
      assert args[..n] == args;
      FoldNothing(env, Value(env, args), args[n..]);
    }
  }

  lemma FoldNothing(env: Setting, total: int, rest: seq<string>)
    requires rest == []
    ensures Operations(env, rest) && FoldLeft(env, total, rest) == total
  {
  }

  /** One operation more, on both sides. */
  lemma FoldStep(env: Setting, args: seq<string>, n: nat)
    requires n + 2 <= |args| && n % 2 == 1 && Expression(env, args[..n]) && Expression(env, args[..n + 2])
    requires Operations(env, args[n..]) && Operations(env, args[n + 2..])
    ensures FoldLeft(env, Value(env, args[..n]), args[n..]) == FoldLeft(env, Value(env, args[..n + 2]), args[n + 2..])
  {
    assert args[..n + 2][..n] == args[..n];
    assert args[n..][2..] == args[n + 2..] && args[n..][0] == args[n] && args[n..][1] == args[n + 1];
  }

  /** The sum of the integers behind the operators. */
  ghost function Others(env: Setting, rest: seq<string>): int
    requires Operations(env, rest)
    decreases |rest|
  {
    if rest == [] then 0 else env.parse(rest[1]).value + Others(env, rest[2..])
  }

  /** The entry for "-" subtracts its second argument from its first. */
  ghost predicate Subtracts(env: Setting) {
    && Known(env, "-")
    && forall x, y :: env.operators[FirstAt(env.operators, "-")].apply(x, y) == x - y
  }

  lemma {:induction false} MinusFold(env: Setting, total: int, rest: seq<string>)
    requires Operations(env, rest) && Subtracts(env) && forall i :: 0 <= i < |rest| && i % 2 == 0 ==> rest[i] == "-"
    ensures FoldLeft(env, total, rest) == total - Others(env, rest)
    decreases |rest|
  {
    if rest != [] {
      var k := FirstAt(env.operators, "-");
      MinusFold(env, env.operators[k].apply(total, env.parse(rest[1]).value), rest[2..]);
    }
  }

  /** A chain of "-" takes the other integers from the first: "5 - 3 - 1" is 1. */
  lemma MinusChain(env: Setting, args: seq<string>)
    requires Expression(env, args) && Subtracts(env)
    requires forall i :: 0 <= i < |args| && i % 2 == 1 ==> args[i] == "-"
    ensures env.parse(args[0]).Some? && Operations(env, args[1..])
    ensures Value(env, args) == env.parse(args[0]).value - Others(env, args[1..])
  {
    hide *;
    ChainParts(env, args);
    ValueIsFold(env, args, 1);
    Single(env, args);
    MinusFold(env, Value(env, args[..1]), args[1..]);
  }

  lemma ChainParts(env: Setting, args: seq<string>)
    requires Expression(env, args) && forall i :: 0 <= i < |args| && i % 2 == 1 ==> args[i] == "-"
    ensures |args| > 0 && |args| % 2 == 1 && env.parse(args[0]).Some?
    ensures forall i :: 0 <= i < |args[1..]| && i % 2 == 0 ==> args[1..][i] == "-"
  {
    assert Fits(env, args, 0);
    forall i | 0 <= i < |args[1..]| && i % 2 == 0 ensures args[1..][i] == "-" {
      assert args[i + 1] == "-";
    }
  }

  /** find_operator_function_by_string. */
  method FindOperatorFunction(operators: seq<Operator>, symbol: string) returns (r: Option<BinaryOperator>)
    ensures r.None? <==> forall k :: 0 <= k < |operators| ==> operators[k].symbol != symbol
    ensures r.Some? ==>
              && FirstAt(operators, symbol) < |operators|
              && r.value == operators[FirstAt(operators, symbol)].apply
  {
    var i := 0;
    while i < |operators|
      invariant 0 <= i <= |operators| && forall k :: 0 <= k < i ==> operators[k].symbol != symbol
    {
      if operators[i].symbol == symbol {
        return Some(operators[i].apply);
      }
      i := i + 1;
    }
    r := None;
  }

  /** perform_operation. It succeeds exactly on no arguments and on expressions; then its result is the
      value of the expression, and the intermediate values are those of the shorter expressions. */
  method PerformOperation(env: Setting, args: seq<string>)
    returns (value: int, count: nat, values: array?<int>, error: bool)
    ensures !error <==> args == [] || Expression(env, args)
    ensures error || args == [] ==> value == 0 && count == 0 && values == null
    ensures !error && args != [] ==>
              && value == Value(env, args) && count == (|args| - 1) / 2
              && values != null && fresh(values) && values.Length == count
              && forall k :: 0 <= k < count ==>
                   Expression(env, args[..2 * k + 3]) && values[k] == Value(env, args[..2 * k + 3])
  {
    hide Value, FirstAt;
    value, count, values, error := 0, 0, null, false;
    if args == [] {
      return;
    }
    var first := env.parse(args[0]);
    if first.None? {
      error := true;
      assert !Fits(env, args, 0);
      return;
    }
    value := first.value;
    var intermediate := new int[(|args| - 1) / 2];
    var i := 1;
    Single(env, args);
    while i < |args|
      invariant 1 <= i <= |args| && i % 2 == 1 && !error && i == 2 * count + 1
      invariant Expression(env, args[..i]) && value == Value(env, args[..i])
      invariant fresh(intermediate) && intermediate.Length == (|args| - 1) / 2
      invariant forall k :: 0 <= k < count ==>
                  Expression(env, args[..2 * k + 3]) && intermediate[k] == Value(env, args[..2 * k + 3])
    {
      var operation := FindOperatorFunction(env.operators, args[i]);
      var slot := count;
      count := count + 1;
      if operation.None? {
        error := true;
        assert !Fits(env, args, i);
        break;
      }
      i := i + 1;
      if i == |args| {
        error := true;
        break;
      }
      var other := env.parse(args[i]);
      if other.None? {
        error := true;
        assert !Fits(env, args, i);
        break;
      }
      i := i + 1;
      Longer(env, args, i);
      intermediate[slot] := operation.value(value, other.value);
      value := intermediate[slot];
    }
    if error {
      return 0, 0, null, true;
    }
    assert args[..i] == args;
    values := intermediate;
  }

  lemma Single(env: Setting, args: seq<string>)
    requires args != [] && env.parse(args[0]).Some?
    ensures Expression(env, args[..1]) && Value(env, args[..1]) == env.parse(args[0]).value
  {
    assert Fits(env, args[..1], 0);
  }

  /** Two more arguments that fit make a longer expression. */
  lemma Longer(env: Setting, args: seq<string>, n: nat)
    requires 3 <= n <= |args| && n % 2 == 1 && Expression(env, args[..n - 2])
    requires Known(env, args[n - 2]) && env.parse(args[n - 1]).Some?
    ensures Expression(env, args[..n])
    ensures Value(env, args[..n]) ==
            Apply(env, args[n - 2], Value(env, args[..n - 2]), env.parse(args[n - 1]).value)
  {
    forall i | 0 <= i < n ensures Fits(env, args[..n], i) {
      if i < n - 2 {
        assert Fits(env, args[..n - 2], i);
      }
    }
    assert args[..n][..n - 2] == args[..n - 2];
  }
}
