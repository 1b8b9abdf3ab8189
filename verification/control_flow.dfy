/** The torch backend's functional control flow: `if_else` picks one of two
    branch functions by a condition that may be a bool, a predicate over the
    variables, or any other object read for its truth value;
    `while_loop` re-applies a body to the variable values until a test
    fails. */
module ControlFlow {
  import opened Common

  /** The `cond` argument of `if_else`. `Other` stands for any object that
      is neither a bool nor callable, with the truth value `bool()` gives
      it. */
  datatype Cond<!V> = BoolCond(b: bool) | Callable(f: map<string, V> -> bool) | Other(truthy: bool)

  /** The truth value `if_else` computes as written: a bool is wrapped as
      `lambda *_: v`, which takes no keyword arguments, and is then called
      as `cond(**vars)`, so it fails with TypeError unless `vars` is empty; a
      predicate is called with the variables as keyword arguments; anything
      else is converted with `bool()`. */
  function CallCond<V>(cond: Cond<V>, vars: map<string, V>): (r: Result<bool>)
    ensures r.Err? <==> cond.BoolCond? && |vars| > 0
    ensures r.Err? ==> r.error == TypeError
    ensures r.Ok? ==> r.value == Decide(cond, vars)
  {
    match cond
    case BoolCond(b) => if |vars| > 0 then Err(TypeError) else Ok(b)
    case Callable(f) => Ok(f(vars))
    case Other(t) => Ok(t)
  }

  /** The condition the back-compatibility wrapping evidently means: a bool
      is a constant predicate that accepts any variables. */
  function Decide<V>(cond: Cond<V>, vars: map<string, V>): (r: bool)
    ensures cond.BoolCond? ==> r == cond.b
    ensures cond.Callable? ==> r == cond.f(vars)
    ensures cond.Other? ==> r == cond.truthy
  {
    match cond
    case BoolCond(b) =>
      var f := (_: map<string, V>) => b;
      f(vars)
    case Callable(f) => f(vars)
    case Other(t) => t
  }

  /** `if_else(cond, body_fn, orelse_fn, vars)` as written: when the
      condition can be evaluated, exactly one branch is called with the
      variables and its result is returned. */
  function IfElse<V, R>(cond: Cond<V>, bodyFn: map<string, V> -> R, orelseFn: map<string, V> -> R,
                        vars: map<string, V>): (r: Result<R>)
    ensures r.Err? <==> cond.BoolCond? && |vars| > 0
    ensures r.Err? ==> r.error == TypeError
    ensures r.Ok? && Decide(cond, vars) ==> r.value == bodyFn(vars)
    ensures r.Ok? && !Decide(cond, vars) ==> r.value == orelseFn(vars)
  {
    var c :- CallCond(cond, vars);
    Ok(if c then bodyFn(vars) else orelseFn(vars))
  }

  /** `if_else` with the bool wrapped as a constant predicate that accepts
      keyword arguments: it never fails, and it agrees with `if_else`
      wherever that succeeds. */
  function IfElseIntended<V, R>(cond: Cond<V>, bodyFn: map<string, V> -> R, orelseFn: map<string, V> -> R,
                                vars: map<string, V>): (r: R)
    ensures Decide(cond, vars) ==> r == bodyFn(vars)
    ensures !Decide(cond, vars) ==> r == orelseFn(vars)
    ensures IfElse(cond, bodyFn, orelseFn, vars).Ok? ==> IfElse(cond, bodyFn, orelseFn, vars).value == r
  {
    if Decide(cond, vars) then bodyFn(vars) else orelseFn(vars)
  }

  /** As written, a bool condition with any variable fails before either
      branch runs: `if_else(True, f, g, {"x": 1})` raises TypeError. */
  lemma BoolCondWithVarsFails(bodyFn: map<string, int> -> int, orelseFn: map<string, int> -> int)
    ensures IfElse(BoolCond(true), bodyFn, orelseFn, map["x" := 1]) == Err(TypeError)
    ensures IfElseIntended(BoolCond(true), bodyFn, orelseFn, map["x" := 1]) == bodyFn(map["x" := 1])
  {
    assert |map["x" := 1]| == 1;
  }

  /** In the intended reading a bool condition behaves as the constant
      predicate returning it, and as an object of that truth value. */
  lemma BoolCondIsConstantPredicate<V, R>(b: bool, bodyFn: map<string, V> -> R, orelseFn: map<string, V> -> R,
                                          vars: map<string, V>)
    ensures IfElseIntended(BoolCond(b), bodyFn, orelseFn, vars)
         == IfElseIntended(Callable((_: map<string, V>) => b), bodyFn, orelseFn, vars)
    ensures IfElseIntended(BoolCond(b), bodyFn, orelseFn, vars) == IfElseIntended(Other(b), bodyFn, orelseFn, vars)
    ensures IfElse(BoolCond(b), bodyFn, orelseFn, map[]) == IfElse(Other(b), bodyFn, orelseFn, map[])
  {
  }

  /** Negating a predicate condition swaps the branches. */
  lemma NegatedConditionSwapsBranches<V, R>(f: map<string, V> -> bool, bodyFn: map<string, V> -> R,
                                            orelseFn: map<string, V> -> R, vars: map<string, V>)
    ensures IfElse(Callable((m: map<string, V>) => !f(m)), orelseFn, bodyFn, vars)
         == IfElse(Callable(f), bodyFn, orelseFn, vars)
  {
  }

  /** What a loop body returns: a tuple of new values, or a single value. */
  datatype BodyResult<V> = Tuple(values: seq<V>) | Single(value: V)

  /** A non-tuple result is wrapped as a 1-tuple. */
  function AsTuple<V>(b: BodyResult<V>): (r: seq<V>)
    ensures b.Tuple? ==> r == b.values
    ensures b.Single? ==> r == [b.value]
  {
    match b
    case Tuple(vs) => vs
    case Single(v) => [v]
  }

  /** The values `while_loop` returns when the test fails within `fuel`
      rounds, starting from `result`; None when it is still true after
      them. */
  function Iterate<V>(test: seq<V> -> bool, bodyFn: seq<V> -> BodyResult<V>, result: seq<V>, fuel: nat): (r: Option<seq<V>>)
    ensures r.Some? ==> !test(r.value)
    ensures !test(result) ==> r == Some(result)
    decreases fuel
  {
    if !test(result) then Some(result)
    else if fuel == 0 then None
    else Iterate(test, bodyFn, AsTuple(bodyFn(result)), fuel - 1)
  }

  /** More rounds never change a loop that has already stopped. */
  lemma {:induction false} IterateFuelMonotone<V>(test: seq<V> -> bool, bodyFn: seq<V> -> BodyResult<V>,
                                                  result: seq<V>, fuel: nat, more: nat)
    requires Iterate(test, bodyFn, result, fuel).Some?
    requires more >= fuel
    ensures Iterate(test, bodyFn, result, more) == Iterate(test, bodyFn, result, fuel)
    decreases fuel
  {
    if test(result) {
      IterateFuelMonotone(test, bodyFn, AsTuple(bodyFn(result)), fuel - 1, more - 1);
    }
  }

  /** `while_loop(test_fn, body_fn, vars)`, run for at most `fuel` rounds:
      the values of `vars` in order, re-bound to the body's result while
      the test holds. The result, when there is one, fails the test. */
  method WhileLoop<V>(test: seq<V> -> bool, bodyFn: seq<V> -> BodyResult<V>, vars: seq<V>, fuel: nat)
    returns (r: Option<seq<V>>)
    ensures r == Iterate(test, bodyFn, vars, fuel)
    ensures r.Some? ==> !test(r.value)
    ensures !test(vars) ==> r == Some(vars)
  {
    var result := vars;
    var left: nat := fuel;
    while test(result)
      invariant left <= fuel
      invariant Iterate(test, bodyFn, result, left) == Iterate(test, bodyFn, vars, fuel)
      decreases left
    {
      if left == 0 {
        return None;
      }
      result := AsTuple(bodyFn(result));
      left := left - 1;
    }
    r := Some(result);
  }
}
