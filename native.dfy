/** The older generation of special forms and list procedures (native.c):
    `or`, `and`, `define`, `define-variable`, `map`, `filter`, `length` and
    `not`.  A form receives its environment as the first element of its
    argument list. */
module Native {
  import opened Values
  import opened Frames
  import Primitives

  /** dfsch_list_length_check: the length of a proper list.  Its definition
      is not part of this model; an improper list is taken to signal an
      error. */
  function LengthCheck(args: Value): (r: Result<nat>)
    ensures r.Ok? <==> IsProperList(args)
    ensures r.Ok? ==> r.value == |Elements(args)|
  {
    var n := ListLength(args);
    if n < 0 then Err(Error("exception:not-a-list", args)) else Ok(n)
  }

  /** NEED_ARGS: exactly `count` arguments. */
  function NeedArgs(args: Value, count: nat): (r: Result<()>)
    ensures r.Ok? <==> IsProperList(args) && |Elements(args)| == count
  {
    var n :- LengthCheck(args);
    if n != count then Err(Error("exception:wrong-number-of-arguments", args)) else Ok(())
  }

  /** MIN_ARGS: at least `count` arguments. */
  function MinArgs(args: Value, count: nat): (r: Result<()>)
    ensures r.Ok? <==> IsProperList(args) && |Elements(args)| >= count
  {
    var n :- LengthCheck(args);
    if n < count then Err(Error("exception:too-few-arguments", args)) else Ok(())
  }

  /** The values of the expressions `es` in `env`, each evaluated on its
      own. */
  function Evaluated(ev: Evaluator, frames: seq<Frame>, env: Value, es: seq<Value>): (vs: seq<Value>)
    ensures |vs| == |es|
    ensures forall k :: 0 <= k < |es| ==> vs[k] == ev(es[k], env, frames)
  {
    seq(|es|, k requires 0 <= k < |es| => ev(es[k], env, frames))
  }

  // ----- or, and -----

  /** The `or` form: the first non-nil value, nil when every value is nil
      or there are no expressions.  `evaluated` counts the expressions
      evaluated: none after the first non-nil value. */
  method Or(ev: Evaluator, frames: seq<Frame>, args: Value) returns (r: Result<Value>, ghost evaluated: nat)
    ensures r.Ok? <==> IsProperList(args) && |Elements(args)| >= 1
    ensures r.Ok? ==>
      var xs := Elements(args); var vs := Evaluated(ev, frames, xs[0], xs[1..]); var k := FirstNonNil(vs);
      r.value == (if k < |vs| then vs[k] else Nil) &&
      evaluated == (if k < |vs| then k + 1 else |vs|)
  {
    evaluated := 0;
    var ok := MinArgs(args, 1);
    if ok.Err? {
      return Err(ok.error), 0;
    }
    ElementsStep(args);
    var env := args.car;
    ghost var xs := Elements(args);
    ghost var es := xs[1..];
    ghost var vs := Evaluated(ev, frames, env, es);
    var i := args.cdr;
    var v := Nil;
    while i != Nil
      invariant evaluated <= |es| && Elements(i) == es[evaluated..] && IsProperList(i)
      invariant forall j :: 0 <= j < evaluated ==> vs[j] == Nil
      invariant v == Nil
      decreases i
    {
      ElementsStep(i);
      v := ev(i.car, env, frames);
      evaluated := evaluated + 1;
      if v != Nil {
        FirstNonNilAt(vs, evaluated - 1);
        return Ok(v), evaluated;
      }
      assert Elements(i.cdr) == es[evaluated..] by { assert es[evaluated..] == es[evaluated - 1..][1..]; }
      i := i.cdr;
    }
    FirstNonNilAt(vs, evaluated);
    return Ok(v), evaluated;
  }

  /** The `and` form: nil at the first nil value, else the last value, or
      true when there are no expressions.  No expression after the first
      nil value is evaluated. */
  method And(ev: Evaluator, frames: seq<Frame>, args: Value) returns (r: Result<Value>, ghost evaluated: nat)
    ensures r.Ok? <==> IsProperList(args) && |Elements(args)| >= 1
    ensures r.Ok? ==>
      var xs := Elements(args); var vs := Evaluated(ev, frames, xs[0], xs[1..]); var k := FirstNil(vs);
      r.value == (if k < |vs| then Nil else if vs == [] then True else vs[|vs| - 1]) &&
      evaluated == (if k < |vs| then k + 1 else |vs|)
  {
    evaluated := 0;
    var ok := MinArgs(args, 1);
    if ok.Err? {
      return Err(ok.error), 0;
    }
    ElementsStep(args);
    var env := args.car;
    ghost var xs := Elements(args);
    ghost var es := xs[1..];
    ghost var vs := Evaluated(ev, frames, env, es);
    var i := args.cdr;
    var v := True;
    while i != Nil
      invariant evaluated <= |es| && Elements(i) == es[evaluated..] && IsProperList(i)
      invariant forall j :: 0 <= j < evaluated ==> vs[j] != Nil
      invariant v == if evaluated == 0 then True else vs[evaluated - 1]
      decreases i
    {
      ElementsStep(i);
      v := ev(i.car, env, frames);
      evaluated := evaluated + 1;
      if v == Nil {
        FirstNilAt(vs, evaluated - 1);
        return Ok(v), evaluated;
      }
      assert Elements(i.cdr) == es[evaluated..] by { assert es[evaluated..] == es[evaluated - 1..][1..]; }
      i := i.cdr;
    }
    FirstNilAt(vs, evaluated);
    return Ok(v), evaluated;
  }

  /** `or` and `and` are each other's mirror: with the values negated, `or`
      finds a value exactly where `and` gives up. */
  lemma {:induction false} OrAndDual(vs: seq<Value>)
    ensures FirstNonNil(vs) == FirstNil(seq(|vs|, k requires 0 <= k < |vs| => Bool(vs[k] == Nil)))
  {
    var ns := seq(|vs|, k requires 0 <= k < |vs| => Bool(vs[k] == Nil));
    if vs != [] {
      OrAndDual(vs[1..]);
      assert ns[1..] == seq(|vs[1..]|, k requires 0 <= k < |vs[1..]| => Bool(vs[1..][k] == Nil));
    }
  }

  // ----- define, define-variable -----

  /** The store and result of `(define name expr)` or
      `(define (name . params) body...)` evaluated in the environment that
      heads `args`. */
  function DefineSpec(ev: Evaluator, frames: seq<Frame>, args: Value): (out: (seq<Frame>, Result<Value>))
    requires args.Pair? ==> IsEnv(args.car, frames)
  {
    if !args.Pair? || !IsProperList(args.cdr) || |Elements(args.cdr)| < 1 then
      (frames, Err(Error(if !args.Pair? then "exception:not-a-pair"
                         else if !IsProperList(args.cdr) then "exception:not-a-list"
                         else "exception:too-few-arguments", if !args.Pair? then args else args.cdr)))
    else
      var env := args.car;
      var name := args.cdr.car;
      var rest := args.cdr.cdr;
      if name.Pair? then
        var lambda := Closure(name.car, name.cdr, rest, env);
        (Defined(frames, name.car, lambda, env.frame), Ok(lambda))
      else if !rest.Pair? then (frames, Err(Error("exception:not-a-pair", rest)))
      else
        var value := ev(rest.car, env, frames);
        (Defined(frames, name, value, env.frame), Ok(value))
  }

  /** The `define` form. */
  method Define(st: Store, ev: Evaluator, args: Value) returns (r: Result<Value>)
    requires args.Pair? ==> IsEnv(args.car, st.frames)
    modifies st
    ensures (st.frames, r) == DefineSpec(ev, old(st.frames), args)
  {
    var tail :- Cdr(args);
    var ok := MinArgs(tail, 1);
    if ok.Err? {
      return Err(ok.error);
    }
    var env := args.car;
    var name := tail.car;
    if name.Pair? {
      var lambda := Closure(name.car, name.cdr, tail.cdr, env);
      var v := st.Define(name.car, lambda, env);
      return Ok(v);
    }
    var expr :- Car(tail.cdr);
    var value := ev(expr, env, st.frames);
    var v := st.Define(name, value, env);
    return Ok(v);
  }

  /** `(define (name . params) body...)` binds `name`, seen from the
      environment, to a procedure named `name` over `params` and the body,
      closed over that environment; no other name changes. */
  lemma DefineBindsProcedure(ev: Evaluator, frames: seq<Frame>, env: Value, name: Value, params: Value,
                             body: Value, other: Value, from: Value)
    requires IsEnv(env, frames) && IsProperList(body) && other != name
    ensures var out := DefineSpec(ev, frames, Pair(env, Pair(Pair(name, params), body)));
      out.1 == Ok(Closure(name, params, body, env)) &&
      Lookup(out.0, name, env) == Some(Closure(name, params, body, env)) &&
      Lookup(out.0, other, from) == Lookup(frames, other, from)
  {
    ElementsStep(Pair(Pair(name, params), body));
    LookupDefined(frames, name, Closure(name, params, body, env), env.frame);
    LookupDefinedOther(frames, name, Closure(name, params, body, env), env.frame, other, from);
  }

  /** `(define name expr)` binds `name` to the value of `expr` and returns
      it; no other name changes. */
  lemma DefineBindsValue(ev: Evaluator, frames: seq<Frame>, env: Value, name: Value, expr: Value,
                         other: Value, from: Value)
    requires IsEnv(env, frames) && !name.Pair? && other != name
    ensures var out := DefineSpec(ev, frames, Pair(env, Pair(name, Pair(expr, Nil))));
      var value := ev(expr, env, frames);
      out.1 == Ok(value) && Lookup(out.0, name, env) == Some(value) &&
      Lookup(out.0, other, from) == Lookup(frames, other, from)
  {
    ElementsStep(Pair(name, Pair(expr, Nil)));
    ElementsStep(Pair(expr, Nil));
    var value := ev(expr, env, frames);
    LookupDefined(frames, name, value, env.frame);
    LookupDefinedOther(frames, name, value, env.frame, other, from);
  }

  /** The store and result of `(define-variable name [expr])`: a binding is
      only made when `name` has none seen from the environment; a missing
      expression evaluates nil. */
  function DefineVariableSpec(ev: Evaluator, frames: seq<Frame>, args: Value): (out: (seq<Frame>, Result<Value>))
    requires args.Pair? ==> IsEnv(args.car, frames)
  {
    if !args.Pair? then (frames, Err(Error("exception:required-argument-missing", args)))
    else if !args.cdr.Pair? then (frames, Err(Error("exception:required-argument-missing", args.cdr)))
    else
      var env := args.car;
      var name := args.cdr.car;
      var expr := if args.cdr.cdr.Pair? then args.cdr.cdr.car else Nil;
      if Lookup(frames, name, env).None? then
        var value := ev(expr, env, frames);
        (Defined(frames, name, value, env.frame), Ok(value))
      else (frames, Ok(Nil))
  }

  /** The `define-variable` form. */
  method DefineVariable(st: Store, ev: Evaluator, args: Value) returns (r: Result<Value>)
    requires args.Pair? ==> IsEnv(args.car, st.frames)
    modifies st
    ensures (st.frames, r) == DefineVariableSpec(ev, old(st.frames), args)
  {
    var env :- PopArg(args);
    var name :- PopArg(env.1);
    var value := PopOptArg(name.1, Nil);
    if Lookup(st.frames, name.0, env.0).None? {
      var v := ev(value.0, env.0, st.frames);
      var _ := st.Define(name.0, v, env.0);
      return Ok(v);
    }
    return Ok(Nil);
  }

  /** `define-variable` never replaces a binding: when `name` is already
      bound the store is unchanged and the result is nil, otherwise the new
      value becomes visible. */
  lemma DefineVariableKeepsBinding(ev: Evaluator, frames: seq<Frame>, env: Value, name: Value, rest: Value)
    requires IsEnv(env, frames)
    ensures var out := DefineVariableSpec(ev, frames, Pair(env, Pair(name, rest)));
      (Lookup(frames, name, env).Some? ==> out == (frames, Ok(Nil))) &&
      (Lookup(frames, name, env).None? ==> out.1.Ok? && Lookup(out.0, name, env) == Some(out.1.value))
  {
    var out := DefineVariableSpec(ev, frames, Pair(env, Pair(name, rest)));
    if Lookup(frames, name, env).None? {
      LookupDefined(frames, name, out.1.value, env.frame);
    }
  }

  // ----- map, filter -----

  /** dfsch_zip as the older `map` uses it; its definition is not part of
      this model. */
  type Zipper = Value -> Value

  /** The `map` procedure: `f` applied to each zipped tuple, in order, as
      a new list; nil when the zip gives nil. */
  method Map(ap: Applier, zip: Zipper, args: Value) returns (r: Result<Value>)
    ensures r.Ok? <==> args.Pair?
    ensures r.Ok? ==> var ts := Elements(zip(args.cdr));
      r.value == List(seq(|ts|, k requires 0 <= k < |ts| => ap(args.car, ts[k])))
  {
    var func :- PopArg(args);
    var list := zip(func.1);
    if list == Nil {
      return Ok(Nil);
    }
    ghost var ts := Elements(list);
    var results: seq<Value> := [];
    var i := list;
    var n := 0;
    while i.Pair?
      invariant n <= |ts| && Elements(i) == ts[n..]
      invariant results == seq(n, k requires 0 <= k < n => ap(func.0, ts[k]))
      decreases i
    {
      assert ts[n] == i.car;
      results := results + [ap(func.0, i.car)];
      assert Elements(i.cdr) == ts[n + 1..] by { assert ts[n + 1..] == ts[n..][1..]; }
      i := i.cdr;
      n := n + 1;
    }
    return Ok(List(results));
  }

  /** Given the zip the `zip` primitive makes, the older `map` gives the
      same results as the `map` primitive. */
  lemma MapAgreesWithPrimitive(ap: Applier, zip: Zipper, f: Value, rest: Value, colls: seq<seq<Value>>,
                               zipped: seq<Value>)
    requires |colls| > 0 && |zipped| == Primitives.Shortest(colls)
    requires forall k :: 0 <= k < |zipped| ==> zipped[k] == Primitives.Tuple(colls, k)
    requires zip(rest) == List(zipped)
    ensures var ts := Elements(zip(rest));
      seq(|ts|, k requires 0 <= k < |ts| => ap(f, ts[k])) == Primitives.Results(ap, f, colls)
  {
    ListRoundTrip(zipped);
    Primitives.MapOverZip(ap, f, colls, zipped);
  }

  /** The `filter` procedure: the items of a list that `f` accepts, as a
      new list. */
  method Filter(ap: Applier, args: Value) returns (r: Result<Value>)
    ensures r.Ok? <==> IsProperList(args) && |Elements(args)| == 2
    ensures r.Ok? ==> var xs := Elements(args);
      r.value == List(Primitives.Kept(ap, xs[0], Elements(xs[1])))
  {
    ElementsStep(args);
    var func :- PopArg(args);
    ElementsStep(func.1);
    var list :- PopArg(func.1);
    ElementsStep(list.1);
    var _ :- ArgEnd(list.1);
    ghost var xs := Elements(list.0);
    var kept: seq<Value> := [];
    var i := list.0;
    var n := 0;
    while i.Pair?
      invariant n <= |xs| && Elements(i) == xs[n..]
      invariant kept == Primitives.Kept(ap, func.0, xs[..n])
      decreases i
    {
      assert xs[n] == i.car;
      assert xs[..n + 1][..n] == xs[..n];
      if ap(func.0, List([i.car])) != Nil {
        kept := kept + [i.car];
      }
      assert Elements(i.cdr) == xs[n + 1..] by { assert xs[n + 1..] == xs[n..][1..]; }
      i := i.cdr;
      n := n + 1;
    }
    assert xs[..n] == xs;
    return Ok(List(kept));
  }

  // ----- length, not -----

  /** The `length` procedure: the number of elements of a proper list; an
      improper list signals an error. */
  function Length(args: Value): (r: Result<Value>)
    ensures r.Ok? <==> IsProperList(args) && |Elements(args)| == 1 && IsProperList(Elements(args)[0])
    ensures r.Ok? ==> r.value == Int(|Elements(Elements(args)[0])|)
  {
    var _ :- NeedArgs(args, 1);
    var len := ListLength(args.car);
    if len < 0 then Err(Error("exception:not-a-list", args.car)) else Ok(Int(len))
  }

  /** The `length` of a list built from `xs` is `|xs|`. */
  lemma LengthOfList(xs: seq<Value>)
    ensures Length(List([List(xs)])) == Ok(Int(|xs|))
  {
    ListRoundTrip(xs);
    ListRoundTrip([List(xs)]);
  }

  /** The `not` procedure: true exactly for nil. */
  function Not(args: Value): (r: Result<Value>)
    ensures r.Ok? <==> IsProperList(args) && |Elements(args)| == 1
    ensures r.Ok? ==> (r.value == True <==> Elements(args)[0] == Nil) && (r.value == Nil <==> Elements(args)[0] != Nil)
  {
    var _ :- NeedArgs(args, 1);
    Ok(Bool(args.car == Nil))
  }
}
