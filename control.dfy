/** The control forms (control.c).  The macros `if`, `when`, `unless`,
    `cond`, `case` and `begin` return the expansion the evaluator goes on
    with; `quote` returns its argument; `let`, `let*`, `letrec`, named
    `let` and `do` build frames in the store and return the tail
    continuation.  Every form receives its argument list with the calling
    environment as the first element. */
module Control {
  import opened Values
  import opened Frames

  const Else: Value := Sym("else")
  const Arrow: Value := Sym("=>")
  const Quote: Value := Sym("quote")

  // ----- if, when, unless -----

  /** `(if test consequent [alternate])`: the one-element list holding the
      branch that the value of `test` selects; the alternate defaults to
      nil and anything after it is ignored. */
  function If(ev: Evaluator, frames: seq<Frame>, args: Value): (r: Result<Value>)
    ensures r.Ok? <==> |Elements(args)| >= 3
    ensures r.Ok? ==>
      var xs := Elements(args);
      r.value == List([if ev(xs[1], xs[0], frames) != Nil then xs[2]
                       else if |xs| > 3 then xs[3] else Nil])
  {
    var env :- PopArg(args);
    ElementsStep(env.1);
    var test :- PopArg(env.1);
    ElementsStep(test.1);
    var consequent :- PopArg(test.1);
    var alternate := PopOptArg(consequent.1, Nil);
    Ok(List([if ev(test.0, env.0, frames) != Nil then consequent.0 else alternate.0]))
  }

  /** `(when test body...)`: the body when `test` is true, nil otherwise. */
  function When(ev: Evaluator, frames: seq<Frame>, args: Value): (r: Result<Value>)
    ensures r.Ok? <==> |Elements(args)| >= 2
    ensures r.Ok? ==>
      var xs := Elements(args);
      if ev(xs[1], xs[0], frames) != Nil then Elements(r.value) == xs[2..] && r.value == args.cdr.cdr
      else r.value == Nil
  {
    var env :- PopArg(args);
    var test :- PopArg(env.1);
    Ok(if ev(test.0, env.0, frames) != Nil then test.1 else Nil)
  }

  /** `(unless test body...)`: the body when `test` is false, nil otherwise. */
  function Unless(ev: Evaluator, frames: seq<Frame>, args: Value): (r: Result<Value>)
    ensures r.Ok? <==> |Elements(args)| >= 2
    ensures r.Ok? ==>
      var xs := Elements(args);
      if ev(xs[1], xs[0], frames) == Nil then Elements(r.value) == xs[2..] && r.value == args.cdr.cdr
      else r.value == Nil
  {
    var env :- PopArg(args);
    var test :- PopArg(env.1);
    Ok(if ev(test.0, env.0, frames) != Nil then Nil else test.1)
  }

  /** `unless` is `when` with the branches exchanged: exactly one of them
      yields the body. */
  lemma UnlessIsWhenReversed(ev: Evaluator, frames: seq<Frame>, args: Value)
    requires |Elements(args)| >= 2
    ensures var w := When(ev, frames, args).value; var u := Unless(ev, frames, args).value;
      (w == Nil && u == args.cdr.cdr) || (u == Nil && w == args.cdr.cdr)
  {
  }

  // ----- cond -----

  /** One `cond` clause: None when its test is false, otherwise the
      expansion it selects.  A clause `(test => proc)` yields
      `((quote v))` where `v` is `proc` applied to the test's value. */
  function CondClause(ev: Evaluator, ap: Applier, frames: seq<Frame>, env: Value, c: Value)
    : (r: Result<Option<Value>>)
    ensures r == Ok(None) <==> c.Pair? && ev(c.car, env, frames) == Nil
    ensures r.Ok? && r.value.Some? ==>
      c.Pair? && c.cdr.Pair? && ev(c.car, env, frames) != Nil &&
      if c.cdr.car == Arrow then
        2 <= |Elements(c.cdr)| &&
        r.value.value == List([List([Quote, ap(ev(Elements(c.cdr)[1], env, frames),
                                                List([ev(c.car, env, frames)]))])])
      else r.value.value == c.cdr
  {
    var test :- Car(c);
    var o := ev(test, env, frames);
    if o == Nil then Ok(None)
    else
      var head :- Car(c.cdr);
      if head == Arrow then
        var procExpr :- ListItem(c.cdr, 1);
        var proc := ev(procExpr, env, frames);
        Ok(Some(List([List([Quote, ap(proc, List([o]))])])))
      else Ok(Some(c.cdr))
  }

  /** The expansion of `cond` over the clauses `cs`: the first clause whose
      test is true decides. */
  function CondClauses(ev: Evaluator, ap: Applier, frames: seq<Frame>, env: Value, cs: seq<Value>)
    : Result<Value>
  {
    if cs == [] then Ok(Nil)
    else
      match CondClause(ev, ap, frames, env, cs[0])
      case Err(e) => Err(e)
      case Ok(None) => CondClauses(ev, ap, frames, env, cs[1..])
      case Ok(Some(v)) => Ok(v)
  }

  /** The first clause with a true test decides the expansion: no later
      clause is looked at. */
  lemma {:induction false} CondFirstMatch(ev: Evaluator, ap: Applier, frames: seq<Frame>, env: Value,
                                          cs: seq<Value>, k: nat)
    requires k < |cs|
    requires forall j :: 0 <= j < k ==> CondClause(ev, ap, frames, env, cs[j]) == Ok(None)
    requires CondClause(ev, ap, frames, env, cs[k]) != Ok(None)
    ensures CondClauses(ev, ap, frames, env, cs) == CondClauses(ev, ap, frames, env, cs[k..k + 1])
  {
    if k > 0 {
      assert CondClause(ev, ap, frames, env, cs[0]) == Ok(None);
      assert cs[1..][k - 1..k] == cs[k..k + 1];
      CondFirstMatch(ev, ap, frames, env, cs[1..], k - 1);
    }
  }

  /** When every test is false the expansion is nil. */
  lemma {:induction false} CondNoMatch(ev: Evaluator, ap: Applier, frames: seq<Frame>, env: Value,
                                       cs: seq<Value>)
    requires forall j :: 0 <= j < |cs| ==> cs[j].Pair? && ev(cs[j].car, env, frames) == Nil
    ensures CondClauses(ev, ap, frames, env, cs) == Ok(Nil)
  {
    if cs != [] {
      CondNoMatch(ev, ap, frames, env, cs[1..]);
    }
  }

  /** native_macro_cond: walks the clauses after the environment. */
  method Cond(ev: Evaluator, ap: Applier, frames: seq<Frame>, args: Value) returns (r: Result<Value>)
    ensures !args.Pair? ==> r.Err?
    ensures args.Pair? ==> r == CondClauses(ev, ap, frames, args.car, Elements(args.cdr))
  {
    var env :- Car(args);
    var i := args.cdr;
    while i.Pair?
      invariant CondClauses(ev, ap, frames, env, Elements(args.cdr)) == CondClauses(ev, ap, frames, env, Elements(i))
      decreases i
    {
      var c := CondClause(ev, ap, frames, env, i.car);
      match c {
        case Err(e) => return Err(e);
        case Ok(Some(v)) => return Ok(v);
        case Ok(None) =>
      }
      i := i.cdr;
    }
    return Ok(Nil);
  }

  // ----- case -----

  /** Some datum of `data` is eqv? to `val`. */
  predicate Matches(eqv: (Value, Value) -> bool, data: seq<Value>, val: Value)
  {
    exists j :: 0 <= j < |data| && eqv(data[j], val)
  }

  /** The inner loop of `case`: whether some datum of the list `data` is
      eqv? to `val`. */
  method MemberEqv(eqv: (Value, Value) -> bool, data: Value, val: Value) returns (found: bool)
    ensures found <==> Matches(eqv, Elements(data), val)
  {
    ghost var bs := Elements(data);
    var i := data;
    var n := 0;
    while i.Pair?
      invariant n <= |bs| && Elements(i) == bs[n..]
      invariant forall j :: 0 <= j < n ==> !eqv(bs[j], val)
      decreases i
    {
      assert bs[n] == i.car;
      if eqv(i.car, val) {
        return true;
      }
      assert Elements(i.cdr) == bs[n + 1..] by { assert bs[n + 1..] == bs[n..][1..]; }
      i := i.cdr;
      n := n + 1;
    }
    return false;
  }

  /** The expansion of `case` over the clauses `cs` for the key `val`: the
      body of the first clause headed by `else` or by a datum list holding
      an element eqv? to `val`; nil when there is none. */
  function CaseClauses(eqv: (Value, Value) -> bool, val: Value, cs: seq<Value>): Result<Value>
  {
    if cs == [] then Ok(Nil)
    else if !cs[0].Pair? then Err(Error("exception:not-a-pair", cs[0]))
    else if cs[0].car == Else || Matches(eqv, Elements(cs[0].car), val) then Ok(cs[0].cdr)
    else CaseClauses(eqv, val, cs[1..])
  }

  /** A clause that selects the body. */
  predicate CaseSelects(eqv: (Value, Value) -> bool, val: Value, c: Value)
  {
    c.Pair? && (c.car == Else || Matches(eqv, Elements(c.car), val))
  }

  /** `case` continues with the body of the first selecting clause. */
  lemma {:induction false} CaseFirstMatch(eqv: (Value, Value) -> bool, val: Value, cs: seq<Value>, k: nat)
    requires k < |cs| && CaseSelects(eqv, val, cs[k])
    requires forall j :: 0 <= j < k ==> cs[j].Pair? && !CaseSelects(eqv, val, cs[j])
    ensures CaseClauses(eqv, val, cs) == Ok(cs[k].cdr)
  {
    if k > 0 {
      assert cs[1..][k - 1] == cs[k];
      CaseFirstMatch(eqv, val, cs[1..], k - 1);
    }
  }

  /** With no selecting clause `case` expands to nil. */
  lemma {:induction false} CaseNoMatch(eqv: (Value, Value) -> bool, val: Value, cs: seq<Value>)
    requires forall j :: 0 <= j < |cs| ==> cs[j].Pair? && !CaseSelects(eqv, val, cs[j])
    ensures CaseClauses(eqv, val, cs) == Ok(Nil)
  {
    if cs != [] {
      CaseNoMatch(eqv, val, cs[1..]);
    }
  }

  /** native_macro_case: evaluates the key, then walks the clauses. */
  method Case(ev: Evaluator, eqv: (Value, Value) -> bool, frames: seq<Frame>, args: Value)
    returns (r: Result<Value>)
    ensures |Elements(args)| < 2 ==> r.Err?
    ensures |Elements(args)| >= 2 ==>
      var xs := Elements(args);
      r == CaseClauses(eqv, ev(xs[1], xs[0], frames), xs[2..])
  {
    var env :- PopArg(args);
    ElementsStep(env.1);
    var key :- PopArg(env.1);
    var val := ev(key.0, env.0, frames);
    var cs := key.1;
    assert Elements(cs) == Elements(args)[2..];
    while cs.Pair?
      invariant CaseClauses(eqv, val, Elements(args)[2..]) == CaseClauses(eqv, val, Elements(cs))
      decreases cs
    {
      var c := cs.car;
      var head :- Car(c);
      if head == Else {
        return Ok(c.cdr);
      }
      var found := MemberEqv(eqv, head, val);
      if found {
        return Ok(c.cdr);
      }
      cs := cs.cdr;
    }
    return Ok(Nil);
  }

  // ----- quote, begin -----

  /** native_form_quote: the single argument after the environment,
      unevaluated; any other number of arguments is an error. */
  function QuoteForm(args: Value): (r: Result<Value>)
    ensures r.Ok? <==> IsProperList(args) && |Elements(args)| == 2
    ensures r.Ok? ==> r.value == Elements(args)[1]
  {
    var rest :- Cdr(args);
    if ListLength(rest) != 1 then Err(Error("exception:wrong-number-of-arguments", rest))
    else Car(rest)
  }

  /** native_macro_begin: the body after the environment. */
  function Begin(args: Value): (r: Result<Value>)
    ensures r.Ok? <==> args.Pair?
    ensures r.Ok? ==> Elements(r.value) == Elements(args)[1..] && Terminator(r.value) == Terminator(args)
  {
    Cdr(args)
  }

  // ----- bindings of let, letrec, let* and do -----

  /** A binding `(name init ...)` of `let`, `let*` and `letrec`, read with
      dfsch_list_item: a shorter binding is an error. */
  function LetBinding(b: Value): (r: Result<(Value, Value)>)
    ensures r.Ok? <==> |Elements(b)| >= 2
    ensures r.Ok? ==> r.value == (Elements(b)[0], Elements(b)[1])
  {
    var name :- ListItem(b, 0);
    var init :- ListItem(b, 1);
    Ok((name, init))
  }

  /** The leading bindings of `bs` that `parse` accepts: each binding loop
      stops at the first malformed binding. */
  function Parsed<T>(parse: Value -> Result<T>, bs: seq<Value>): (r: seq<T>)
    ensures |r| <= |bs|
    ensures |r| < |bs| ==> parse(bs[|r|]).Err?
  {
    if bs == [] then []
    else
      match parse(bs[0])
      case Err(_) => []
      case Ok(p) => [p] + Parsed(parse, bs[1..])
  }

  /** Where a binding loop stands after `n` well-formed bindings: either
      the next binding is parsed too, or the parsed prefix is complete. */
  lemma {:induction false} ParsedAt<T>(parse: Value -> Result<T>, bs: seq<Value>, n: nat)
    requires n <= |Parsed(parse, bs)|
    ensures n == |bs| ==> Parsed(parse, bs)[..n] == Parsed(parse, bs)
    ensures n < |bs| && parse(bs[n]).Err? ==> Parsed(parse, bs)[..n] == Parsed(parse, bs)
    ensures n < |bs| && parse(bs[n]).Ok? ==>
      n < |Parsed(parse, bs)| && Parsed(parse, bs)[n] == parse(bs[n]).value
  {
    if n > 0 {
      ParsedAt(parse, bs[1..], n - 1);
      assert bs[1..][n - 1..] == bs[n..];
    }
  }

  /** The parsed prefix is exactly the bindings `parse` accepts before the
      first one it rejects. */
  lemma {:induction false} ParsedPrefix<T>(parse: Value -> Result<T>, bs: seq<Value>)
    ensures var r := Parsed(parse, bs);
      (forall j :: 0 <= j < |r| ==> parse(bs[j]) == Ok(r[j])) &&
      (|r| < |bs| ==> parse(bs[|r|]).Err?)
  {
    if bs != [] && parse(bs[0]).Ok? {
      ParsedPrefix(parse, bs[1..]);
      var r := Parsed(parse, bs);
      assert forall j :: 0 < j < |r| ==> bs[j] == bs[1..][j - 1] && r[j] == Parsed(parse, bs[1..])[j - 1];
    }
  }

  /** The position of the last binding of `x` in `ps`, or -1 when `ps`
      does not bind it: the binding whose definition is the one that stays. */
  function LastIndexOf(ps: seq<(Value, Value)>, x: Value): (i: int)
    ensures -1 <= i < |ps|
    ensures i >= 0 ==> ps[i].0 == x && forall j :: i < j < |ps| ==> ps[j].0 != x
    ensures i < 0 ==> forall j :: 0 <= j < |ps| ==> ps[j].0 != x
  {
    if ps == [] then -1
    else if ps[|ps| - 1].0 == x then |ps| - 1
    else LastIndexOf(ps[..|ps| - 1], x)
  }

  /** A binding of another name does not move the last binding of `x`. */
  lemma LastIndexOfDrop(ps: seq<(Value, Value)>, k: nat, x: Value)
    requires k < |ps| && ps[k].0 != x
    ensures LastIndexOf(ps[..k + 1], x) == LastIndexOf(ps[..k], x)
  {
    assert ps[..k + 1][..k] == ps[..k];
  }

  /** The store after defining each `(name, expr)` of `ps` in frame `f` in
      order, each expression evaluated in `evalEnv` on the store as the
      earlier definitions left it. */
  function DefineAll(ev: Evaluator, evalEnv: Value, frames: seq<Frame>, f: nat,
                     ps: seq<(Value, Value)>): (r: seq<Frame>)
    requires f < |frames|
    ensures |r| == |frames|
  {
    if ps == [] then frames
    else
      var s := DefineAll(ev, evalEnv, frames, f, ps[..|ps| - 1]);
      var last := ps[|ps| - 1];
      Defined(s, last.0, ev(last.1, evalEnv, s), f)
  }

  /** One more binding is one more definition. */
  lemma DefineStep(ev: Evaluator, evalEnv: Value, frames: seq<Frame>, f: nat, ps: seq<(Value, Value)>,
                   n: nat, cur: seq<Frame>, val: Value)
    requires f < |frames| && n < |ps|
    requires cur == DefineAll(ev, evalEnv, frames, f, ps[..n]) && val == ev(ps[n].1, evalEnv, cur)
    ensures Defined(cur, ps[n].0, val, f) == DefineAll(ev, evalEnv, frames, f, ps[..n + 1])
  {
    assert ps[..n + 1][..n] == ps[..n];
  }

  /** The definitions touch frame `f` only, keep what it extends, and leave
      it binding its old names and every name of `ps`.  A name of `ps` is
      bound to the value of its last init, evaluated in `evalEnv` on the
      store the definitions before it left; any other name keeps its value. */
  lemma {:induction false} DefineAllFrame(ev: Evaluator, evalEnv: Value, frames: seq<Frame>, f: nat,
                                          ps: seq<(Value, Value)>)
    requires f < |frames|
    ensures var r := DefineAll(ev, evalEnv, frames, f, ps);
      r[f].parent == frames[f].parent &&
      (forall i :: 0 <= i < |frames| && i != f ==> r[i] == frames[i]) &&
      (forall x :: x in r[f].vars <==> x in frames[f].vars || x in Names(ps)) &&
      (forall x :: x in r[f].vars ==>
        var i := LastIndexOf(ps, x);
        r[f].vars[x] == if i < 0 then frames[f].vars[x]
                        else ev(ps[i].1, evalEnv, DefineAll(ev, evalEnv, frames, f, ps[..i])))
  {
    if ps != [] {
      var init := ps[..|ps| - 1];
      DefineAllFrame(ev, evalEnv, frames, f, init);
      assert Names(ps) == Names(init) + [ps[|ps| - 1].0];
    }
    DefineAllValues(ev, evalEnv, frames, f, ps);
  }

  /** The value each name of frame `f` has after the definitions. */
  lemma {:induction false} DefineAllValues(ev: Evaluator, evalEnv: Value, frames: seq<Frame>, f: nat,
                                           ps: seq<(Value, Value)>)
    requires f < |frames|
    ensures var r := DefineAll(ev, evalEnv, frames, f, ps);
      forall x :: x in r[f].vars ==>
        var i := LastIndexOf(ps, x);
        if i < 0 then x in frames[f].vars && r[f].vars[x] == frames[f].vars[x]
        else r[f].vars[x] == ev(ps[i].1, evalEnv, DefineAll(ev, evalEnv, frames, f, ps[..i]))
  {
    if ps != [] {
      var init := ps[..|ps| - 1];
      var last := ps[|ps| - 1];
      DefineAllValues(ev, evalEnv, frames, f, init);
      var r := DefineAll(ev, evalEnv, frames, f, ps);
      forall x | x in r[f].vars && x != last.0
        ensures LastIndexOf(ps, x) == LastIndexOf(init, x)
        ensures LastIndexOf(ps, x) >= 0 ==> init[..LastIndexOf(ps, x)] == ps[..LastIndexOf(ps, x)]
      {
      }
    }
  }

  /** What a binding loop leaves: the store, and the error that stopped it
      at a malformed binding. */
  function Bindings(ev: Evaluator, parse: Value -> Result<(Value, Value)>, evalEnv: Value,
                    frames: seq<Frame>, f: nat, bs: seq<Value>): (seq<Frame>, Result<()>)
    requires f < |frames|
  {
    var ps := Parsed(parse, bs);
    (DefineAll(ev, evalEnv, frames, f, ps), if |ps| < |bs| then Err(parse(bs[|ps|]).error) else Ok(()))
  }

  /** The loop that defines every binding of the list `vars` in frame `f`,
      evaluating each init in `evalEnv` (the loops of `let`, `letrec` and
      the two loops of `do`). */
  method DefineBindings(st: Store, ev: Evaluator, parse: Value -> Result<(Value, Value)>,
                        evalEnv: Value, f: nat, vars: Value) returns (r: Result<()>)
    requires f < |st.frames|
    modifies st
    ensures (st.frames, r) == Bindings(ev, parse, evalEnv, old(st.frames), f, Elements(vars))
  {
    ghost var bs := Elements(vars);
    ghost var ps := Parsed(parse, bs);
    var i := vars;
    var n := 0;
    while i.Pair?
      invariant n <= |ps| && Elements(i) == bs[n..]
      invariant st.frames == DefineAll(ev, evalEnv, old(st.frames), f, ps[..n])
      decreases i
    {
      assert bs[n] == i.car;
      ParsedAt(parse, bs, n);
      var b := parse(i.car);
      if b.Err? {
        return Err(b.error);
      }
      var val := ev(b.value.1, evalEnv, st.frames);
      DefineStep(ev, evalEnv, old(st.frames), f, ps, n, st.frames, val);
      var _ := st.Define(b.value.0, val, Env(f));
      assert Elements(i.cdr) == bs[n + 1..] by { assert bs[n + 1..] == bs[n..][1..]; }
      i := i.cdr;
      n := n + 1;
    }
    ParsedAt(parse, bs, n);
    return Ok(());
  }

  // ----- let, letrec -----

  /** The names and the values of the inits of `ps`, evaluated in `env`. */
  function Names(ps: seq<(Value, Value)>): (r: seq<Value>)
    ensures |r| == |ps| && forall j :: 0 <= j < |ps| ==> r[j] == ps[j].0
  {
    seq(|ps|, j requires 0 <= j < |ps| => ps[j].0)
  }

  function Inits(ev: Evaluator, env: Value, frames: seq<Frame>, ps: seq<(Value, Value)>): (r: seq<Value>)
    ensures |r| == |ps| && forall j :: 0 <= j < |ps| ==> r[j] == ev(ps[j].1, env, frames)
  {
    seq(|ps|, j requires 0 <= j < |ps| => ev(ps[j].1, env, frames))
  }

  lemma NamesStep(ps: seq<(Value, Value)>, n: nat)
    requires n < |ps|
    ensures Names(ps[..n + 1]) == Names(ps[..n]) + [ps[n].0]
  {
  }

  lemma InitsStep(ev: Evaluator, env: Value, frames: seq<Frame>, ps: seq<(Value, Value)>, n: nat)
    requires n < |ps|
    ensures Inits(ev, env, frames, ps[..n + 1]) == Inits(ev, env, frames, ps[..n]) + [ev(ps[n].1, env, frames)]
  {
  }

  /** native_form_let.  A symbol in place of the binding list makes a
      named let: the frame binds the name to a lambda over the binding
      names, and the form continues with that lambda applied to the inits,
      all evaluated in the outer environment.  Otherwise every init is
      evaluated in the outer environment and bound in one new frame. */
  function LetSpec(ev: Evaluator, frames: seq<Frame>, args: Value): (seq<Frame>, Result<Next>)
  {
    if ListLength(args) < 2 then (frames, Err(Error("exception:too-few-arguments", args)))
    else
      ElementsStep(args);
      ElementsStep(args.cdr);
      var env := args.car;
      var vars := args.cdr.car;
      var code := args.cdr.cdr;
      var ext := Env(|frames|);
      var s1 := frames + [Frame(map[], env)];
      if vars.Sym? then
        if !code.Pair? then (s1, Err(Error("exception:not-a-pair", code)))
        else
          var bs := Elements(code.car);
          var ps := Parsed(LetBinding, bs);
          if |ps| < |bs| then (s1, Err(LetBinding(bs[|ps|]).error))
          else
            var lambda := Closure(vars, List(Names(ps)), code.cdr, ext);
            (Defined(s1, vars, lambda, |frames|), Ok(Apply(lambda, List(Inits(ev, env, s1, ps)))))
      else
        var (s2, res) := Bindings(ev, LetBinding, env, s1, |frames|, Elements(vars));
        (s2, if res.Err? then Err(res.error) else Ok(Body(code, ext)))
  }

  /** The loop of named `let`: the variable list and the values of the
      inits, all evaluated in the outer environment `env`. */
  method NamedLetArguments(ev: Evaluator, env: Value, frames: seq<Frame>, bindings: Value)
    returns (names: seq<Value>, vals: seq<Value>, r: Result<()>)
    ensures var bs := Elements(bindings); var ps := Parsed(LetBinding, bs);
      r == (if |ps| < |bs| then Err(LetBinding(bs[|ps|]).error) else Ok(())) &&
      (r.Ok? ==> names == Names(ps) && vals == Inits(ev, env, frames, ps))
  {
    ghost var bs := Elements(bindings);
    ghost var ps := Parsed(LetBinding, bs);
    names := [];
    vals := [];
    var i := bindings;
    var n := 0;
    while i.Pair?
      invariant n <= |ps| && Elements(i) == bs[n..]
      invariant names == Names(ps[..n]) && vals == Inits(ev, env, frames, ps[..n])
      decreases i
    {
      assert bs[n] == i.car;
      ParsedAt(LetBinding, bs, n);
      var b := LetBinding(i.car);
      if b.Err? {
        return names, vals, Err(b.error);
      }
      NamesStep(ps, n);
      InitsStep(ev, env, frames, ps, n);
      names := names + [b.value.0];
      vals := vals + [ev(b.value.1, env, frames)];
      assert Elements(i.cdr) == bs[n + 1..] by { assert bs[n + 1..] == bs[n..][1..]; }
      i := i.cdr;
      n := n + 1;
    }
    ParsedAt(LetBinding, bs, n);
    return names, vals, Ok(());
  }

  method Let(st: Store, ev: Evaluator, args: Value) returns (r: Result<Next>)
    modifies st
    ensures (st.frames, r) == LetSpec(ev, old(st.frames), args)
  {
    if ListLength(args) < 2 {
      return Err(Error("exception:too-few-arguments", args));
    }
    ElementsStep(args);
    ElementsStep(args.cdr);
    var env := args.car;
    var vars := args.cdr.car;
    var code := args.cdr.cdr;
    var ext := st.NewFrame(env);
    if vars.Sym? {
      var name := vars;
      if !code.Pair? {
        return Err(Error("exception:not-a-pair", code));
      }
      var bindings := code.car;
      code := code.cdr;
      var names, vals, res := NamedLetArguments(ev, env, st.frames, bindings);
      if res.Err? {
        return Err(res.error);
      }
      var lambda := Closure(name, List(names), code, ext);
      var _ := st.Define(name, lambda, ext);
      return Ok(Apply(lambda, List(vals)));
    }
    var res := DefineBindings(st, ev, LetBinding, env, ext.frame, vars);
    if res.Err? {
      return Err(res.error);
    }
    return Ok(Body(code, ext));
  }

  /** A plain `let` adds exactly one frame, over the outer environment, and
      it binds exactly the names of the bindings, each to its (last) init
      evaluated in the outer environment; the body runs in the new frame. */
  lemma LetBindsOneFrame(ev: Evaluator, frames: seq<Frame>, args: Value)
    requires LetSpec(ev, frames, args).1.Ok? && LetSpec(ev, frames, args).1.value.Body?
    ensures var (s, r) := LetSpec(ev, frames, args); var xs := Elements(args);
      |Elements(args)| >= 2 &&
      |s| == |frames| + 1 && s[..|frames|] == frames && s[|frames|].parent == xs[0] &&
      r.value.Body? && r.value.env == Env(|frames|) &&
      var ps := Parsed(LetBinding, Elements(xs[1]));
      var s1 := frames + [Frame(map[], xs[0])];
      (forall x :: x in s[|frames|].vars <==> x in Names(ps)) &&
      forall x :: x in s[|frames|].vars ==>
        var i := LastIndexOf(ps, x);
        0 <= i && s[|frames|].vars[x] == ev(ps[i].1, xs[0], DefineAll(ev, xs[0], s1, |frames|, ps[..i]))
  {
    ElementsStep(args);
    ElementsStep(args.cdr);
    var env := args.car;
    var s1 := frames + [Frame(map[], env)];
    var ps := Parsed(LetBinding, Elements(args.cdr.car));
    var s := DefineAll(ev, env, s1, |frames|, ps);
    assert LetSpec(ev, frames, args).0 == s;
    DefineAllFrame(ev, env, s1, |frames|, ps);
    assert s[..|frames|] == frames by {
      assert s[..|frames|] == s1[..|frames|];
    }
  }

  /** A name the `let` does not bind is looked up in the outer environment,
      as if the new frame were not there. */
  lemma LetFallsBack(ev: Evaluator, frames: seq<Frame>, args: Value, x: Value)
    requires LetSpec(ev, frames, args).1.Ok? && LetSpec(ev, frames, args).1.value.Body?
    requires |Elements(args)| >= 2 && x !in Names(Parsed(LetBinding, Elements(Elements(args)[1])))
    requires !Elements(args)[0].Env? || Elements(args)[0].frame < |frames|
    ensures var s := LetSpec(ev, frames, args).0;
      Lookup(s, x, Env(|frames|)) == Lookup(frames, x, Elements(args)[0])
  {
    LetBindsOneFrame(ev, frames, args);
    var s := LetSpec(ev, frames, args).0;
    assert s == frames + [s[|frames|]];
    NewFrameLookup(frames, s[|frames|].vars, Elements(args)[0], x);
  }

  /** The lambda a named `let` binds: named by the let, over the binding
      names, closing over the let's new frame. */
  function NamedLetLambda(frames: seq<Frame>, args: Value): Value
    requires |Elements(args)| >= 3
  {
    ElementsStep(args);
    ElementsStep(args.cdr);
    ElementsStep(args.cdr.cdr);
    var code := args.cdr.cdr;
    Closure(args.cdr.car, List(Names(Parsed(LetBinding, Elements(code.car)))), code.cdr, Env(|frames|))
  }

  /** What a successful named `let` leaves: the store with one new frame
      binding only the let's name, and the call of the lambda. */
  lemma NamedLetShape(ev: Evaluator, frames: seq<Frame>, args: Value)
    requires LetSpec(ev, frames, args).1.Ok? && LetSpec(ev, frames, args).1.value.Apply?
    ensures |Elements(args)| >= 3 && Elements(args)[1].Sym?
    ensures var xs := Elements(args); var lambda := NamedLetLambda(frames, args);
      LetSpec(ev, frames, args)
        == (frames + [Frame(map[xs[1] := lambda], xs[0])],
            Ok(Apply(lambda, List(Inits(ev, xs[0], frames + [Frame(map[], xs[0])],
                                        Parsed(LetBinding, Elements(xs[2])))))))
  {
    ElementsStep(args);
    ElementsStep(args.cdr);
    ElementsStep(args.cdr.cdr);
    DefineInNew(frames, args.car, args.cdr.car, NamedLetLambda(frames, args));
  }

  /** A named `let` binds, in its one new frame, just its name, to a lambda
      that closes over that frame and takes the binding names as its
      parameters; the call passes the inits' values in order. */
  lemma NamedLetBindsLambda(ev: Evaluator, frames: seq<Frame>, args: Value)
    requires LetSpec(ev, frames, args).1.Ok? && LetSpec(ev, frames, args).1.value.Apply?
    ensures var (s, r) := LetSpec(ev, frames, args); var lambda := r.value.proc;
      var xs := Elements(args);
      |xs| >= 3 && xs[1].Sym? &&
      |s| == |frames| + 1 && s[..|frames|] == frames && s[|frames|].parent == xs[0] &&
      lambda == Closure(xs[1], lambda.params, lambda.body, Env(|frames|)) &&
      s[|frames|].vars == map[xs[1] := lambda] &&
      Lookup(s, xs[1], Env(|frames|)) == Some(lambda) &&
      var ps := Parsed(LetBinding, Elements(xs[2]));
      Elements(lambda.params) == Names(ps) &&
      Elements(r.value.args) == Inits(ev, xs[0], frames + [Frame(map[], xs[0])], ps)
  {
    NamedLetShape(ev, frames, args);
    var xs := Elements(args);
    var ps := Parsed(LetBinding, Elements(xs[2]));
    var s1 := frames + [Frame(map[], xs[0])];
    var lambda := NamedLetLambda(frames, args);
    var s := frames + [Frame(map[xs[1] := lambda], xs[0])];
    assert s[..|frames|] == frames;
    assert Lookup(s, xs[1], Env(|frames|)) == Some(lambda);
    assert xs[1] == args.cdr.car && xs[2] == args.cdr.cdr.car by {
      ElementsStep(args);
      ElementsStep(args.cdr);
      ElementsStep(args.cdr.cdr);
    }
    ListRoundTrip(Names(ps));
    ListRoundTrip(Inits(ev, xs[0], s1, ps));
  }

  /** native_form_letrec: like `let`, but every init is evaluated in the
      new frame itself, so it sees the bindings made before it. */
  function LetrecSpec(ev: Evaluator, frames: seq<Frame>, args: Value): (seq<Frame>, Result<Next>)
  {
    if ListLength(args) < 2 then (frames, Err(Error("exception:too-few-arguments", args)))
    else
      ElementsStep(args);
      ElementsStep(args.cdr);
      var ext := Env(|frames|);
      var (s, res) := Bindings(ev, LetBinding, ext, frames + [Frame(map[], args.car)], |frames|,
                               Elements(args.cdr.car));
      (s, if res.Err? then Err(res.error) else Ok(Body(args.cdr.cdr, ext)))
  }

  method Letrec(st: Store, ev: Evaluator, args: Value) returns (r: Result<Next>)
    modifies st
    ensures (st.frames, r) == LetrecSpec(ev, old(st.frames), args)
  {
    if ListLength(args) < 2 {
      return Err(Error("exception:too-few-arguments", args));
    }
    ElementsStep(args);
    ElementsStep(args.cdr);
    var ext := st.NewFrame(args.car);
    var res := DefineBindings(st, ev, LetBinding, ext, ext.frame, args.cdr.car);
    if res.Err? {
      return Err(res.error);
    }
    return Ok(Body(args.cdr.cdr, ext));
  }

  /** A `letrec` adds exactly one frame, over the outer environment, binding
      exactly the names of the bindings; unlike `let`, each init is
      evaluated in that new frame itself, on the store the definitions
      before it left, and the body runs there too. */
  lemma LetrecBindsOneFrame(ev: Evaluator, frames: seq<Frame>, args: Value)
    requires LetrecSpec(ev, frames, args).1.Ok?
    ensures var (s, r) := LetrecSpec(ev, frames, args); var xs := Elements(args);
      |Elements(args)| >= 2 &&
      |s| == |frames| + 1 && s[..|frames|] == frames && s[|frames|].parent == xs[0] &&
      r.value.Body? && r.value.env == Env(|frames|) &&
      var ps := Parsed(LetBinding, Elements(xs[1]));
      var s1 := frames + [Frame(map[], xs[0])];
      (forall x :: x in s[|frames|].vars <==> x in Names(ps)) &&
      forall x :: x in s[|frames|].vars ==>
        var i := LastIndexOf(ps, x);
        0 <= i &&
        s[|frames|].vars[x] == ev(ps[i].1, Env(|frames|), DefineAll(ev, Env(|frames|), s1, |frames|, ps[..i]))
  {
    ElementsStep(args);
    ElementsStep(args.cdr);
    var ext := Env(|frames|);
    var s1 := frames + [Frame(map[], args.car)];
    var ps := Parsed(LetBinding, Elements(args.cdr.car));
    var s := DefineAll(ev, ext, s1, |frames|, ps);
    assert LetrecSpec(ev, frames, args).0 == s;
    DefineAllFrame(ev, ext, s1, |frames|, ps);
    assert s[..|frames|] == frames by {
      assert s[..|frames|] == s1[..|frames|];
    }
  }

  /** What the `k`-th init of a `letrec` sees: every name bound by an
      earlier binding reads, from the new frame, as the value of its latest
      definition so far. */
  lemma LetrecSeesEarlier(ev: Evaluator, frames: seq<Frame>, args: Value, k: nat, x: Value)
    requires |Elements(args)| >= 2
    requires var ps := Parsed(LetBinding, Elements(Elements(args)[1]));
      k <= |ps| && LastIndexOf(ps[..k], x) >= 0
    ensures var xs := Elements(args); var ps := Parsed(LetBinding, Elements(xs[1]));
      var s1 := frames + [Frame(map[], xs[0])]; var ext := Env(|frames|);
      var i := LastIndexOf(ps[..k], x);
      i < k &&
      Lookup(DefineAll(ev, ext, s1, |frames|, ps[..k]), x, ext)
        == Some(ev(ps[i].1, ext, DefineAll(ev, ext, s1, |frames|, ps[..i])))
  {
    var xs := Elements(args);
    var ps := Parsed(LetBinding, Elements(xs[1]));
    var s1 := frames + [Frame(map[], xs[0])];
    var ext := Env(|frames|);
    var i := LastIndexOf(ps[..k], x);
    DefineAllFrame(ev, ext, s1, |frames|, ps[..k]);
    assert x in Names(ps[..k]);
    assert ps[..k][..i] == ps[..i];
  }

  // ----- let* -----

  /** The frames `let*` adds for the bindings `ps`, one per binding, each
      extending the one before (the first extends `env`), with each init
      evaluated in the environment built so far; and that innermost
      environment. */
  function StarBindings(ev: Evaluator, env: Value, frames: seq<Frame>, ps: seq<(Value, Value)>)
    : (r: (seq<Frame>, Value))
    ensures |r.0| == |frames| + |ps| && r.0[..|frames|] == frames
    ensures r.1 == if ps == [] then env else Env(|frames| + |ps| - 1)
  {
    if ps == [] then (frames, env)
    else
      var (s, e) := StarBindings(ev, env, frames, ps[..|ps| - 1]);
      var last := ps[|ps| - 1];
      (s + [Frame(map[last.0 := ev(last.1, e, s)], e)], Env(|s|))
  }

  /** The value `let*` binds for binding `i`: its init evaluated in the
      environment and on the store the bindings before it built. */
  function StarValue(ev: Evaluator, env: Value, frames: seq<Frame>, ps: seq<(Value, Value)>, i: nat): Value
    requires i < |ps|
  {
    var (si, ei) := StarBindings(ev, env, frames, ps[..i]);
    ev(ps[i].1, ei, si)
  }

  /** The frames the first `m` bindings of `let*` add are the frames that
      `let*` over just those bindings adds: later bindings only append. */
  lemma {:induction false} StarPrefix(ev: Evaluator, env: Value, frames: seq<Frame>,
                                      ps: seq<(Value, Value)>, m: nat)
    requires m <= |ps|
    ensures StarBindings(ev, env, frames, ps).0[..|frames| + m] == StarBindings(ev, env, frames, ps[..m]).0
  {
    if m < |ps| {
      var init := ps[..|ps| - 1];
      var s0 := StarBindings(ev, env, frames, init).0;
      var s := StarBindings(ev, env, frames, ps).0;
      assert s[..|s0|] == s0;
      StarPrefix(ev, env, frames, init, m);
      assert init[..m] == ps[..m];
      assert s[..|frames| + m] == s0[..|frames| + m];
    } else {
      assert ps[..m] == ps;
    }
  }

  /** The frame of the last binding of `let*` binds its name to its value
      and extends the environment the bindings before it built. */
  lemma StarLastFrame(ev: Evaluator, env: Value, frames: seq<Frame>, q: seq<(Value, Value)>)
    requires q != []
    ensures var k := |q| - 1;
      StarBindings(ev, env, frames, q).0[|frames| + k]
        == Frame(map[q[k].0 := StarValue(ev, env, frames, q, k)], StarBindings(ev, env, frames, q[..k]).1)
  {
  }

  /** The frame of binding `k` is the one `let*` over the first `k + 1`
      bindings makes last. */
  lemma StarFrameAt(ev: Evaluator, env: Value, frames: seq<Frame>, ps: seq<(Value, Value)>, k: nat)
    requires k < |ps|
    ensures StarBindings(ev, env, frames, ps).0[|frames| + k] == StarBindings(ev, env, frames, ps[..k + 1]).0[|frames| + k]
  {
    StarPrefix(ev, env, frames, ps, k + 1);
    var s := StarBindings(ev, env, frames, ps).0;
    assert s[|frames| + k] == s[..|frames| + k + 1][|frames| + k];
  }

  /** `let*` makes one frame per binding, binding just that name to its
      init evaluated in the environment and store the earlier bindings
      built, and each frame extends the one made before it. */
  lemma StarFrames(ev: Evaluator, env: Value, frames: seq<Frame>, ps: seq<(Value, Value)>, k: nat)
    requires k < |ps|
    ensures var s := StarBindings(ev, env, frames, ps).0;
      s[|frames| + k].parent == (if k == 0 then env else Env(|frames| + k - 1)) &&
      s[|frames| + k].parent == StarBindings(ev, env, frames, ps[..k]).1 &&
      s[|frames| + k].vars == map[ps[k].0 := StarValue(ev, env, frames, ps, k)]
  {
    var q := ps[..k + 1];
    StarFrameAt(ev, env, frames, ps, k);
    StarLastFrame(ev, env, frames, q);
    assert q[..k] == ps[..k] && q[k] == ps[k];
    assert StarValue(ev, env, frames, q, k) == StarValue(ev, env, frames, ps, k);
  }

  /** One more binding adds one frame: a new frame over the environment
      built so far, then the definition in it. */
  lemma StarStep(ev: Evaluator, env: Value, frames: seq<Frame>, ps: seq<(Value, Value)>, n: nat,
                 cur: seq<Frame>, ext: Value, val: Value)
    requires n < |ps|
    requires (cur, ext) == StarBindings(ev, env, frames, ps[..n]) && val == ev(ps[n].1, ext, cur)
    ensures (Defined(cur + [Frame(map[], ext)], ps[n].0, val, |cur|), Env(|cur|))
         == StarBindings(ev, env, frames, ps[..n + 1])
  {
    assert ps[..n + 1][..n] == ps[..n];
    DefineInNew(cur, ext, ps[n].0, val);
  }

  /** native_form_let_seq */
  function LetStarSpec(ev: Evaluator, frames: seq<Frame>, args: Value): (seq<Frame>, Result<Next>)
  {
    if ListLength(args) < 2 then (frames, Err(Error("exception:too-few-arguments", args)))
    else
      ElementsStep(args);
      ElementsStep(args.cdr);
      var bs := Elements(args.cdr.car);
      var ps := Parsed(LetBinding, bs);
      var (s, e) := StarBindings(ev, args.car, frames, ps);
      (s, if |ps| < |bs| then Err(LetBinding(bs[|ps|]).error) else Ok(Body(args.cdr.cdr, e)))
  }

  /** The loop of `let*`: each binding gets a new frame over the
      environment built so far, its init evaluated in that environment. */
  method BindInSequence(st: Store, ev: Evaluator, env: Value, vars: Value) returns (ext: Value, r: Result<()>)
    modifies st
    ensures var bs := Elements(vars); var ps := Parsed(LetBinding, bs);
      (st.frames, ext) == StarBindings(ev, env, old(st.frames), ps) &&
      r == if |ps| < |bs| then Err(LetBinding(bs[|ps|]).error) else Ok(())
  {
    ext := env;
    ghost var bs := Elements(vars);
    ghost var ps := Parsed(LetBinding, bs);
    var i := vars;
    var n := 0;
    while i.Pair?
      invariant n <= |ps| && Elements(i) == bs[n..]
      invariant (st.frames, ext) == StarBindings(ev, env, old(st.frames), ps[..n])
      decreases i
    {
      assert bs[n] == i.car;
      ParsedAt(LetBinding, bs, n);
      var b := LetBinding(i.car);
      if b.Err? {
        return ext, Err(b.error);
      }
      var val := ev(b.value.1, ext, st.frames);
      StarStep(ev, env, old(st.frames), ps, n, st.frames, ext, val);
      ext := st.NewFrame(ext);
      var _ := st.Define(b.value.0, val, ext);
      assert Elements(i.cdr) == bs[n + 1..] by { assert bs[n + 1..] == bs[n..][1..]; }
      i := i.cdr;
      n := n + 1;
    }
    ParsedAt(LetBinding, bs, n);
    return ext, Ok(());
  }

  method LetStar(st: Store, ev: Evaluator, args: Value) returns (r: Result<Next>)
    modifies st
    ensures (st.frames, r) == LetStarSpec(ev, old(st.frames), args)
  {
    if ListLength(args) < 2 {
      return Err(Error("exception:too-few-arguments", args));
    }
    ElementsStep(args);
    ElementsStep(args.cdr);
    var ext, res := BindInSequence(st, ev, args.car, args.cdr.car);
    if res.Err? {
      return Err(res.error);
    }
    return Ok(Body(args.cdr.cdr, ext));
  }

  /** Every name bound by `let*` so far is visible from the environment it
      has built, and reads as its latest binding: each init sees all the
      earlier bindings, a later one shadowing an earlier one of the same
      name. */
  lemma {:induction false} StarScope(ev: Evaluator, env: Value, frames: seq<Frame>,
                                     ps: seq<(Value, Value)>, j: nat, k: nat)
    requires j <= k < |ps|
    ensures var i := LastIndexOf(ps[..k + 1], ps[j].0);
      j <= i <= k &&
      Lookup(StarBindings(ev, env, frames, ps).0, ps[j].0, Env(|frames| + k)) == Some(StarValue(ev, env, frames, ps, i))
    decreases k
  {
    var x := ps[j].0;
    StarFrameLookup(ev, env, frames, ps, k, x);
    if ps[k].0 != x {
      LastIndexOfDrop(ps, k, x);
      StarScope(ev, env, frames, ps, j, k - 1);
      var s := StarBindings(ev, env, frames, ps).0;
      assert Lookup(s, x, Env(|frames| + k)) == Lookup(s, x, Env(|frames| + k - 1));
    }
  }

  /** A lookup from the frame of binding `k` of `let*` finds that binding's
      value for its own name, and otherwise continues in the frame before. */
  lemma StarFrameLookup(ev: Evaluator, env: Value, frames: seq<Frame>, ps: seq<(Value, Value)>, k: nat, x: Value)
    requires k < |ps|
    ensures var s := StarBindings(ev, env, frames, ps).0;
      if x == ps[k].0 then
        LastIndexOf(ps[..k + 1], x) == k && Lookup(s, x, Env(|frames| + k)) == Some(StarValue(ev, env, frames, ps, k))
      else k > 0 ==> Lookup(s, x, Env(|frames| + k)) == Lookup(s, x, Env(|frames| + k - 1))
  {
    StarFrames(ev, env, frames, ps, k);
  }

  // ----- do -----

  /** A variable clause `(name init [step])` of `do`; without a step the
      name itself is the step, which keeps the variable's value. */
  function DoBinding(b: Value): (r: Result<(Value, Value, Value)>)
    ensures r.Ok? <==> |Elements(b)| >= 2
    ensures r.Ok? ==>
      var xs := Elements(b);
      r.value == (xs[0], xs[1], if |xs| >= 3 then xs[2] else xs[0])
  {
    var name :- PopArg(b);
    ElementsStep(name.1);
    var init :- PopArg(name.1);
    var step := PopOptArg(init.1, name.0);
    Ok((name.0, init.0, step.0))
  }

  /** The clause read by the first loop of `do`: name and init. */
  function DoInit(b: Value): (r: Result<(Value, Value)>)
    ensures r.Ok? <==> DoBinding(b).Ok?
    ensures r.Ok? ==> r.value == (DoBinding(b).value.0, DoBinding(b).value.1)
  {
    var t :- DoBinding(b);
    Ok((t.0, t.1))
  }

  /** The clause read by the loop of each iteration: name and step. */
  function DoStep(b: Value): (r: Result<(Value, Value)>)
    ensures r.Ok? <==> DoBinding(b).Ok?
    ensures r.Ok? ==> r.value == (DoBinding(b).value.0, DoBinding(b).value.2)
  {
    var t :- DoBinding(b);
    Ok((t.0, t.2))
  }

  /** The iterations of `do` from the store `frames` and the loop frame
      `lenv`: while `test` is nil, a fresh frame over `env` receives every
      variable's step evaluated in the previous loop frame.  The result is
      the store and the loop frame in which the test came out true, or None
      when that takes more than `fuel` iterations. */
  function DoIterate(ev: Evaluator, env: Value, vars: Value, test: Value, frames: seq<Frame>, lenv: Value,
                     fuel: nat): Option<(seq<Frame>, Result<Value>)>
    decreases fuel
  {
    if ev(test, lenv, frames) != Nil then Some((frames, Ok(lenv)))
    else if fuel == 0 then None
    else
      var (s, res) := Bindings(ev, DoStep, lenv, frames + [Frame(map[], env)], |frames|, Elements(vars));
      if res.Err? then Some((s, Err(res.error)))
      else DoIterate(ev, env, vars, test, s, Env(|frames|), fuel - 1)
  }

  /** The header of `do`: environment, variable clauses, and the test
      clause split into its test and its result expressions. */
  function DoHeader(args: Value): (r: Result<(Value, Value, Value, Value)>)
    ensures r.Ok? <==> |Elements(args)| >= 3 && Elements(args)[2].Pair?
    ensures r.Ok? ==>
      var xs := Elements(args);
      r.value == (xs[0], xs[1], xs[2].car, xs[2].cdr)
  {
    var env :- PopArg(args);
    ElementsStep(env.1);
    var vars :- PopArg(env.1);
    ElementsStep(vars.1);
    var test :- PopArg(vars.1);
    var exprs :- Cdr(test.0);
    Ok((env.0, vars.0, test.0.car, exprs))
  }

  /** native_form_do, with at most `fuel` iterations: None when the test
      has not come out true by then. */
  function DoSpec(ev: Evaluator, frames: seq<Frame>, args: Value, fuel: nat): Option<(seq<Frame>, Result<Next>)>
  {
    match DoHeader(args)
    case Err(e) => Some((frames, Err(e)))
    case Ok((env, vars, test, exprs)) =>
      var (s, res) := Bindings(ev, DoInit, env, frames + [Frame(map[], env)], |frames|, Elements(vars));
      if res.Err? then Some((s, Err(res.error)))
      else
        match DoIterate(ev, env, vars, test, s, Env(|frames|), fuel)
        case None => None
        case Some((s', Err(e))) => Some((s', Err(e)))
        case Some((s', Ok(lenv))) => Some((s', Ok(Body(exprs, lenv))))
  }

  method Do(st: Store, ev: Evaluator, args: Value, fuel: nat) returns (r: Option<Result<Next>>)
    modifies st
    ensures r.None? <==> DoSpec(ev, old(st.frames), args, fuel).None?
    ensures r.Some? ==> DoSpec(ev, old(st.frames), args, fuel) == Some((st.frames, r.value))
  {
    var header := DoHeader(args);
    if header.Err? {
      return Some(Err(header.error));
    }
    var (env, vars, test, exprs) := header.value;
    var lenv := st.NewFrame(env);
    var res := DefineBindings(st, ev, DoInit, env, lenv.frame, vars);
    if res.Err? {
      return Some(Err(res.error));
    }
    ghost var start := st.frames;
    var left := fuel;
    while ev(test, lenv, st.frames) == Nil
      invariant DoIterate(ev, env, vars, test, start, Env(|old(st.frames)|), fuel)
             == DoIterate(ev, env, vars, test, st.frames, lenv, left)
      decreases left
    {
      if left == 0 {
        return None;
      }
      var nenv := st.NewFrame(env);
      var res := DefineBindings(st, ev, DoStep, lenv, nenv.frame, vars);
      if res.Err? {
        return Some(Err(res.error));
      }
      lenv := nenv;
      left := left - 1;
    }
    return Some(Ok(Body(exprs, lenv)));
  }

  /** A binding loop run in a frame just made over `parent` leaves the
      frames before it alone and binds in the new frame exactly the parsed
      names, each to its last init evaluated in `evalEnv` on the store the
      definitions before it left. */
  lemma BindingsNewFrame(ev: Evaluator, parse: Value -> Result<(Value, Value)>, evalEnv: Value,
                         frames: seq<Frame>, parent: Value, bs: seq<Value>)
    ensures var s1 := frames + [Frame(map[], parent)];
      var ps := Parsed(parse, bs);
      var s := Bindings(ev, parse, evalEnv, s1, |frames|, bs).0;
      |s| == |frames| + 1 && s[..|frames|] == frames && s[|frames|].parent == parent &&
      (forall x :: x in s[|frames|].vars <==> x in Names(ps)) &&
      forall x :: x in s[|frames|].vars ==>
        var i := LastIndexOf(ps, x);
        0 <= i && s[|frames|].vars[x] == ev(ps[i].1, evalEnv, DefineAll(ev, evalEnv, s1, |frames|, ps[..i]))
  {
    var s1 := frames + [Frame(map[], parent)];
    var ps := Parsed(parse, bs);
    DefineAllFrame(ev, evalEnv, s1, |frames|, ps);
    var s := DefineAll(ev, evalEnv, s1, |frames|, ps);
    assert s[..|frames|] == s1[..|frames|];
  }

  /** The first loop of `do`: one fresh frame over `env` binding exactly
      the variable names, each to its init evaluated in `env`. */
  lemma DoInitFrame(ev: Evaluator, frames: seq<Frame>, args: Value)
    requires DoHeader(args).Ok?
    ensures var (env, vars, test, exprs) := DoHeader(args).value;
      var s1 := frames + [Frame(map[], env)];
      var ps := Parsed(DoInit, Elements(vars));
      var s := Bindings(ev, DoInit, env, s1, |frames|, Elements(vars)).0;
      |s| == |frames| + 1 && s[..|frames|] == frames && s[|frames|].parent == env &&
      (forall x :: x in s[|frames|].vars <==> x in Names(ps)) &&
      forall x :: x in s[|frames|].vars ==>
        var i := LastIndexOf(ps, x);
        0 <= i && DoBinding(Elements(vars)[i]).Ok? && ps[i] == (DoBinding(Elements(vars)[i]).value.0, DoBinding(Elements(vars)[i]).value.1) &&
        s[|frames|].vars[x] == ev(ps[i].1, env, DefineAll(ev, env, s1, |frames|, ps[..i]))
  {
    var (env, vars, test, exprs) := DoHeader(args).value;
    BindingsNewFrame(ev, DoInit, env, frames, env, Elements(vars));
    ParsedPrefix(DoInit, Elements(vars));
  }

  /** One iteration of `do`: while the test is nil in the loop frame
      `lenv`, the loop goes on from a store with one fresh frame over `env`
      binding exactly the variable names, each to its step evaluated in
      `lenv`, the previous loop frame. */
  lemma DoStepFrame(ev: Evaluator, env: Value, vars: Value, test: Value,
                    frames: seq<Frame>, lenv: Value, fuel: nat)
    ensures var s1 := frames + [Frame(map[], env)];
      var ps := Parsed(DoStep, Elements(vars));
      var (s, res) := Bindings(ev, DoStep, lenv, s1, |frames|, Elements(vars));
      (ev(test, lenv, frames) == Nil && fuel > 0 && res.Ok? ==>
        DoIterate(ev, env, vars, test, frames, lenv, fuel) == DoIterate(ev, env, vars, test, s, Env(|frames|), fuel - 1)) &&
      |s| == |frames| + 1 && s[..|frames|] == frames && s[|frames|].parent == env &&
      (forall x :: x in s[|frames|].vars <==> x in Names(ps)) &&
      forall x :: x in s[|frames|].vars ==>
        var i := LastIndexOf(ps, x);
        0 <= i && DoBinding(Elements(vars)[i]).Ok? && ps[i] == (DoBinding(Elements(vars)[i]).value.0, DoBinding(Elements(vars)[i]).value.2) &&
        s[|frames|].vars[x] == ev(ps[i].1, lenv, DefineAll(ev, lenv, s1, |frames|, ps[..i]))
  {
    BindingsNewFrame(ev, DoStep, lenv, frames, env, Elements(vars));
    ParsedPrefix(DoStep, Elements(vars));
  }

  /** A binding loop in a new frame leaves every lookup from an older
      environment as it was. */
  lemma DefineAllNewFrameLookup(ev: Evaluator, evalEnv: Value, frames: seq<Frame>, parent: Value,
                                ps: seq<(Value, Value)>, x: Value, e: Value)
    requires !e.Env? || e.frame < |frames|
    ensures Lookup(DefineAll(ev, evalEnv, frames + [Frame(map[], parent)], |frames|, ps), x, e)
         == Lookup(frames, x, e)
  {
    var s1 := frames + [Frame(map[], parent)];
    var s := DefineAll(ev, evalEnv, s1, |frames|, ps);
    DefineAllFrame(ev, evalEnv, s1, |frames|, ps);
    assert s == frames + [s[|frames|]];
    LookupAppend(frames, [s[|frames|]], x, e);
  }

  /** A variable of `do` whose clause has no step keeps its value from one
      loop frame to the next, for an evaluator that reads a bound symbol
      as its binding. */
  lemma DoKeepsStepless(ev: Evaluator, env: Value, vars: Value, frames: seq<Frame>, lenv: Value, x: Value)
    requires !lenv.Env? || lenv.frame < |frames|
    requires Lookup(frames, x, lenv).Some?
    requires forall s: seq<Frame> :: Lookup(s, x, lenv).Some? ==> ev(x, lenv, s) == Lookup(s, x, lenv).value
    requires var ps := Parsed(DoStep, Elements(vars)); var i := LastIndexOf(ps, x);
      0 <= i && |Elements(Elements(vars)[i])| == 2
    ensures var s := Bindings(ev, DoStep, lenv, frames + [Frame(map[], env)], |frames|, Elements(vars)).0;
      x in s[|frames|].vars && s[|frames|].vars[x] == Lookup(frames, x, lenv).value
  {
    var ps := Parsed(DoStep, Elements(vars));
    var i := LastIndexOf(ps, x);
    DoStepFrame(ev, env, vars, Nil, frames, lenv, 0);
    ParsedPrefix(DoStep, Elements(vars));
    assert ps[i].1 == x;
    assert x in Names(ps) by { assert Names(ps)[i] == x; }
    DefineAllNewFrameLookup(ev, lenv, frames, env, ps[..i], x, lenv);
  }

  /** When `do` finishes, the first loop succeeded, the iterations from
      its frame ended in a loop frame `l` in which the test is true, and
      `do` continues with the result expressions in `l`. */
  lemma DoSpecResult(ev: Evaluator, frames: seq<Frame>, args: Value, fuel: nat)
    requires DoSpec(ev, frames, args, fuel).Some? && DoSpec(ev, frames, args, fuel).value.1.Ok?
    ensures DoHeader(args).Ok?
    ensures var (env, vars, test, exprs) := DoHeader(args).value;
      var (s, res) := Bindings(ev, DoInit, env, frames + [Frame(map[], env)], |frames|, Elements(vars));
      var (s', r) := DoSpec(ev, frames, args, fuel).value;
      res.Ok? && DoIterate(ev, env, vars, test, s, Env(|frames|), fuel).Some? &&
      var (s'', l) := DoIterate(ev, env, vars, test, s, Env(|frames|), fuel).value;
      s'' == s' && l.Ok? && r.value == Body(exprs, l.value) && ev(test, l.value, s') != Nil
  {
    var (env, vars, test, exprs) := DoHeader(args).value;
    var s := Bindings(ev, DoInit, env, frames + [Frame(map[], env)], |frames|, Elements(vars)).0;
    DoEndsOnTrueTest(ev, env, vars, test, s, Env(|frames|), fuel);
  }

  /** `do` stops only when the test is true in the final loop frame. */
  lemma {:induction false} DoEndsOnTrueTest(ev: Evaluator, env: Value, vars: Value, test: Value,
                                            frames: seq<Frame>, lenv: Value, fuel: nat)
    requires DoIterate(ev, env, vars, test, frames, lenv, fuel).Some?
    requires DoIterate(ev, env, vars, test, frames, lenv, fuel).value.1.Ok?
    ensures var (s, r) := DoIterate(ev, env, vars, test, frames, lenv, fuel).value;
      ev(test, r.value, s) != Nil
    decreases fuel
  {
    if ev(test, lenv, frames) == Nil {
      var (s, res) := Bindings(ev, DoStep, lenv, frames + [Frame(map[], env)], |frames|, Elements(vars));
      DoEndsOnTrueTest(ev, env, vars, test, s, Env(|frames|), fuel - 1);
    }
  }

  /** Every iteration of `do` adds one fresh frame over `env` (not over the
      previous loop frame) and leaves the frames before it alone; the last
      frame added is the final loop frame. */
  lemma {:induction false} DoFramesOverEnv(ev: Evaluator, env: Value, vars: Value, test: Value,
                                           frames: seq<Frame>, lenv: Value, fuel: nat)
    requires DoIterate(ev, env, vars, test, frames, lenv, fuel).Some?
    ensures var (s, r) := DoIterate(ev, env, vars, test, frames, lenv, fuel).value;
      |frames| <= |s| && s[..|frames|] == frames &&
      (forall i :: |frames| <= i < |s| ==> s[i].parent == env) &&
      (r.Ok? ==> (s == frames && r.value == lenv) || (|s| > |frames| && r.value == Env(|s| - 1)))
    decreases fuel
  {
    if ev(test, lenv, frames) == Nil {
      var s1 := frames + [Frame(map[], env)];
      var ps := Parsed(DoStep, Elements(vars));
      var s := DefineAll(ev, lenv, s1, |frames|, ps);
      DefineAllFrame(ev, lenv, s1, |frames|, ps);
      assert s[..|frames|] == frames;
      var res := Bindings(ev, DoStep, lenv, s1, |frames|, Elements(vars)).1;
      if res.Ok? {
        DoFramesOverEnv(ev, env, vars, test, s, Env(|frames|), fuel - 1);
        var (s', r) := DoIterate(ev, env, vars, test, s, Env(|frames|), fuel - 1).value;
        assert s'[..|frames|] == s'[..|s|][..|frames|];
      }
    }
  }
}
