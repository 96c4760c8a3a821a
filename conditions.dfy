/** Condition objects, the built-in condition type hierarchy and signal
    dispatch over the thread's handler list (conditions.c). A condition
    keeps its fields as a most-recent-first association list; signalling
    runs every installed handler whose type the condition is an instance
    of, each with its own handler list active. */
module Conditions {
  import opened Values

  // ---------------------------------------------------------------------
  // The type hierarchy

  const ConditionType: string := "condition"
  const WarningType: string := "warning"
  const ErrorType: string := "error"
  const RuntimeErrorType: string := "runtime-error"

  /** The superclass of each built-in condition type; `condition` has none. */
  const Parents: map<string, string> :=
    map[WarningType := ConditionType, ErrorType := ConditionType, RuntimeErrorType := ErrorType]

  /** The type `t` and its superclasses, nearest first. The chain of an
      acyclic parent map is never longer than the map. */
  function Ancestry(t: string, fuel: nat): (r: seq<string>)
    ensures |r| >= 1 && r[0] == t
    decreases fuel
  {
    if fuel == 0 || t !in Parents then [t] else [t] + Ancestry(Parents[t], fuel - 1)
  }

  /** DFSCH_INSTANCE_P on type names: `t` is `s` or one of its subtypes. */
  predicate IsA(t: string, s: string)
  {
    s in Ancestry(t, |Parents|)
  }

  /** runtime-error < error < condition and warning < condition, and no
      other relation among the four. */
  lemma Hierarchy()
    ensures IsA(RuntimeErrorType, ErrorType) && IsA(RuntimeErrorType, ConditionType)
    ensures IsA(ErrorType, ConditionType) && IsA(WarningType, ConditionType)
    ensures !IsA(RuntimeErrorType, WarningType) && !IsA(ErrorType, WarningType)
    ensures !IsA(WarningType, ErrorType) && !IsA(ConditionType, ErrorType)
    ensures !IsA(ConditionType, WarningType) && !IsA(ErrorType, RuntimeErrorType)
    ensures !IsA(WarningType, RuntimeErrorType) && !IsA(ConditionType, RuntimeErrorType)
  {
    assert Ancestry(RuntimeErrorType, 3) == [RuntimeErrorType, ErrorType, ConditionType];
    assert Ancestry(ErrorType, 3) == [ErrorType, ConditionType];
    assert Ancestry(WarningType, 3) == [WarningType, ConditionType];
    assert Ancestry(ConditionType, 3) == [ConditionType];
  }

  /** A type outside the hierarchy is an instance of itself only. */
  lemma OutsideHierarchy(t: string, s: string)
    requires t !in Parents
    ensures IsA(t, s) <==> s == t
  {
  }

  // ---------------------------------------------------------------------
  // Fields

  /** The position of the first field named `name` (assq's hit). */
  function FieldIndex(fields: seq<(Value, Value)>, name: Value): (i: nat)
    ensures i <= |fields|
    ensures i < |fields| ==> fields[i].0 == name
    ensures forall j :: 0 <= j < i ==> fields[j].0 != name
  {
    if fields == [] then 0
    else if fields[0].0 == name then 0
    else 1 + FieldIndex(fields[1..], name)
  }

  /** The value dfsch_condition_field reads: that of the first field named
      `name`, or nil (NULL) when there is none. */
  function FieldOf(fields: seq<(Value, Value)>, name: Value): (r: Value)
    ensures (forall j :: 0 <= j < |fields| ==> fields[j].0 != name) ==> r == Nil
  {
    var i := FieldIndex(fields, name);
    if i < |fields| then fields[i].1 else Nil
  }

  /** Consing a field in front: its name now reads as its value, every
      other name reads as before. */
  lemma PutFieldOf(fields: seq<(Value, Value)>, name: Value, value: Value, other: Value)
    ensures FieldOf([(name, value)] + fields, name) == value
    ensures other != name ==> FieldOf([(name, value)] + fields, other) == FieldOf(fields, other)
  {
    if other != name {
      assert ([(name, value)] + fields)[1..] == fields;
    }
  }

  /** The value a name-value argument list gives `name`: the last pair
      with that name wins, `missing` when there is none. */
  function LastValue(args: seq<(string, Value)>, name: string, missing: Value): Value
  {
    if args == [] then missing
    else if args[|args| - 1].0 == name then args[|args| - 1].1
    else LastValue(args[..|args| - 1], name, missing)
  }

  /** The fields dfsch_condition builds: `stack-trace` first, then each
      name-value pair in argument order, each consed in front. */
  function CreatedFields(trace: Value, args: seq<(string, Value)>): (r: seq<(Value, Value)>)
    ensures |r| == |args| + 1
  {
    if args == [] then [(Sym("stack-trace"), trace)]
    else [(Sym(args[|args| - 1].0), args[|args| - 1].1)] + CreatedFields(trace, args[..|args| - 1])
  }

  /** In a condition made by dfsch_condition a repeated name reads as its
      last value, `stack-trace` reads as the trace unless an argument
      overrides it, and any other name reads as nil. */
  lemma {:induction false} CreatedFieldOf(trace: Value, args: seq<(string, Value)>, name: string)
    ensures FieldOf(CreatedFields(trace, args), Sym(name)) ==
      LastValue(args, name, if name == "stack-trace" then trace else Nil)
  {
    if args != [] {
      var last := args[|args| - 1];
      CreatedFieldOf(trace, args[..|args| - 1], name);
      PutFieldOf(CreatedFields(trace, args[..|args| - 1]), Sym(last.0), last.1, Sym(name));
    }
  }

  /** The error field operations signal on an object that is not a
      condition. */
  function NotACondition(id: nat): Error
  {
    Error("exception:not-a-condition", Opaque(id))
  }

  /** A condition object (dfsch__condition_t): its type and its
      most-recent-first field list. */
  class Condition {
    /** The object's identity, as errors and handlers see it. */
    const id: nat
    const typ: string
    var fields: seq<(Value, Value)>

    /** dfsch_make_condition: a new object of type `typ` with no fields. */
    constructor (id: nat, typ: string)
      ensures this.id == id && this.typ == typ && fields == []
    {
      this.id := id;
      this.typ := typ;
      fields := [];
    }

    /** The object as a Lisp value. */
    function Object(): Value
    {
      Opaque(id)
    }

    /** dfsch_condition_field */
    function Field(name: Value): (r: Result<Value>)
      reads this
      ensures r.Err? <==> !IsA(typ, ConditionType)
      ensures r.Err? ==> r.error == NotACondition(id)
      ensures r.Ok? ==> r.value == FieldOf(fields, name)
    {
      if !IsA(typ, ConditionType) then Err(NotACondition(id)) else Ok(FieldOf(fields, name))
    }

    /** dfsch_condition_fields: the field list itself. */
    function Fields(): (r: Result<seq<(Value, Value)>>)
      reads this
      ensures r.Err? <==> !IsA(typ, ConditionType)
      ensures r.Ok? ==> r.value == fields
    {
      if !IsA(typ, ConditionType) then Err(NotACondition(id)) else Ok(fields)
    }

    /** dfsch_condition_put_field: the field consed in front. */
    method PutField(name: Value, value: Value) returns (r: Result<()>)
      modifies this
      ensures r.Err? <==> !IsA(typ, ConditionType)
      ensures r.Err? ==> r.error == NotACondition(id) && fields == old(fields)
      ensures r.Ok? ==> fields == [(name, value)] + old(fields)
    {
      if !IsA(typ, ConditionType) {
        return Err(NotACondition(id));
      }
      fields := [(name, value)] + fields;
      r := Ok(());
    }
  }

  /** dfsch_condition: a condition of type `typ` with the stack trace
      `trace` (dfsch_get_stack_trace, whose result is a parameter) and the
      name-value pairs up to the terminator. */
  method MakeCondition(id: nat, typ: string, trace: Value, args: seq<(string, Value)>) returns (r: Result<Condition>)
    ensures r.Err? <==> !IsA(typ, ConditionType)
    ensures r.Err? ==> r.error == NotACondition(id)
    ensures r.Ok? ==> fresh(r.value) && r.value.typ == typ && r.value.id == id
    ensures r.Ok? ==> r.value.fields == CreatedFields(trace, args)
  {
    var c := new Condition(id, typ);
    var e := c.PutField(Sym("stack-trace"), trace);
    if e.Err? {
      return Err(e.error);
    }
    for i := 0 to |args|
      invariant c.fields == CreatedFields(trace, args[..i])
    {
      e := c.PutField(Sym(args[i].0), args[i].1);
      assert args[..i + 1][..i] == args[..i];
    }
    assert args[..|args|] == args;
    r := Ok(c);
  }

  // ---------------------------------------------------------------------
  // Signalling

  /** A node of a handler list: the condition type it handles, the
      procedure, and the handler list to make active while it runs. */
  datatype Handler = Handler(typ: string, proc: Value, own: seq<Handler>)

  /** A recorded handler invocation: the procedure, its argument list, and
      the handler list that was active during the call. */
  datatype Call = Call(proc: Value, args: Value, active: seq<Handler>)

  /** How dfsch_signal ends: it returns, or the process aborts. */
  datatype Outcome = Returned | Aborted

  /** The invocation of handler `h` on the condition object `cv`. */
  function CallOf(h: Handler, cv: Value): Call
  {
    Call(h.proc, List([cv]), h.own)
  }

  /** The invocations a walk over `hs` makes for a condition of type `t`:
      one per handler that `t` is an instance of, in list order. */
  function HandlerCalls(hs: seq<Handler>, t: string, cv: Value): (r: seq<Call>)
    ensures |r| <= |hs|
  {
    if hs == [] then []
    else
      var h := hs[|hs| - 1];
      HandlerCalls(hs[..|hs| - 1], t, cv) + (if IsA(t, h.typ) then [CallOf(h, cv)] else [])
  }

  /** The handler list active after a walk over `hs`: the own list of the
      last handler invoked, or `saved` when none was. */
  function ActiveAfter(hs: seq<Handler>, t: string, saved: seq<Handler>): seq<Handler>
  {
    if hs == [] then saved
    else if IsA(t, hs[|hs| - 1].typ) then hs[|hs| - 1].own
    else ActiveAfter(hs[..|hs| - 1], t, saved)
  }

  /** One more handler of the walk: its call, if its type matches, and the
      list it makes active. */
  lemma SignalStep(hs: seq<Handler>, i: nat, t: string, cv: Value)
    requires i < |hs|
    ensures HandlerCalls(hs[..i + 1], t, cv) ==
      HandlerCalls(hs[..i], t, cv) + (if IsA(t, hs[i].typ) then [CallOf(hs[i], cv)] else [])
    ensures ActiveAfter(hs[..i + 1], t, hs) ==
      if IsA(t, hs[i].typ) then hs[i].own else ActiveAfter(hs[..i], t, hs)
  {
    assert hs[..i + 1][..i] == hs[..i];
  }

  /** The calls of a walk over two lists one after the other. */
  lemma {:induction false} HandlerCallsAppend(a: seq<Handler>, b: seq<Handler>, t: string, cv: Value)
    ensures HandlerCalls(a + b, t, cv) == HandlerCalls(a, t, cv) + HandlerCalls(b, t, cv)
  {
    if b == [] {
      assert a + b == a;
    } else {
      assert (a + b)[..|a + b| - 1] == a + b[..|b| - 1];
      HandlerCallsAppend(a, b[..|b| - 1], t, cv);
    }
  }

  /** The handler at the head of the list, the most recently installed,
      is invoked first when the condition is an instance of its type;
      otherwise it is not invoked at all. */
  lemma HeadFirst(h: Handler, rest: seq<Handler>, t: string, cv: Value)
    ensures HandlerCalls([h] + rest, t, cv) ==
      (if IsA(t, h.typ) then [CallOf(h, cv)] else []) + HandlerCalls(rest, t, cv)
  {
    HandlerCallsAppend([h], rest, t, cv);
    assert [h][..0] == [];
  }

  /** Exactly the handlers whose type the condition is an instance of are
      invoked. */
  lemma {:induction false} CallsAreMatches(hs: seq<Handler>, t: string, cv: Value, c: Call)
    ensures c in HandlerCalls(hs, t, cv) <==> exists h :: h in hs && IsA(t, h.typ) && c == CallOf(h, cv)
  {
    if hs != [] {
      var init := hs[..|hs| - 1];
      var h := hs[|hs| - 1];
      CallsAreMatches(init, t, cv, c);
      assert hs == init + [h];
      if c in HandlerCalls(hs, t, cv) && c !in HandlerCalls(init, t, cv) {
        assert IsA(t, h.typ) && c == CallOf(h, cv);
      }
      if exists g :: g in hs && IsA(t, g.typ) && c == CallOf(g, cv) {
        var g :| g in hs && IsA(t, g.typ) && c == CallOf(g, cv);
        if g != h {
          assert g in init;
        }
      }
    }
  }

  /** A condition no handler's type covers invokes nothing and leaves the
      saved list active. */
  lemma {:induction false} NoMatchNoCalls(hs: seq<Handler>, t: string, cv: Value, saved: seq<Handler>)
    requires forall i :: 0 <= i < |hs| ==> !IsA(t, hs[i].typ)
    ensures HandlerCalls(hs, t, cv) == [] && ActiveAfter(hs, t, saved) == saved
  {
    if hs != [] {
      NoMatchNoCalls(hs[..|hs| - 1], t, cv, saved);
    }
  }

  /** The per-thread state dfsch_signal uses (dfsch__thread_info_t): the
      active handler list, and the record of handler invocations made. */
  class ThreadInfo {
    var handlerList: seq<Handler>
    var calls: seq<Call>

    constructor (handlers: seq<Handler>)
      ensures handlerList == handlers && calls == []
    {
      handlerList := handlers;
      calls := [];
    }

    /** dfsch_apply of a handler: recorded with the list active at the
        time. What the handler itself does is not modelled. */
    method Invoke(proc: Value, args: Value)
      modifies this
      ensures handlerList == old(handlerList)
      ensures calls == old(calls) + [Call(proc, args, handlerList)]
    {
      calls := calls + [Call(proc, args, handlerList)];
    }

    /** dfsch_signal: each handler of the list active on entry whose type
        the condition is an instance of runs with its own list active;
        then an error condition aborts, and any other gets the entry list
        restored. */
    method Signal(c: Condition) returns (outcome: Outcome)
      modifies this
      ensures calls == old(calls) + HandlerCalls(old(handlerList), c.typ, c.Object())
      ensures outcome == if IsA(c.typ, ErrorType) then Aborted else Returned
      ensures outcome == Returned ==> handlerList == old(handlerList)
      ensures outcome == Aborted ==> handlerList == ActiveAfter(old(handlerList), c.typ, old(handlerList))
    {
      var save := handlerList;
      var i := 0;
      while i < |save|
        invariant i <= |save|
        invariant calls == old(calls) + HandlerCalls(save[..i], c.typ, c.Object())
        invariant handlerList == ActiveAfter(save[..i], c.typ, save)
      {
        SignalStep(save, i, c.typ, c.Object());
        if IsA(c.typ, save[i].typ) {
          handlerList := save[i].own;
          Invoke(save[i].proc, List([c.Object()]));
        }
        i := i + 1;
      }
      assert save[..i] == save;
      if IsA(c.typ, ErrorType) {
        return Aborted;
      }
      handlerList := save;
      outcome := Returned;
    }
  }

  /** A restart object (restart_t): a name, a procedure and a description. */
  class Restart {
    const name: Value
    const proc: Value
    const description: string

    /** dfsch_make_restart */
    constructor (name: Value, proc: Value, description: string)
      ensures this.name == name && this.proc == proc && this.description == description
    {
      this.name := name;
      this.proc := proc;
      this.description := description;
    }
  }
}
