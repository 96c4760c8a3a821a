/** Lisp objects of the dfsch runtime as values, the list structure built from
    pairs, the error channel, and the argument-popping conventions that every
    native form and primitive uses. */
module Values {

  /** A dfsch object. `Nil` is the empty list and the only false value (the
      C code's NULL); symbols are interned, so comparing two symbols by
      identity is comparing their names; `Closure` is what `lambda`,
      `define` and named `let` build over the environment object they
      capture; `Env` is the environment object whose innermost frame is
      `frame` in the store of frames; `Opaque` stands for every other object
      (primitives, vectors, numbers of other kinds) by an identity;
      `Invalid` is DFSCH_INVALID_OBJECT, the sentinel that marks an empty
      slot and is never a valid Lisp object. */
  datatype Value =
    | Nil
    | Sym(name: string)
    | Int(n: int)
    | Str(s: string)
    | Pair(car: Value, cdr: Value)
    | Closure(fname: Value, params: Value, body: Value, env: Value)
    | Env(frame: nat)
    | Opaque(id: nat)
    | Invalid

  /** dfsch_sym_true(): the canonical true value. */
  const True: Value := Sym("true")

  /** dfsch_bool */
  function Bool(b: bool): (r: Value)
    ensures (r != Nil) == b
  {
    if b then True else Nil
  }

  /** A signalled error condition: its message and the offending object. */
  datatype Error = Error(message: string, irritant: Value)

  datatype Result<T> = Ok(value: T) | Err(error: Error) {
    predicate IsFailure() { Err? }
    function PropagateFailure<U>(): Result<U>
      requires Err?
    {
      Err(error)
    }
    function Extract(): T
      requires Ok?
    {
      value
    }
  }

  datatype Option<T> = None | Some(value: T)

  /** dfsch_list: a proper list of the given elements. */
  function List(xs: seq<Value>): Value
  {
    ListWithTail(xs, Nil)
  }

  /** The elements `xs` consed in front of `tail`. */
  function ListWithTail(xs: seq<Value>, tail: Value): Value
  {
    if xs == [] then tail else Pair(xs[0], ListWithTail(xs[1..], tail))
  }

  /** The cars of `v` up to its first non-pair tail. */
  function Elements(v: Value): seq<Value>
  {
    if v.Pair? then [v.car] + Elements(v.cdr) else []
  }

  /** The object where the chain of pairs of `v` ends. */
  function Terminator(v: Value): Value
  {
    if v.Pair? then Terminator(v.cdr) else v
  }

  predicate IsProperList(v: Value)
  {
    Terminator(v) == Nil
  }

  /** dfsch_list_length: the number of elements, or -1 for an improper list. */
  function ListLength(v: Value): (n: int)
    ensures n == -1 <==> !IsProperList(v)
    ensures n >= 0 ==> n == |Elements(v)|
  {
    if v == Nil then 0
    else if v.Pair? then (var m := ListLength(v.cdr); if m < 0 then -1 else m + 1)
    else -1
  }

  lemma {:induction false} ElementsOfList(xs: seq<Value>, tail: Value)
    requires !tail.Pair?
    ensures Elements(ListWithTail(xs, tail)) == xs
    ensures Terminator(ListWithTail(xs, tail)) == tail
  {
    if xs != [] {
      ElementsOfList(xs[1..], tail);
    }
  }

  /** One step of `Elements`, for proofs that look several pairs deep. */
  lemma ElementsStep(v: Value)
    ensures Elements(v) == if v.Pair? then [v.car] + Elements(v.cdr) else []
    ensures Terminator(v) == if v.Pair? then Terminator(v.cdr) else v
  {
  }

  lemma {:induction false} ElementsWithTail(xs: seq<Value>, tail: Value)
    ensures Elements(ListWithTail(xs, tail)) == xs + Elements(tail)
    ensures Terminator(ListWithTail(xs, tail)) == Terminator(tail)
  {
    if xs != [] {
      ElementsWithTail(xs[1..], tail);
      assert xs == [xs[0]] + xs[1..];
    }
  }

  lemma {:induction false} ListOfElements(v: Value)
    ensures ListWithTail(Elements(v), Terminator(v)) == v
  {
    if v.Pair? {
      ListOfElements(v.cdr);
    }
  }

  lemma ProperListRoundTrip(v: Value)
    requires IsProperList(v)
    ensures List(Elements(v)) == v
  {
    ListOfElements(v);
  }

  lemma ListRoundTrip(xs: seq<Value>)
    ensures Elements(List(xs)) == xs && IsProperList(List(xs))
  {
    ElementsOfList(xs, Nil);
  }

  lemma {:induction false} ListWithTailAppend(xs: seq<Value>, ys: seq<Value>, tail: Value)
    ensures ListWithTail(xs + ys, tail) == ListWithTail(xs, ListWithTail(ys, tail))
  {
    if xs != [] {
      assert (xs + ys)[1..] == xs[1..] + ys;
      ListWithTailAppend(xs[1..], ys, tail);
    } else {
      assert xs + ys == ys;
    }
  }

  /** The position of the first non-nil value of `vs`, or `|vs|` when
      every value is nil. */
  function FirstNonNil(vs: seq<Value>): (k: nat)
    ensures k <= |vs|
    ensures forall j :: 0 <= j < k ==> vs[j] == Nil
    ensures k < |vs| ==> vs[k] != Nil
  {
    if vs == [] then 0
    else if vs[0] != Nil then 0
    else 1 + FirstNonNil(vs[1..])
  }

  /** The position of the first nil value of `vs`, or `|vs|` when there is
      none. */
  function FirstNil(vs: seq<Value>): (k: nat)
    ensures k <= |vs|
    ensures forall j :: 0 <= j < k ==> vs[j] != Nil
    ensures k < |vs| ==> vs[k] == Nil
  {
    if vs == [] then 0
    else if vs[0] == Nil then 0
    else 1 + FirstNil(vs[1..])
  }

  /** FirstNonNil is the first position that is not nil. */
  lemma FirstNonNilAt(vs: seq<Value>, k: nat)
    requires k <= |vs| && forall j :: 0 <= j < k ==> vs[j] == Nil
    requires k < |vs| ==> vs[k] != Nil
    ensures FirstNonNil(vs) == k
  {
  }

  /** FirstNil is the first position that is nil. */
  lemma FirstNilAt(vs: seq<Value>, k: nat)
    requires k <= |vs| && forall j :: 0 <= j < k ==> vs[j] != Nil
    requires k < |vs| ==> vs[k] == Nil
    ensures FirstNil(vs) == k
  {
  }

  /** dfsch_apply as seen by the code that calls it: the value a procedure
      returns for an argument list.  Procedures are not part of this model,
      so every caller takes this as a parameter. */
  type Applier = (Value, Value) -> Value

  /** dfsch_car: the car of a pair; any other object signals an error. */
  function Car(v: Value): (r: Result<Value>)
    ensures r.Ok? <==> v.Pair?
    ensures v.Pair? ==> r.value == v.car
  {
    if v.Pair? then Ok(v.car) else Err(Error("exception:not-a-pair", v))
  }

  /** dfsch_cdr: the cdr of a pair; any other object signals an error. */
  function Cdr(v: Value): (r: Result<Value>)
    ensures r.Ok? <==> v.Pair?
    ensures v.Pair? ==> r.value == v.cdr
  {
    if v.Pair? then Ok(v.cdr) else Err(Error("exception:not-a-pair", v))
  }

  /** dfsch_list_item: the k-th element; a shorter list signals an error. */
  function ListItem(v: Value, k: nat): (r: Result<Value>)
    ensures r.Ok? <==> k < |Elements(v)|
    ensures r.Ok? ==> r.value == Elements(v)[k]
  {
    if !v.Pair? then Err(Error("exception:no-such-item", v))
    else if k == 0 then Ok(v.car)
    else ListItem(v.cdr, k - 1)
  }

  /** DFSCH_OBJECT_ARG: takes the next argument off `args` and returns it
      with the remaining arguments; too few arguments signal an error. */
  function PopArg(args: Value): (r: Result<(Value, Value)>)
    ensures r.Ok? <==> args.Pair?
    ensures r.Ok? ==> r.value == (args.car, args.cdr)
  {
    if args.Pair? then Ok((args.car, args.cdr))
    else Err(Error("exception:required-argument-missing", args))
  }

  /** DFSCH_OBJECT_ARG_OPT: the next argument, or `default` (and `args`
      untouched) when there is none. */
  function PopOptArg(args: Value, default: Value): (r: (Value, Value))
    ensures args.Pair? ==> r == (args.car, args.cdr)
    ensures !args.Pair? ==> r == (default, args)
  {
    if args.Pair? then (args.car, args.cdr) else (default, args)
  }

  /** DFSCH_ARG_END: any argument left over signals an error. */
  function ArgEnd(args: Value): (r: Result<()>)
    ensures r.Ok? <==> args == Nil
  {
    if args == Nil then Ok(()) else Err(Error("exception:too-many-arguments", args))
  }
}
