/** The sequence primitives (primitives.c).  Collections are the sequences
    of their items; a procedure argument is applied through an `Applier`.
    Primitives that take their argument list apart themselves (`apply`,
    `%append-immutable`, `reduce`, `not`) receive it as a Lisp list. */
module Primitives {
  import opened Values
  import opened Frames

  // ----- apply -----

  /** The argument list `apply` builds from the arguments after the
      procedure: all but the last, followed by the elements of the last.
      An improper argument list never reaches its last element, so all its
      elements are passed as they are. */
  function SpreadArgs(rest: Value): Value
  {
    var xs := Elements(rest);
    if Terminator(rest) == Nil && |xs| > 0 then ListWithTail(xs[..|xs| - 1], xs[|xs| - 1])
    else List(xs)
  }

  /** The called procedure receives the leading arguments and then the
      elements of the last one, which ends the list as it ends. */
  lemma SpreadLast(rest: Value)
    requires IsProperList(rest) && |Elements(rest)| > 0
    ensures var xs := Elements(rest); var n := |xs|;
      Elements(SpreadArgs(rest)) == xs[..n - 1] + Elements(xs[n - 1]) &&
      Terminator(SpreadArgs(rest)) == Terminator(xs[n - 1])
  {
    var xs := Elements(rest);
    ElementsWithTail(xs[..|xs| - 1], xs[|xs| - 1]);
  }

  /** `(apply f l)` passes the list `l` itself. */
  lemma SpreadLone(rest: Value)
    requires IsProperList(rest) && |Elements(rest)| == 1
    ensures SpreadArgs(rest) == Elements(rest)[0]
  {
  }

  /** The `apply` primitive: the procedure, then the spread arguments, as
      the call it continues with. */
  method Apply(args: Value) returns (r: Result<Next>)
    ensures r.Ok? <==> args.Pair?
    ensures r.Ok? ==> r.value == Next.Apply(args.car, SpreadArgs(args.cdr))
  {
    var func :- PopArg(args);
    ghost var xs := Elements(func.1);
    var i := func.1;
    var n := 0;
    var leading: seq<Value> := [];
    var arglist := Nil;
    while i.Pair?
      invariant n <= |xs| && Elements(i) == xs[n..] && Terminator(i) == Terminator(func.1)
      invariant leading == xs[..n] && arglist == Nil && (i == Nil ==> n == 0)
      decreases i
    {
      assert xs[n] == i.car;
      var elem := i.car;
      assert Elements(i.cdr) == xs[n + 1..] by { assert xs[n + 1..] == xs[n..][1..]; }
      i := i.cdr;
      if i == Nil {
        arglist := elem;
        assert n + 1 == |xs|;
        return Ok(Next.Apply(func.0, ListWithTail(leading, arglist)));
      }
      leading := leading + [elem];
      n := n + 1;
    }
    assert leading == xs;
    return Ok(Next.Apply(func.0, ListWithTail(leading, arglist)));
  }

  // ----- %append-immutable, concatenate -----

  /** All items of the collections `cs`, in order. */
  function Concat(cs: seq<seq<Value>>): seq<Value>
  {
    if cs == [] then [] else Concat(cs[..|cs| - 1]) + cs[|cs| - 1]
  }

  /** Concatenation distributes over joining the collections. */
  lemma {:induction false} ConcatAppend(a: seq<seq<Value>>, b: seq<seq<Value>>)
    ensures Concat(a + b) == Concat(a) + Concat(b)
    decreases |b|
  {
    if b == [] {
      assert a + b == a;
    } else {
      assert (a + b)[..|a + b| - 1] == a + b[..|b| - 1];
      ConcatAppend(a, b[..|b| - 1]);
    }
  }

  /** Every item of every collection is in the concatenation, at its
      collection's offset. */
  lemma {:induction false} ConcatItem(cs: seq<seq<Value>>, a: nat, b: nat)
    requires a < |cs| && b < |cs[a]|
    ensures |Concat(cs[..a])| + b < |Concat(cs)| && Concat(cs)[|Concat(cs[..a])| + b] == cs[a][b]
  {
    ConcatAppend(cs[..a], cs[a..]);
    assert cs[..a] + cs[a..] == cs;
    ConcatAppend([cs[a]], cs[a + 1..]);
    assert [cs[a]] + cs[a + 1..] == cs[a..];
    assert Concat([cs[a]]) == cs[a] by {
      assert [cs[a]][..0] == [];
    }
  }

  /** The item lists of the arguments of `%append-immutable`. */
  function ItemLists(ls: seq<Value>): (r: seq<seq<Value>>)
    ensures |r| == |ls| && forall j :: 0 <= j < |ls| ==> r[j] == Elements(ls[j])
  {
    seq(|ls|, j requires 0 <= j < |ls| => Elements(ls[j]))
  }

  /** The `%append-immutable` primitive: the items of all its argument
      lists in order.  An improper argument signals an error as soon as it
      is reached; an improper argument list only after all its elements. */
  method AppendImmutable(args: Value) returns (r: Result<Value>)
    ensures var ls := Elements(args);
      if exists j :: 0 <= j < |ls| && !IsProperList(ls[j]) then
        r == Err(Error("Improper list as argument to %append-immutable", Nil))
      else if !IsProperList(args) then r == Err(Error("Improper argument list", Nil))
      else r == Ok(List(Concat(ItemLists(ls))))
  {
    ghost var ls := Elements(args);
    var collected: seq<Value> := [];
    var a := args;
    var n := 0;
    while a.Pair?
      invariant n <= |ls| && Elements(a) == ls[n..] && Terminator(a) == Terminator(args)
      invariant forall j :: 0 <= j < n ==> IsProperList(ls[j])
      invariant collected == Concat(ItemLists(ls[..n]))
      decreases a
    {
      assert ls[n] == a.car;
      var i := a.car;
      var items := CollectItems(i);
      if Terminator(i) != Nil {
        return Err(Error("Improper list as argument to %append-immutable", Nil));
      }
      assert ItemLists(ls[..n + 1]) == ItemLists(ls[..n]) + [Elements(ls[n])];
      assert ItemLists(ls[..n + 1])[..n] == ItemLists(ls[..n]);
      collected := collected + items;
      assert Elements(a.cdr) == ls[n + 1..] by { assert ls[n + 1..] == ls[n..][1..]; }
      a := a.cdr;
      n := n + 1;
    }
    assert ls[..n] == ls;
    if a != Nil {
      return Err(Error("Improper argument list", Nil));
    }
    return Ok(List(collected));
  }

  /** The inner loop of `%append-immutable`: the items of one list. */
  method CollectItems(l: Value) returns (items: seq<Value>)
    ensures items == Elements(l)
  {
    items := [];
    var i := l;
    while i.Pair?
      invariant items + Elements(i) == Elements(l)
      decreases i
    {
      items := items + [i.car];
      i := i.cdr;
    }
  }

  /** The `concatenate` primitive: the items of all collections, in order. */
  method Concatenate(colls: seq<seq<Value>>) returns (r: seq<Value>)
    ensures r == Concat(colls)
  {
    r := [];
    for a := 0 to |colls|
      invariant r == Concat(colls[..a])
    {
      assert colls[..a + 1][..a] == colls[..a];
      for b := 0 to |colls[a]|
        invariant r == Concat(colls[..a]) + colls[a][..b]
      {
        r := r + [colls[a][b]];
      }
    }
    assert colls[..|colls|] == colls;
  }

  // ----- reduce -----

  /** Left fold of `f` over `xs` from `tally`. */
  function FoldLeft(ap: Applier, f: Value, tally: Value, xs: seq<Value>): Value
  {
    if xs == [] then tally else ap(f, List([FoldLeft(ap, f, tally, xs[..|xs| - 1]), xs[|xs| - 1]]))
  }

  /** Folding over two pieces is folding over the second from the result
      of the first. */
  lemma {:induction false} FoldLeftAppend(ap: Applier, f: Value, tally: Value, xs: seq<Value>, ys: seq<Value>)
    ensures FoldLeft(ap, f, tally, xs + ys) == FoldLeft(ap, f, FoldLeft(ap, f, tally, xs), ys)
    decreases |ys|
  {
    if ys == [] {
      assert xs + ys == xs;
    } else {
      assert (xs + ys)[..|xs + ys| - 1] == xs + ys[..|ys| - 1];
      FoldLeftAppend(ap, f, tally, xs, ys[..|ys| - 1]);
    }
  }

  /** The `reduce` primitive (native.c holds the same code for the older
      `reduce`): nil for anything but a pair, otherwise the left fold from
      the first element over the rest. */
  function ReduceSpec(ap: Applier, f: Value, list: Value): Value
  {
    if !list.Pair? then Nil else FoldLeft(ap, f, list.car, Elements(list.cdr))
  }

  /** A one-element list reduces to its element. */
  lemma ReduceSingle(ap: Applier, f: Value, x: Value)
    ensures ReduceSpec(ap, f, Pair(x, Nil)) == x
  {
  }

  method Reduce(ap: Applier, args: Value) returns (r: Result<Value>)
    ensures r.Ok? <==> IsProperList(args) && |Elements(args)| == 2
    ensures r.Ok? ==> r.value == ReduceSpec(ap, Elements(args)[0], Elements(args)[1])
  {
    ElementsStep(args);
    var func :- PopArg(args);
    ElementsStep(func.1);
    var list :- PopArg(func.1);
    ElementsStep(list.1);
    var _ :- ArgEnd(list.1);
    var l := list.0;
    if !l.Pair? {
      return Ok(Nil);
    }
    var tally := l.car;
    ghost var xs := Elements(l.cdr);
    var i := l.cdr;
    var n := 0;
    while i.Pair?
      invariant n <= |xs| && Elements(i) == xs[n..]
      invariant tally == FoldLeft(ap, func.0, l.car, xs[..n])
      decreases i
    {
      assert xs[n] == i.car;
      assert xs[..n + 1][..n] == xs[..n];
      tally := ap(func.0, List([tally, i.car]));
      assert Elements(i.cdr) == xs[n + 1..] by { assert xs[n + 1..] == xs[n..][1..]; }
      i := i.cdr;
      n := n + 1;
    }
    assert xs[..n] == xs;
    return Ok(tally);
  }

  // ----- not -----

  /** The `not` primitive: true exactly for nil. */
  function Not(args: Value): (r: Result<Value>)
    ensures r.Ok? <==> IsProperList(args) && |Elements(args)| == 1
    ensures r.Ok? ==> (r.value == True <==> Elements(args)[0] == Nil) && (r.value == Nil <==> Elements(args)[0] != Nil)
  {
    ElementsStep(args);
    var val :- PopArg(args);
    ElementsStep(val.1);
    var _ :- ArgEnd(val.1);
    Ok(Bool(val.0 == Nil))
  }

  // ----- iteration over several collections: zip, map, map*, every, some -----

  /** The length of the shortest collection: the number of tuples. */
  function Shortest(colls: seq<seq<Value>>): (n: nat)
    requires |colls| > 0
    ensures forall i :: 0 <= i < |colls| ==> n <= |colls[i]|
    ensures exists i :: 0 <= i < |colls| && n == |colls[i]|
  {
    if |colls| == 1 then |colls[0]|
    else
      var m := Shortest(colls[1..]);
      assert forall i :: 1 <= i < |colls| ==> colls[i] == colls[1..][i - 1];
      if |colls[0]| <= m then |colls[0]| else m
  }

  /** The `k`-th items of all collections, as a list: the argument list of
      the `k`-th call. */
  function Tuple(colls: seq<seq<Value>>, k: nat): Value
    requires |colls| > 0 && k < Shortest(colls)
  {
    List(seq(|colls|, i requires 0 <= i < |colls| => colls[i][k]))
  }

  /** `f` applied to every tuple, in order. */
  function Results(ap: Applier, f: Value, colls: seq<seq<Value>>): (r: seq<Value>)
    requires |colls| > 0
    ensures |r| == Shortest(colls)
    ensures forall k :: 0 <= k < |r| ==> r[k] == ap(f, Tuple(colls, k))
  {
    seq(Shortest(colls), k requires 0 <= k < Shortest(colls) => ap(f, Tuple(colls, k)))
  }

  /** Iterators over the collections: `its[i]` is the position in the
      `i`-th one.  dfsch_collection_get_iterator gives none for an empty
      collection, which ends every one of these primitives at once. */
  method Start(colls: seq<seq<Value>>) returns (its: array<nat>, live: bool)
    requires |colls| > 0
    ensures fresh(its) && its.Length == |colls|
    ensures live <==> Shortest(colls) > 0
    ensures live ==> forall i :: 0 <= i < |colls| ==> its[i] == 0
  {
    its := new nat[|colls|];
    for i := 0 to |colls|
      invariant forall j :: 0 <= j < i ==> its[j] == 0 && |colls[j]| > 0
    {
      if |colls[i]| == 0 {
        return its, false;
      }
      its[i] := 0;
    }
    live := true;
  }

  /** The collector of the items the iterators stand on. */
  method Current(colls: seq<seq<Value>>, its: array<nat>, k: nat) returns (tuple: Value)
    requires |colls| > 0 && its.Length == |colls| && k < Shortest(colls)
    requires forall i :: 0 <= i < |colls| ==> its[i] == k
    ensures tuple == Tuple(colls, k)
  {
    var items: seq<Value> := [];
    for i := 0 to |colls|
      invariant items == seq(i, j requires 0 <= j < i => colls[j][k])
    {
      items := items + [colls[i][its[i]]];
    }
    tuple := List(items);
  }

  /** Steps every iterator; the first one that runs off its collection
      ends the iteration. */
  method Advance(colls: seq<seq<Value>>, its: array<nat>, k: nat) returns (live: bool)
    requires |colls| > 0 && its.Length == |colls| && k < Shortest(colls)
    requires forall i :: 0 <= i < |colls| ==> its[i] == k
    modifies its
    ensures live <==> k + 1 < Shortest(colls)
    ensures live ==> forall i :: 0 <= i < |colls| ==> its[i] == k + 1
  {
    for i := 0 to |colls|
      invariant forall j :: 0 <= j < i ==> its[j] == k + 1 && k + 1 < |colls[j]|
      invariant forall j :: i <= j < |colls| ==> its[j] == k
    {
      its[i] := its[i] + 1;
      if its[i] == |colls[i]| {
        return false;
      }
    }
    live := true;
  }

  /** The `zip` primitive: one tuple per position, up to the length of the
      shortest collection.  Without any collection the source loops
      forever, so at least one is required. */
  method Zip(colls: seq<seq<Value>>) returns (r: seq<Value>)
    requires |colls| > 0
    ensures |r| == Shortest(colls)
    ensures forall k :: 0 <= k < |r| ==> r[k] == Tuple(colls, k)
  {
    var its, live := Start(colls);
    r := [];
    var k := 0;
    while live
      invariant k <= Shortest(colls) && its.Length == |colls| && |r| == k
      invariant live ==> k < Shortest(colls) && forall i :: 0 <= i < |colls| ==> its[i] == k
      invariant !live ==> k == Shortest(colls)
      invariant forall j :: 0 <= j < k ==> r[j] == Tuple(colls, j)
      decreases Shortest(colls) - k
    {
      var t := Current(colls, its, k);
      r := r + [t];
      live := Advance(colls, its, k);
      k := k + 1;
    }
  }

  /** The `map` primitive: `f` applied to each tuple, in order.  The
      `result-type` keyword and the result's collection type are not part
      of this model: the result is the sequence of values. */
  method Map(ap: Applier, f: Value, colls: seq<seq<Value>>) returns (r: seq<Value>)
    requires |colls| > 0
    ensures r == Results(ap, f, colls)
  {
    var its, live := Start(colls);
    r := [];
    var k := 0;
    while live
      invariant k <= Shortest(colls) && its.Length == |colls|
      invariant live ==> k < Shortest(colls) && forall i :: 0 <= i < |colls| ==> its[i] == k
      invariant !live ==> k == Shortest(colls)
      invariant r == Results(ap, f, colls)[..k]
      decreases Shortest(colls) - k
    {
      var t := Current(colls, its, k);
      r := r + [ap(f, t)];
      live := Advance(colls, its, k);
      k := k + 1;
    }
  }

  /** `map` produces one result per tuple of `zip`, in order. */
  lemma MapOverZip(ap: Applier, f: Value, colls: seq<seq<Value>>, zipped: seq<Value>)
    requires |colls| > 0 && |zipped| == Shortest(colls)
    requires forall k :: 0 <= k < |zipped| ==> zipped[k] == Tuple(colls, k)
    ensures Results(ap, f, colls) == seq(|zipped|, k requires 0 <= k < |zipped| => ap(f, zipped[k]))
  {
  }

  /** The values of `vs` other than nil, in order. */
  function NonNil(vs: seq<Value>): (r: seq<Value>)
    ensures |r| <= |vs|
    ensures forall x :: x in r <==> x in vs && x != Nil
  {
    if vs == [] then []
    else NonNil(vs[..|vs| - 1]) + (if vs[|vs| - 1] != Nil then [vs[|vs| - 1]] else [])
  }

  /** The `map*` primitive: like `map`, keeping only the non-nil results. */
  method MapStar(ap: Applier, f: Value, colls: seq<seq<Value>>) returns (r: seq<Value>)
    requires |colls| > 0
    ensures r == NonNil(Results(ap, f, colls))
  {
    var its, live := Start(colls);
    r := [];
    var k := 0;
    ghost var vs := Results(ap, f, colls);
    while live
      invariant k <= Shortest(colls) && its.Length == |colls|
      invariant live ==> k < Shortest(colls) && forall i :: 0 <= i < |colls| ==> its[i] == k
      invariant !live ==> k == Shortest(colls)
      invariant r == NonNil(vs[..k])
      decreases Shortest(colls) - k
    {
      var t := Current(colls, its, k);
      var v := ap(f, t);
      assert vs[..k + 1][..k] == vs[..k];
      if v != Nil {
        r := r + [v];
      }
      live := Advance(colls, its, k);
      k := k + 1;
    }
    assert vs[..k] == vs;
  }

  /** The `every` primitive: true when `f` holds for every tuple (so also
      when some collection is empty), nil at the first tuple where it does
      not. */
  method Every(ap: Applier, f: Value, colls: seq<seq<Value>>) returns (r: Value)
    requires |colls| > 0
    ensures r == Bool(forall k :: 0 <= k < Shortest(colls) ==> Results(ap, f, colls)[k] != Nil)
  {
    var its, live := Start(colls);
    if !live {
      return True;
    }
    ghost var vs := Results(ap, f, colls);
    var k := 0;
    while live
      invariant k <= Shortest(colls) && its.Length == |colls|
      invariant live ==> k < Shortest(colls) && forall i :: 0 <= i < |colls| ==> its[i] == k
      invariant !live ==> k == Shortest(colls)
      invariant forall j :: 0 <= j < k ==> vs[j] != Nil
      decreases Shortest(colls) - k
    {
      var t := Current(colls, its, k);
      if ap(f, t) == Nil {
        return Nil;
      }
      live := Advance(colls, its, k);
      k := k + 1;
    }
    return True;
  }

  /** The `some` primitive: the first non-nil result, or nil when there is
      none. */
  method Some(ap: Applier, f: Value, colls: seq<seq<Value>>) returns (r: Value)
    requires |colls| > 0
    ensures var vs := Results(ap, f, colls); var k := FirstNonNil(vs);
      r == if k < |vs| then vs[k] else Nil
  {
    var its, live := Start(colls);
    if !live {
      return Nil;
    }
    ghost var vs := Results(ap, f, colls);
    var k := 0;
    while live
      invariant k <= Shortest(colls) && its.Length == |colls|
      invariant live ==> k < Shortest(colls) && forall i :: 0 <= i < |colls| ==> its[i] == k
      invariant !live ==> k == Shortest(colls)
      invariant forall j :: 0 <= j < k ==> vs[j] == Nil
      decreases Shortest(colls) - k
    {
      var t := Current(colls, its, k);
      var v := ap(f, t);
      if v != Nil {
        FirstNonNilAt(vs, k);
        return v;
      }
      live := Advance(colls, its, k);
      k := k + 1;
    }
    FirstNonNilAt(vs, k);
    return Nil;
  }

  // ----- filter, find-if and merge over one or two collections -----

  /** Whether `f` accepts `x`: it is applied to the one-element argument
      list and anything but nil counts as true. */
  predicate Accepts(ap: Applier, f: Value, x: Value)
  {
    ap(f, List([x])) != Nil
  }

  /** The items of `xs` that `f` accepts, in order. */
  function Kept(ap: Applier, f: Value, xs: seq<Value>): (r: seq<Value>)
    ensures |r| <= |xs|
  {
    if xs == [] then []
    else Kept(ap, f, xs[..|xs| - 1]) + (if Accepts(ap, f, xs[|xs| - 1]) then [xs[|xs| - 1]] else [])
  }

  /** The `filter` primitive (the result type of the new collection is not
      part of this model). */
  method Filter(ap: Applier, f: Value, xs: seq<Value>) returns (r: seq<Value>)
    ensures r == Kept(ap, f, xs)
  {
    r := [];
    for i := 0 to |xs|
      invariant r == Kept(ap, f, xs[..i])
    {
      assert xs[..i + 1][..i] == xs[..i];
      if ap(f, List([xs[i]])) != Nil {
        r := r + [xs[i]];
      }
    }
    assert xs[..|xs|] == xs;
  }

  /** Exactly the accepted items survive. */
  lemma {:induction false} KeptMembers(ap: Applier, f: Value, xs: seq<Value>)
    ensures forall x :: x in Kept(ap, f, xs) <==> x in xs && Accepts(ap, f, x)
  {
    if xs != [] {
      var init := xs[..|xs| - 1];
      KeptMembers(ap, f, init);
      assert xs == init + [xs[|xs| - 1]];
    }
  }

  /** Filtering distributes over concatenation. */
  lemma {:induction false} KeptAppend(ap: Applier, f: Value, xs: seq<Value>, ys: seq<Value>)
    ensures Kept(ap, f, xs + ys) == Kept(ap, f, xs) + Kept(ap, f, ys)
  {
    if ys == [] {
      assert xs + ys == xs;
    } else {
      var init := ys[..|ys| - 1];
      KeptAppend(ap, f, xs, init);
      assert (xs + ys)[..|xs + ys| - 1] == xs + init;
    }
  }

  /** Filtering twice with the same predicate keeps the same items. */
  lemma {:induction false} KeptIdempotent(ap: Applier, f: Value, xs: seq<Value>)
    ensures Kept(ap, f, Kept(ap, f, xs)) == Kept(ap, f, xs)
  {
    if xs != [] {
      var init := xs[..|xs| - 1];
      var last := xs[|xs| - 1];
      KeptIdempotent(ap, f, init);
      var tail := if Accepts(ap, f, last) then [last] else [];
      KeptAppend(ap, f, Kept(ap, f, init), tail);
      if Accepts(ap, f, last) {
        assert Kept(ap, f, [last]) == Kept(ap, f, []) + [last];
      }
    }
  }

  /** The position of the first item `f` accepts, or `|xs|`. */
  function FirstAccepted(ap: Applier, f: Value, xs: seq<Value>): (k: nat)
    ensures k <= |xs|
    ensures forall j :: 0 <= j < k ==> !Accepts(ap, f, xs[j])
    ensures k < |xs| ==> Accepts(ap, f, xs[k])
  {
    if xs == [] then 0
    else if Accepts(ap, f, xs[0]) then 0
    else 1 + FirstAccepted(ap, f, xs[1..])
  }

  /** The `find-if` primitive: the first accepted item, nil when there is
      none. */
  method FindIf(ap: Applier, f: Value, xs: seq<Value>) returns (r: Value)
    ensures var k := FirstAccepted(ap, f, xs); r == if k < |xs| then xs[k] else Nil
  {
    for i := 0 to |xs|
      invariant forall j :: 0 <= j < i ==> !Accepts(ap, f, xs[j])
    {
      if ap(f, List([xs[i]])) != Nil {
        FirstAcceptedAt(ap, f, xs, i);
        return xs[i];
      }
    }
    FirstAcceptedAt(ap, f, xs, |xs|);
    return Nil;
  }

  lemma FirstAcceptedAt(ap: Applier, f: Value, xs: seq<Value>, k: nat)
    requires k <= |xs| && forall j :: 0 <= j < k ==> !Accepts(ap, f, xs[j])
    requires k < |xs| ==> Accepts(ap, f, xs[k])
    ensures FirstAccepted(ap, f, xs) == k
  {
    if k > 0 {
      FirstAcceptedAt(ap, f, xs[1..], k - 1);
    }
  }

  /** `find-if` finds the first item `filter` keeps. */
  lemma {:induction false} FindIfHeadsFilter(ap: Applier, f: Value, xs: seq<Value>)
    ensures FirstAccepted(ap, f, xs) < |xs| <==> Kept(ap, f, xs) != []
    ensures FirstAccepted(ap, f, xs) < |xs| ==> Kept(ap, f, xs)[0] == xs[FirstAccepted(ap, f, xs)]
  {
    var k := FirstAccepted(ap, f, xs);
    if k < |xs| {
      var pre, x, post := xs[..k], xs[k], xs[k + 1..];
      assert xs == pre + ([x] + post) by {
        assert xs[k..] == [x] + post;
        assert xs[..k] + xs[k..] == xs;
      }
      KeptAppend(ap, f, pre, [x] + post);
      KeptNone(ap, f, pre);
      KeptAppend(ap, f, [x], post);
      assert Kept(ap, f, [x]) == Kept(ap, f, []) + [x];
    } else {
      KeptNone(ap, f, xs);
    }
  }

  lemma {:induction false} KeptNone(ap: Applier, f: Value, xs: seq<Value>)
    requires forall j :: 0 <= j < |xs| ==> !Accepts(ap, f, xs[j])
    ensures Kept(ap, f, xs) == []
  {
    if xs != [] {
      KeptNone(ap, f, xs[..|xs| - 1]);
    }
  }

  /** The `merge` primitive's result: at each step the head of `s1` is taken
      when the predicate holds for the two heads, else the head of `s2`; once
      either runs out, the rest of the other follows. */
  function Merged(ap: Applier, p: Value, s1: seq<Value>, s2: seq<Value>): (r: seq<Value>)
    ensures |r| == |s1| + |s2|
    decreases |s1| + |s2|
  {
    if s1 == [] then s2
    else if s2 == [] then s1
    else if ap(p, List([s1[0], s2[0]])) != Nil then [s1[0]] + Merged(ap, p, s1[1..], s2)
    else [s2[0]] + Merged(ap, p, s1, s2[1..])
  }

  /** One step of `Merged` from positions `i` and `j`, after the output
      `r` produced so far. */
  lemma MergedStep(ap: Applier, p: Value, s1: seq<Value>, s2: seq<Value>, i: nat, j: nat, r: seq<Value>)
    requires i < |s1| && j < |s2|
    ensures ap(p, List([s1[i], s2[j]])) != Nil ==>
      (r + [s1[i]]) + Merged(ap, p, s1[i + 1..], s2[j..]) == r + Merged(ap, p, s1[i..], s2[j..])
    ensures ap(p, List([s1[i], s2[j]])) == Nil ==>
      (r + [s2[j]]) + Merged(ap, p, s1[i..], s2[j + 1..]) == r + Merged(ap, p, s1[i..], s2[j..])
  {
    assert s1[i..][1..] == s1[i + 1..];
    assert s2[j..][1..] == s2[j + 1..];
    assert s1[i..][0] == s1[i] && s2[j..][0] == s2[j];
  }

  /** Once either collection is used up, `Merged` is the rest of the other. */
  lemma MergedRest(ap: Applier, p: Value, s1: seq<Value>, s2: seq<Value>, i: nat, j: nat)
    requires i <= |s1| && j <= |s2| && (i == |s1| || j == |s2|)
    ensures Merged(ap, p, s1[i..], s2[j..]) == if j < |s2| then s2[j..] else s1[i..]
  {
  }

  method Merge(ap: Applier, p: Value, s1: seq<Value>, s2: seq<Value>) returns (r: seq<Value>)
    ensures r == Merged(ap, p, s1, s2)
  {
    var i, j := 0, 0;
    r := [];
    while i < |s1| && j < |s2|
      invariant i <= |s1| && j <= |s2|
      invariant r + Merged(ap, p, s1[i..], s2[j..]) == Merged(ap, p, s1, s2)
      decreases |s1| - i + |s2| - j
    {
      MergedStep(ap, p, s1, s2, i, j, r);
      if ap(p, List([s1[i], s2[j]])) != Nil {
        r := r + [s1[i]];
        i := i + 1;
      } else {
        r := r + [s2[j]];
        j := j + 1;
      }
    }
    // whichever collection still has items is copied to the end
    var rest := if j < |s2| then s2[j..] else s1[i..];
    MergedRest(ap, p, s1, s2, i, j);
    r := CopyRest(r, rest);
  }

  method CopyRest(r0: seq<Value>, rest: seq<Value>) returns (r: seq<Value>)
    ensures r == r0 + rest
  {
    r := r0;
    for k := 0 to |rest|
      invariant r == r0 + rest[..k]
    {
      assert rest[..k + 1] == rest[..k] + [rest[k]];
      r := r + [rest[k]];
    }
    assert rest[..|rest|] == rest;
  }

  /** The items of `b` whose flag in `m` is `side`, in order. */
  function Pick(b: seq<Value>, m: seq<bool>, side: bool): (r: seq<Value>)
    requires |m| == |b|
    ensures |r| <= |b|
  {
    if b == [] then [] else (if m[0] == side then [b[0]] else []) + Pick(b[1..], m[1..], side)
  }

  /** For each item of `Merged`, whether it is taken from `s1`. */
  function Sides(ap: Applier, p: Value, s1: seq<Value>, s2: seq<Value>): (m: seq<bool>)
    ensures |m| == |s1| + |s2|
    decreases |s1| + |s2|
  {
    if s1 == [] then seq(|s2|, _ => false)
    else if s2 == [] then seq(|s1|, _ => true)
    else if ap(p, List([s1[0], s2[0]])) != Nil then [true] + Sides(ap, p, s1[1..], s2)
    else [false] + Sides(ap, p, s1, s2[1..])
  }

  /** A sequence whose flags are all equal gives all or nothing. */
  lemma {:induction false} PickUniform(b: seq<Value>, flag: bool, side: bool)
    ensures Pick(b, seq(|b|, _ => flag), side) == if flag == side then b else []
  {
    if b != [] {
      assert seq(|b|, _ => flag)[1..] == seq(|b[1..]|, _ => flag);
      PickUniform(b[1..], flag, side);
    }
  }

  /** The result of `merge` interleaves its inputs: the items taken from
      each input are exactly that input, in its order. */
  lemma {:induction false} MergedInterleaves(ap: Applier, p: Value, s1: seq<Value>, s2: seq<Value>)
    ensures Pick(Merged(ap, p, s1, s2), Sides(ap, p, s1, s2), true) == s1
    ensures Pick(Merged(ap, p, s1, s2), Sides(ap, p, s1, s2), false) == s2
    decreases |s1| + |s2|
  {
    if s1 == [] {
      PickUniform(s2, false, true);
      PickUniform(s2, false, false);
    } else if s2 == [] {
      PickUniform(s1, true, true);
      PickUniform(s1, true, false);
    } else if ap(p, List([s1[0], s2[0]])) != Nil {
      MergedInterleaves(ap, p, s1[1..], s2);
      var r, m := Merged(ap, p, s1, s2), Sides(ap, p, s1, s2);
      assert r[1..] == Merged(ap, p, s1[1..], s2) && m[1..] == Sides(ap, p, s1[1..], s2);
      assert s1 == [s1[0]] + s1[1..];
    } else {
      MergedInterleaves(ap, p, s1, s2[1..]);
      var r, m := Merged(ap, p, s1, s2), Sides(ap, p, s1, s2);
      assert r[1..] == Merged(ap, p, s1, s2[1..]) && m[1..] == Sides(ap, p, s1, s2[1..]);
      assert s2 == [s2[0]] + s2[1..];
    }
  }

  /** Merging loses and invents nothing. */
  lemma {:induction false} MergedPermutes(ap: Applier, p: Value, s1: seq<Value>, s2: seq<Value>)
    ensures multiset(Merged(ap, p, s1, s2)) == multiset(s1) + multiset(s2)
    decreases |s1| + |s2|
  {
    if s1 != [] && s2 != [] {
      assert s1 == [s1[0]] + s1[1..];
      assert s2 == [s2[0]] + s2[1..];
      if ap(p, List([s1[0], s2[0]])) != Nil {
        MergedPermutes(ap, p, s1[1..], s2);
      } else {
        MergedPermutes(ap, p, s1, s2[1..]);
      }
    }
  }

  predicate SortedBy(le: (Value, Value) -> bool, s: seq<Value>)
  {
    forall i, j :: 0 <= i < j < |s| ==> le(s[i], s[j])
  }

  /** When the predicate is a total order, merging two sorted collections
      gives a sorted one. */
  lemma {:induction false} MergedSorted(ap: Applier, p: Value, le: (Value, Value) -> bool, s1: seq<Value>, s2: seq<Value>)
    requires forall a, b :: le(a, b) <==> ap(p, List([a, b])) != Nil
    requires forall a, b :: le(a, b) || le(b, a)
    requires forall a, b, c :: le(a, b) && le(b, c) ==> le(a, c)
    requires SortedBy(le, s1) && SortedBy(le, s2)
    ensures SortedBy(le, Merged(ap, p, s1, s2))
    decreases |s1| + |s2|
  {
    if s1 != [] && s2 != [] {
      if le(s1[0], s2[0]) {
        assert Merged(ap, p, s1, s2) == [s1[0]] + Merged(ap, p, s1[1..], s2);
        MergedSorted(ap, p, le, s1[1..], s2);
        HeadLowest(le, s1, s2);
        MergedBelowHead(ap, p, le, s1[0], s1[1..], s2, s1, s2);
      } else {
        assert Merged(ap, p, s1, s2) == [s2[0]] + Merged(ap, p, s1, s2[1..]);
        MergedSorted(ap, p, le, s1, s2[1..]);
        HeadLowest(le, s2, s1);
        MergedBelowHead(ap, p, le, s2[0], s1, s2[1..], s2, s1);
      }
    }
  }

  /** The smaller head in front of the merge of the rest keeps it sorted. */
  lemma MergedBelowHead(ap: Applier, p: Value, le: (Value, Value) -> bool, h: Value,
                        t1: seq<Value>, t2: seq<Value>, s: seq<Value>, other: seq<Value>)
    requires forall a, b :: le(a, b) || le(b, a)
    requires SortedBy(le, Merged(ap, p, t1, t2))
    requires forall x :: x in s || x in other ==> x == h || le(h, x)
    requires forall x :: x in t1 || x in t2 ==> x in s || x in other
    ensures SortedBy(le, [h] + Merged(ap, p, t1, t2))
  {
    var rest := Merged(ap, p, t1, t2);
    forall x | x in rest
      ensures le(h, x)
    {
      MergedFrom(ap, p, t1, t2, x);
    }
    SortedCons(le, h, rest);
  }

  lemma MergedFrom(ap: Applier, p: Value, s1: seq<Value>, s2: seq<Value>, x: Value)
    requires x in Merged(ap, p, s1, s2)
    ensures x in s1 || x in s2
  {
    MergedPermutes(ap, p, s1, s2);
    assert x in multiset(Merged(ap, p, s1, s2));
    assert x in multiset(s1) || x in multiset(s2);
  }

  /** The smaller head of two sorted collections is below every item of
      both. */
  lemma HeadLowest(le: (Value, Value) -> bool, s: seq<Value>, other: seq<Value>)
    requires forall a, b, c :: le(a, b) && le(b, c) ==> le(a, c)
    requires SortedBy(le, s) && SortedBy(le, other) && s != [] && other != []
    requires le(s[0], other[0])
    ensures forall x :: x in s || x in other ==> x == s[0] || le(s[0], x)
  {
    forall x | x in s || x in other
      ensures x == s[0] || le(s[0], x)
    {
      if x in s {
        var k :| 0 <= k < |s| && s[k] == x;
        assert k == 0 || le(s[0], s[k]);
      } else {
        var k :| 0 <= k < |other| && other[k] == x;
        assert k == 0 || le(other[0], other[k]);
      }
    }
  }

  /** A sorted sequence with an item in front that is below all of it. */
  lemma SortedCons(le: (Value, Value) -> bool, h: Value, rest: seq<Value>)
    requires SortedBy(le, rest)
    requires forall x :: x in rest ==> le(h, x)
    ensures SortedBy(le, [h] + rest)
  {
    var r := [h] + rest;
    forall i, j | 0 <= i < j < |r|
      ensures le(r[i], r[j])
    {
      assert r[j] == rest[j - 1];
      if i > 0 {
        assert r[i] == rest[i - 1];
      }
    }
  }
}
