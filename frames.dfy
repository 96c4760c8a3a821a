/** Environments as the control forms see them: a store of frames, each a
    finite map of bindings with a parent environment object, lookup along
    the parent chain, the store operations dfsch_new_frame and
    dfsch_define, and the interface to the evaluator, which is not part of
    this model. */
module Frames {
  import opened Values

  /** One frame: its bindings and the environment it extends. */
  datatype Frame = Frame(vars: map<Value, Value>, parent: Value)

  /** dfsch_eval as seen by the forms: the value of an expression in an
      environment, given the bindings of the whole store. */
  type Evaluator = (Value, Value, seq<Frame>) -> Value

  /** What a form hands back to the evaluator to continue with in tail
      position: a body to run in an environment, or a call. */
  datatype Next = Body(code: Value, env: Value) | Apply(proc: Value, args: Value)

  /** `e` names a frame of the store. */
  predicate IsEnv(e: Value, frames: seq<Frame>)
  {
    e.Env? && e.frame < |frames|
  }

  /** Every frame extends an older frame or an object that is not a frame:
      new frames are only ever made over environments that exist. */
  predicate WellFormed(frames: seq<Frame>)
  {
    forall i :: 0 <= i < |frames| && frames[i].parent.Env? ==> frames[i].parent.frame < i
  }

  /** dfsch_env_get: the innermost binding of `name` seen from `env`.  The
      walk only moves to strictly older frames, which in a well-formed store
      is every parent link. */
  function Lookup(frames: seq<Frame>, name: Value, env: Value): Option<Value>
    decreases if env.Env? then env.frame else 0
  {
    if !IsEnv(env, frames) then None
    else
      var f := frames[env.frame];
      if name in f.vars then Some(f.vars[name])
      else if f.parent.Env? && f.parent.frame < env.frame then Lookup(frames, name, f.parent)
      else None
  }

  /** The store after dfsch_define(name, value, Env(f)). */
  function Defined(frames: seq<Frame>, name: Value, value: Value, f: nat): (r: seq<Frame>)
    requires f < |frames|
    ensures |r| == |frames| && r[f] == Frame(frames[f].vars[name := value], frames[f].parent)
    ensures forall i :: 0 <= i < |frames| && i != f ==> r[i] == frames[i]
  {
    frames[f := Frame(frames[f].vars[name := value], frames[f].parent)]
  }

  /** A definition is seen by a lookup from the frame it was made in. */
  lemma LookupDefined(frames: seq<Frame>, name: Value, value: Value, f: nat)
    requires f < |frames|
    ensures Lookup(Defined(frames, name, value, f), name, Env(f)) == Some(value)
  {
  }

  /** A definition changes no lookup of another name, from any environment. */
  lemma {:induction false} LookupDefinedOther(frames: seq<Frame>, name: Value, value: Value, f: nat,
                                              other: Value, env: Value)
    requires f < |frames| && other != name
    ensures Lookup(Defined(frames, name, value, f), other, env) == Lookup(frames, other, env)
    decreases if env.Env? then env.frame else 0
  {
    var d := Defined(frames, name, value, f);
    if IsEnv(env, frames) {
      assert d[env.frame].vars.Keys - {name} == frames[env.frame].vars.Keys - {name};
      assert d[env.frame].parent == frames[env.frame].parent;
      var p := frames[env.frame].parent;
      if other !in frames[env.frame].vars && p.Env? && p.frame < env.frame {
        LookupDefinedOther(frames, name, value, f, other, p);
      }
    }
  }

  /** Frames added to the store change no lookup from an environment that
      was already there. */
  lemma {:induction false} LookupAppend(frames: seq<Frame>, extra: seq<Frame>, name: Value, env: Value)
    requires !env.Env? || env.frame < |frames|
    ensures Lookup(frames + extra, name, env) == Lookup(frames, name, env)
    decreases if env.Env? then env.frame else 0
  {
    if env.Env? {
      assert (frames + extra)[env.frame] == frames[env.frame];
      var p := frames[env.frame].parent;
      if name !in frames[env.frame].vars && p.Env? && p.frame < env.frame {
        LookupAppend(frames, extra, name, p);
      }
    }
  }

  /** A lookup from a new frame finds its own bindings first and otherwise
      continues in the environment the frame extends. */
  lemma NewFrameLookup(frames: seq<Frame>, vars: map<Value, Value>, parent: Value, name: Value)
    requires !parent.Env? || parent.frame < |frames|
    ensures Lookup(frames + [Frame(vars, parent)], name, Env(|frames|))
         == if name in vars then Some(vars[name]) else Lookup(frames, name, parent)
  {
    if name !in vars {
      LookupAppend(frames, [Frame(vars, parent)], name, parent);
    }
  }

  /** Defining a name in a frame just made gives that frame one binding. */
  lemma DefineInNew(frames: seq<Frame>, parent: Value, name: Value, value: Value)
    ensures Defined(frames + [Frame(map[], parent)], name, value, |frames|)
         == frames + [Frame(map[name := value], parent)]
  {
  }

  /** A frame made over an existing environment keeps the store well formed,
      and so does a definition. */
  lemma NewFrameWellFormed(frames: seq<Frame>, vars: map<Value, Value>, parent: Value)
    requires WellFormed(frames) && (!parent.Env? || parent.frame < |frames|)
    ensures WellFormed(frames + [Frame(vars, parent)])
  {
  }

  lemma DefinedWellFormed(frames: seq<Frame>, name: Value, value: Value, f: nat)
    requires WellFormed(frames) && f < |frames|
    ensures WellFormed(Defined(frames, name, value, f))
  {
  }

  /** The store of frames of one thread of evaluation. */
  class Store {
    var frames: seq<Frame>

    constructor()
      ensures frames == []
    {
      frames := [];
    }

    /** dfsch_new_frame: an empty frame extending `parent`. */
    method NewFrame(parent: Value) returns (env: Value)
      modifies this
      ensures env == Env(|old(frames)|)
      ensures frames == old(frames) + [Frame(map[], parent)]
    {
      env := Env(|frames|);
      frames := frames + [Frame(map[], parent)];
    }

    /** dfsch_define: binds `name` in the innermost frame of `env`,
        replacing an earlier binding there, and returns the value. */
    method Define(name: Value, value: Value, env: Value) returns (r: Value)
      requires IsEnv(env, frames)
      modifies this
      ensures r == value
      ensures frames == Defined(old(frames), name, value, env.frame)
    {
      frames := Defined(frames, name, value, env.frame);
      r := value;
    }
  }
}
