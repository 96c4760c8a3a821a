/** The identity hash table that environment frames use (eqhash.c). It
    starts as a fixed array of key/value/flags slots; once every slot is
    taken it turns into eight chained buckets with a small lookup cache.
    Keys are compared by identity, which for the values of this model is
    equality; the pointer hash is an abstract `hash` function. */
module EqHash {
  import opened Values
  import opened Bits

  /** INITIAL_MASK: large mode always has eight buckets (it never grows). */
  const InitialMask: nat := 7

  /** An entry record of large mode. */
  datatype EqEntry = EqEntry(key: Value, value: Value, flags: int)

  /** The small-mode slots; a slot whose key is `Invalid` is empty. */
  datatype Small = Small(keys: seq<Value>, values: seq<Value>, flags: seq<int>)

  /** Large mode. `entries` holds every entry record ever allocated, by
      identity (the C code's pointers); each chain lists the identities in
      one bucket from head to tail. */
  datatype Large = Large(entries: seq<EqEntry>, chains: seq<seq<nat>>, count: nat)

  /** The table in either mode; a large table also has its cache, whose
      slots hold entry identities. */
  datatype EqState = SmallState(small: Small) | LargeState(large: Large, cache: seq<Option<nat>>)

  /** What dfsch_eqhash_ref reports: whether the key was found, and the
      contents of its `value`, `flags` and `entry` output locations. */
  datatype RefOut = RefOut(found: bool, value: Value, flags: int, entry: Option<nat>)

  predicate Shaped(s: Small)
  {
    |s.values| == |s.keys| && |s.flags| == |s.keys|
  }

  /** The first slot whose key is `k`, or `|keys|` when there is none. */
  function SlotOf(keys: seq<Value>, k: Value): (i: nat)
    ensures i <= |keys|
    ensures i < |keys| ==> keys[i] == k
    ensures forall j :: 0 <= j < i ==> keys[j] != k
  {
    if keys == [] then 0
    else if keys[0] == k then 0
    else 1 + SlotOf(keys[1..], k)
  }

  /** Value and flags of the first slot holding `k`. */
  function SmallLook(s: Small, k: Value): Option<(Value, int)>
    requires Shaped(s)
  {
    var i := SlotOf(s.keys, k);
    if i < |s.keys| then Some((s.values[i], s.flags[i])) else None
  }

  /** Every identity in `chain` names an allocated entry. */
  predicate ChainIn(entries: seq<EqEntry>, chain: seq<nat>)
  {
    forall i :: 0 <= i < |chain| ==> chain[i] < |entries|
  }

  predicate Linked(l: Large)
  {
    |l.chains| > 0 && forall b :: 0 <= b < |l.chains| ==> ChainIn(l.entries, l.chains[b])
  }

  predicate CacheIn(l: Large, cache: seq<Option<nat>>)
  {
    |cache| > 0 && forall c :: 0 <= c < |cache| && cache[c].Some? ==> cache[c].value < |l.entries|
  }

  /** The position of the first entry of `chain` whose key is `k`. */
  function ChainPos(entries: seq<EqEntry>, chain: seq<nat>, k: Value): (p: nat)
    requires ChainIn(entries, chain)
    ensures p <= |chain|
    ensures p < |chain| ==> entries[chain[p]].key == k
    ensures forall j :: 0 <= j < p ==> entries[chain[j]].key != k
  {
    if chain == [] then 0
    else if entries[chain[0]].key == k then 0
    else 1 + ChainPos(entries, chain[1..], k)
  }

  /** The walk of find_entry along bucket `hash(k) & mask`: the identity of
      the first entry with key `k`. */
  function Walk(hash: Value -> nat, l: Large, k: Value): (r: Option<nat>)
    requires Linked(l)
    ensures r.Some? ==> r.value < |l.entries| && l.entries[r.value].key == k
  {
    var chain := l.chains[hash(k) % |l.chains|];
    var p := ChainPos(l.entries, chain, k);
    if p < |chain| then Some(chain[p]) else None
  }

  function LargeLook(hash: Value -> nat, l: Large, k: Value): Option<(Value, int)>
    requires Linked(l)
  {
    match Walk(hash, l, k)
    case Some(id) => Some((l.entries[id].value, l.entries[id].flags))
    case None => None
  }

  predicate Framed(st: EqState)
  {
    match st
    case SmallState(s) => Shaped(s)
    case LargeState(l, c) => Linked(l) && CacheIn(l, c)
  }

  /** The value and flags a lookup of `k` finds, ignoring the cache. */
  function Look(hash: Value -> nat, st: EqState, k: Value): Option<(Value, int)>
    requires Framed(st)
  {
    match st
    case SmallState(s) => SmallLook(s, k)
    case LargeState(l, _) => LargeLook(hash, l, k)
  }

  /** Every entry sits in the bucket of its key's hash. */
  ghost predicate Placed(hash: Value -> nat, l: Large)
    requires Linked(l)
  {
    forall b, i :: 0 <= b < |l.chains| && 0 <= i < |l.chains[b]| ==>
      hash(l.entries[l.chains[b][i]].key) % |l.chains| == b
  }

  /** Every allocated entry is linked into its bucket (nothing is ever
      removed). */
  ghost predicate Stored(hash: Value -> nat, l: Large)
    requires |l.chains| > 0
  {
    forall id :: 0 <= id < |l.entries| ==> id in l.chains[hash(l.entries[id].key) % |l.chains|]
  }

  /** The small-mode invariant: `n` slots, the occupied ones a prefix, an
      empty slot with flags 0. */
  ghost predicate SmallOk(n: nat, s: Small)
  {
    Shaped(s) && |s.keys| == n &&
    (forall i :: 0 <= i < n && s.keys[i] == Invalid ==> s.flags[i] == 0) &&
    (forall i, j :: 0 <= i < j < n && s.keys[i] == Invalid ==> s.keys[j] == Invalid)
  }

  /** The table invariant for small size `n`. Small mode: the occupied slots
      form a prefix and an empty slot has flags 0. Large mode: eight
      buckets, a cache of `2 * n` slots, `count` is the number of entries,
      and every entry is linked into the bucket of its hash. */
  ghost predicate TableOk(hash: Value -> nat, n: nat, st: EqState)
  {
    n > 0 && Framed(st) &&
    match st
    case SmallState(s) => SmallOk(n, s)
    case LargeState(l, c) =>
      |l.chains| == InitialMask + 1 && |c| == 2 * n && l.count == |l.entries| &&
      Placed(hash, l) && Stored(hash, l)
  }

  ghost predicate SmallUnique(s: Small)
  {
    forall i, j :: 0 <= i < j < |s.keys| && s.keys[i] != Invalid ==> s.keys[i] != s.keys[j]
  }

  ghost predicate LargeUnique(l: Large)
    requires Linked(l)
  {
    forall b, i, j :: 0 <= b < |l.chains| && 0 <= i < j < |l.chains[b]| ==>
      l.entries[l.chains[b][i]].key != l.entries[l.chains[b][j]].key
  }

  /** No key is stored twice. Set keeps this; put of a key already present
      breaks it. */
  ghost predicate Unique(st: EqState)
    requires Framed(st)
  {
    match st
    case SmallState(s) => SmallUnique(s)
    case LargeState(l, _) => LargeUnique(l)
  }

  /** `st'` holds the same keys in the same places as `st`: no entry or
      slot was added. */
  predicate SameShape(st: EqState, st': EqState)
  {
    match st
    case SmallState(s) => st'.SmallState? && st'.small.keys == s.keys
    case LargeState(l, _) =>
      st'.LargeState? && st'.large.chains == l.chains && st'.large.count == l.count &&
      |st'.large.entries| == |l.entries|
  }

  // ---------------------------------------------------------------------
  // The operations on values

  /** dfsch_eqhash_init */
  function Init(n: nat, startLarge: bool): EqState
  {
    if startLarge then LargeState(Large([], seq(InitialMask + 1, _ => []), 0), seq(2 * n, _ => None))
    else SmallState(Small(seq(n, _ => Invalid), seq(n, _ => Nil), seq(n, _ => 0)))
  }

  /** alloc_entry consed onto bucket `hash(key) & mask`. */
  function Alloc(hash: Value -> nat, l: Large, e: EqEntry): (r: Large)
    requires Linked(l)
    ensures Linked(r) && |r.entries| == |l.entries| + 1 && |r.chains| == |l.chains|
  {
    var b := hash(e.key) % |l.chains|;
    Large(l.entries + [e], l.chains[b := [|l.entries|] + l.chains[b]], l.count)
  }

  /** The first `i` slots of convert_to_large's loop: each occupied slot's
      key, value and flags in a new entry at the head of its bucket. */
  function ConvertUpTo(hash: Value -> nat, s: Small, i: nat): (r: Large)
    requires Shaped(s) && i <= |s.keys|
    ensures Linked(r) && |r.chains| == InitialMask + 1
  {
    if i == 0 then Large([], seq(InitialMask + 1, _ => []), 0)
    else
      var l := ConvertUpTo(hash, s, i - 1);
      if s.keys[i - 1] != Invalid then Alloc(hash, l, EqEntry(s.keys[i - 1], s.values[i - 1], s.flags[i - 1]))
      else l
  }

  /** convert_to_large: the new buckets, `count = SMALL_SIZE` and a cleared
      cache. */
  function Convert(hash: Value -> nat, s: Small): (r: EqState)
    requires Shaped(s) && |s.keys| > 0
    ensures r.LargeState? && Framed(r)
  {
    LargeState(ConvertUpTo(hash, s, |s.keys|).(count := |s.keys|), seq(2 * |s.keys|, _ => None))
  }

  /** The large-mode half of dfsch_eqhash_put: `count++` and a new entry
      with flags 0 at the head of the key's bucket. */
  function LargePut(hash: Value -> nat, l: Large, k: Value, v: Value): (r: Large)
    requires Linked(l)
    ensures Linked(r)
  {
    Alloc(hash, l, EqEntry(k, v, 0)).(count := l.count + 1)
  }

  /** The small-mode half of dfsch_eqhash_put: key and value written into
      slot `i`, the flags left alone. */
  function SmallPut(s: Small, i: nat, k: Value, v: Value): (r: Small)
    requires Shaped(s) && i < |s.keys|
    ensures Shaped(r)
  {
    Small(s.keys[i := k], s.values[i := v], s.flags)
  }

  /** dfsch_eqhash_put */
  function PutIn(hash: Value -> nat, st: EqState, k: Value, v: Value): (r: EqState)
    requires Framed(st) && (st.SmallState? ==> |st.small.keys| > 0)
    ensures Framed(r)
  {
    match st
    case SmallState(s) =>
      var i := SlotOf(s.keys, Invalid);
      if i < |s.keys| then SmallState(SmallPut(s, i, k, v))
      else
        var t := Convert(hash, s);
        LargeState(LargePut(hash, t.large, k, v), t.cache)
    case LargeState(l, c) => LargeState(LargePut(hash, l, k, v), c)
  }

  /** find_entry: the cached identity when the cache slot `(hash >> 10) %
      (2 * SMALL_SIZE)` holds an entry with key `k`; otherwise the walk,
      which on a hit writes the cache slot. */
  function FindIn(hash: Value -> nat, l: Large, cache: seq<Option<nat>>, k: Value): (r: (Option<nat>, seq<Option<nat>>))
    requires Linked(l) && CacheIn(l, cache)
    ensures CacheIn(l, r.1) && |r.1| == |cache|
    ensures r.0.Some? ==> r.0.value < |l.entries| && l.entries[r.0.value].key == k
  {
    var c := (hash(k) / 1024) % |cache|;
    if cache[c].Some? && l.entries[cache[c].value].key == k then (cache[c], cache)
    else
      match Walk(hash, l, k)
      case Some(id) => (Some(id), cache[c := Some(id)])
      case None => (None, cache)
  }

  /** The entry record `id` with a new value. */
  function WithValue(l: Large, id: nat, v: Value): (r: Large)
    requires id < |l.entries|
    ensures |r.entries| == |l.entries| && r.chains == l.chains && r.count == l.count
    ensures forall j :: 0 <= j < |l.entries| ==> r.entries[j].key == l.entries[j].key
  {
    l.(entries := l.entries[id := l.entries[id].(value := v)])
  }

  /** The entry record `id` with new flags. */
  function WithFlags(l: Large, id: nat, f: int): (r: Large)
    requires id < |l.entries|
    ensures |r.entries| == |l.entries| && r.chains == l.chains && r.count == l.count
    ensures forall j :: 0 <= j < |l.entries| ==> r.entries[j].key == l.entries[j].key
  {
    l.(entries := l.entries[id := l.entries[id].(flags := f)])
  }

  /** dfsch_eqhash_set */
  function SetIn(hash: Value -> nat, st: EqState, k: Value, v: Value): (r: EqState)
    requires Framed(st) && (st.SmallState? ==> |st.small.keys| > 0)
    ensures Framed(r)
  {
    match st
    case SmallState(s) =>
      var i := SlotOf(s.keys, k);
      if i < |s.keys| then SmallState(s.(values := s.values[i := v])) else PutIn(hash, st, k, v)
    case LargeState(l, c) =>
      var (e, c') := FindIn(hash, l, c, k);
      if e.Some? then LargeState(WithValue(l, e.value, v), c') else PutIn(hash, LargeState(l, c'), k, v)
  }

  /** dfsch_eqhash_set_flags */
  function SetFlagsIn(hash: Value -> nat, st: EqState, k: Value, f: int): (r: EqState)
    requires Framed(st)
    ensures Framed(r)
  {
    match st
    case SmallState(s) =>
      var i := SlotOf(s.keys, k);
      if i < |s.keys| then SmallState(s.(flags := s.flags[i := f])) else st
    case LargeState(l, c) =>
      var (e, c') := FindIn(hash, l, c, k);
      if e.Some? then LargeState(WithFlags(l, e.value, f), c') else LargeState(l, c')
  }

  /** dfsch_eqhash_set_if_exists: whether the key was there (the C code's 1
      or 0), and the table with its value replaced. */
  function SetIfExistsIn(hash: Value -> nat, st: EqState, k: Value, v: Value): (r: (bool, EqState))
    requires Framed(st)
    ensures Framed(r.1)
  {
    match st
    case SmallState(s) =>
      var i := SlotOf(s.keys, k);
      if i < |s.keys| then (true, SmallState(s.(values := s.values[i := v]))) else (false, st)
    case LargeState(l, c) =>
      var (e, c') := FindIn(hash, l, c, k);
      if e.Some? then (true, LargeState(WithValue(l, e.value, v), c')) else (false, LargeState(l, c'))
  }

  /** dfsch_eqhash_ref: `value0`, `flags0` and `entry0` are what the output
      locations held before the call. Small mode never writes `entry`. */
  function RefIn(hash: Value -> nat, st: EqState, k: Value, value0: Value, flags0: int, entry0: Option<nat>): (r: (RefOut, EqState))
    requires Framed(st)
    ensures Framed(r.1)
  {
    match st
    case SmallState(s) =>
      var i := SlotOf(s.keys, k);
      if i < |s.keys| then (RefOut(true, s.values[i], s.flags[i], entry0), st)
      else (RefOut(false, value0, flags0, entry0), st)
    case LargeState(l, c) =>
      var (e, c') := FindIn(hash, l, c, k);
      if e.Some? then (RefOut(true, l.entries[e.value].value, l.entries[e.value].flags, e), LargeState(l, c'))
      else (RefOut(false, value0, flags0, entry0), LargeState(l, c'))
  }

  // ---------------------------------------------------------------------
  // Lemmas about chains and entries

  /** A walk depends only on which entries hold the key. */
  lemma ChainPosSame(entries: seq<EqEntry>, entries': seq<EqEntry>, chain: seq<nat>, k: Value)
    requires ChainIn(entries, chain) && ChainIn(entries', chain)
    requires forall i :: 0 <= i < |chain| ==> (entries[chain[i]].key == k) == (entries'[chain[i]].key == k)
    ensures ChainPos(entries, chain, k) == ChainPos(entries', chain, k)
  {
  }

  /** A lookup depends only on which slots hold the key. */
  lemma SlotOfSame(keys: seq<Value>, keys': seq<Value>, k: Value)
    requires |keys'| == |keys|
    requires forall i :: 0 <= i < |keys| ==> (keys[i] == k) == (keys'[i] == k)
    ensures SlotOf(keys, k) == SlotOf(keys', k)
  {
  }

  /** Tables whose entry records have the same keys in the same chains. */
  predicate KeysAgree(l: Large, l': Large)
  {
    l'.chains == l.chains && |l'.entries| == |l.entries| &&
    forall id :: 0 <= id < |l.entries| ==> l'.entries[id].key == l.entries[id].key
  }

  /** Changing the values or flags of entries keeps the invariant. */
  lemma AgreeKeeps(hash: Value -> nat, l: Large, l': Large)
    requires Linked(l) && KeysAgree(l, l')
    ensures Linked(l')
    ensures Placed(hash, l) ==> Placed(hash, l')
    ensures Stored(hash, l) ==> Stored(hash, l')
    ensures LargeUnique(l) ==> LargeUnique(l')
  {
  }

  /** Changing the values or flags of entries changes no walk. */
  lemma AgreeWalk(hash: Value -> nat, l: Large, l': Large, k: Value)
    requires Linked(l) && KeysAgree(l, l')
    ensures Linked(l') && Walk(hash, l', k) == Walk(hash, l, k)
  {
    var chain := l.chains[hash(k) % |l.chains|];
    ChainPosSame(l.entries, l'.entries, chain, k);
  }

  /** Allocating a record does not change a walk over existing ones. */
  lemma {:induction false} ChainPosExtend(entries: seq<EqEntry>, chain: seq<nat>, e: EqEntry, k: Value)
    requires ChainIn(entries, chain)
    ensures ChainIn(entries + [e], chain)
    ensures ChainPos(entries + [e], chain, k) == ChainPos(entries, chain, k)
  {
    if chain != [] {
      assert (entries + [e])[chain[0]] == entries[chain[0]];
      ChainPosExtend(entries, chain[1..], e, k);
    }
  }

  /** A new entry at the head of its bucket: a walk for its key finds it,
      any other walk finds what it found before. */
  lemma AllocWalk(hash: Value -> nat, l: Large, e: EqEntry, k: Value)
    requires Linked(l)
    ensures Walk(hash, Alloc(hash, l, e), k) == if k == e.key then Some(|l.entries|) else Walk(hash, l, k)
  {
    var r := Alloc(hash, l, e);
    var n := |l.chains|;
    var b, bk := hash(e.key) % n, hash(k) % n;
    var chain := l.chains[bk];
    assert r.entries == l.entries + [e];
    if k == e.key {
      assert r.chains[bk] == [|l.entries|] + chain;
      assert ChainPos(r.entries, r.chains[bk], k) == 0;
      assert Walk(hash, r, k) == Some(|l.entries|);
    } else {
      ChainPosExtend(l.entries, chain, e, k);
      var p := ChainPos(l.entries, chain, k);
      if bk == b {
        AllocWalkShared(r.entries, chain, |l.entries|, k);
        assert p < |chain| ==> ([|l.entries|] + chain)[1 + p] == chain[p];
      } else {
        assert r.chains[bk] == chain;
      }
      assert Walk(hash, r, k) == Walk(hash, l, k);
    }
  }

  /** A walk past a head whose key differs. */
  lemma AllocWalkShared(entries: seq<EqEntry>, chain: seq<nat>, id: nat, k: Value)
    requires ChainIn(entries, chain) && id < |entries| && entries[id].key != k
    ensures ChainIn(entries, [id] + chain)
    ensures ChainPos(entries, [id] + chain, k) == 1 + ChainPos(entries, chain, k)
  {
    assert ([id] + chain)[1..] == chain;
  }

  lemma AllocLook(hash: Value -> nat, l: Large, e: EqEntry, k: Value)
    requires Linked(l)
    ensures LargeLook(hash, Alloc(hash, l, e), k) == if k == e.key then Some((e.value, e.flags)) else LargeLook(hash, l, k)
  {
    AllocWalk(hash, l, e, k);
    var w := Walk(hash, l, k);
    if k != e.key && w.Some? {
      assert Alloc(hash, l, e).entries[w.value] == l.entries[w.value];
    }
  }

  /** Allocation keeps every entry in the bucket of its hash, and keeps keys
      unique when the new key was absent. */
  lemma AllocKeeps(hash: Value -> nat, l: Large, e: EqEntry)
    requires Linked(l) && Placed(hash, l) && Stored(hash, l)
    ensures Placed(hash, Alloc(hash, l, e)) && Stored(hash, Alloc(hash, l, e))
    ensures LargeUnique(l) && Walk(hash, l, e.key) == None ==> LargeUnique(Alloc(hash, l, e))
  {
    AllocPlaced(hash, l, e);
    AllocStored(hash, l, e);
    if LargeUnique(l) && Walk(hash, l, e.key) == None {
      AllocUnique(hash, l, e);
    }
  }

  lemma AllocPlaced(hash: Value -> nat, l: Large, e: EqEntry)
    requires Linked(l) && Placed(hash, l)
    ensures Placed(hash, Alloc(hash, l, e))
  {
    var r := Alloc(hash, l, e);
    var b := hash(e.key) % |l.chains|;
    forall bb, i | 0 <= bb < |r.chains| && 0 <= i < |r.chains[bb]|
      ensures hash(r.entries[r.chains[bb][i]].key) % |r.chains| == bb
    {
      if bb == b && i > 0 {
        assert r.chains[bb][i] == l.chains[b][i - 1];
      }
    }
  }

  lemma AllocStored(hash: Value -> nat, l: Large, e: EqEntry)
    requires Linked(l) && Stored(hash, l)
    ensures Stored(hash, Alloc(hash, l, e))
  {
    var r := Alloc(hash, l, e);
    var n := |l.chains|;
    var b := hash(e.key) % n;
    forall id | 0 <= id < |r.entries|
      ensures id in r.chains[hash(r.entries[id].key) % n]
    {
      if id < |l.entries| {
        assert r.entries[id] == l.entries[id];
        var bb := hash(l.entries[id].key) % n;
        assert id in l.chains[bb];
        if bb == b {
          assert r.chains[b] == [|l.entries|] + l.chains[b];
        }
      } else {
        assert r.chains[b][0] == id;
      }
    }
  }

  lemma AllocUnique(hash: Value -> nat, l: Large, e: EqEntry)
    requires Linked(l) && LargeUnique(l) && Walk(hash, l, e.key) == None
    ensures LargeUnique(Alloc(hash, l, e))
  {
    var r := Alloc(hash, l, e);
    var b := hash(e.key) % |l.chains|;
    var chain := l.chains[b];
    forall bb, i, j | 0 <= bb < |r.chains| && 0 <= i < j < |r.chains[bb]|
      ensures r.entries[r.chains[bb][i]].key != r.entries[r.chains[bb][j]].key
    {
      if bb == b {
        assert r.chains[b][j] == chain[j - 1];
        if i > 0 {
          assert r.chains[b][i] == chain[i - 1];
        }
      }
    }
  }

  /** An absent key's bucket holds no entry with that key; in particular the
      cache cannot name one. */
  lemma WalkMissing(hash: Value -> nat, l: Large, k: Value, id: nat)
    requires Linked(l) && Stored(hash, l) && Walk(hash, l, k) == None
    requires id < |l.entries|
    ensures l.entries[id].key != k
  {
    var chain := l.chains[hash(l.entries[id].key) % |l.chains|];
    assert id in chain;
  }

  /** A stored entry with key `k` is the one the walk for `k` finds when keys
      are unique. */
  lemma WalkFinds(hash: Value -> nat, l: Large, k: Value, id: nat)
    requires Linked(l) && Stored(hash, l) && LargeUnique(l)
    requires id < |l.entries| && l.entries[id].key == k
    ensures Walk(hash, l, k) == Some(id)
  {
    var b := hash(k) % |l.chains|;
    var chain := l.chains[b];
    assert id in chain;
    var q :| 0 <= q < |chain| && chain[q] == id;
  }

  // ---------------------------------------------------------------------
  // Properties of the operations

  /** dfsch_eqhash_init leaves no key stored: every small slot empty with
      flags 0, or eight empty buckets, `count = 0` and a clear cache. */
  lemma InitEmpty(hash: Value -> nat, n: nat, startLarge: bool)
    requires n > 0
    ensures TableOk(hash, n, Init(n, startLarge)) && Unique(Init(n, startLarge))
    ensures forall k :: k != Invalid ==> Look(hash, Init(n, startLarge), k) == None
    ensures startLarge ==> Init(n, startLarge).large.count == 0
    ensures startLarge ==> forall c :: 0 <= c < 2 * n ==> Init(n, startLarge).cache[c] == None
  {
  }

  lemma InitOk(hash: Value -> nat, n: nat, startLarge: bool)
    requires n > 0
    ensures TableOk(hash, n, Init(n, startLarge))
  {
  }

  /** find_entry only writes a cache slot with an allocated entry. */
  lemma FindOk(hash: Value -> nat, n: nat, l: Large, c: seq<Option<nat>>, k: Value)
    requires TableOk(hash, n, LargeState(l, c))
    ensures TableOk(hash, n, LargeState(l, FindIn(hash, l, c, k).1))
  {
  }

  /** find_entry takes a cached entry only if its key is the key asked for;
      with unique keys that is the entry the walk finds, so the cache never
      changes what is found. */
  lemma FindTransparent(hash: Value -> nat, n: nat, l: Large, c: seq<Option<nat>>, k: Value)
    requires TableOk(hash, n, LargeState(l, c)) && LargeUnique(l)
    ensures FindIn(hash, l, c, k).0 == Walk(hash, l, k)
    ensures TableOk(hash, n, LargeState(l, FindIn(hash, l, c, k).1))
  {
    var ci := (hash(k) / 1024) % |c|;
    if c[ci].Some? && l.entries[c[ci].value].key == k {
      WalkFinds(hash, l, k, c[ci].value);
    }
  }

  /** find_entry of an absent key returns nothing and leaves the cache as it
      was, whether or not keys are unique. */
  lemma FindMissing(hash: Value -> nat, n: nat, l: Large, c: seq<Option<nat>>, k: Value)
    requires TableOk(hash, n, LargeState(l, c)) && Walk(hash, l, k) == None
    ensures FindIn(hash, l, c, k) == (None, c)
  {
    var ci := (hash(k) / 1024) % |c|;
    if c[ci].Some? {
      WalkMissing(hash, l, k, c[ci].value);
    }
  }

  /** The entries convert_to_large makes from the first `i` slots: one per
      occupied slot, in slot order, with that slot's key, value and flags. */
  function Occupied(s: Small, i: nat): seq<EqEntry>
    requires Shaped(s) && i <= |s.keys|
  {
    if i == 0 then []
    else
      var e := EqEntry(s.keys[i - 1], s.values[i - 1], s.flags[i - 1]);
      Occupied(s, i - 1) + (if s.keys[i - 1] != Invalid then [e] else [])
  }

  lemma {:induction false} ConvertEntries(hash: Value -> nat, s: Small, i: nat)
    requires Shaped(s) && i <= |s.keys|
    ensures ConvertUpTo(hash, s, i).entries == Occupied(s, i)
    ensures ConvertUpTo(hash, s, i).count == 0
    ensures Placed(hash, ConvertUpTo(hash, s, i)) && Stored(hash, ConvertUpTo(hash, s, i))
  {
    if i > 0 {
      ConvertEntries(hash, s, i - 1);
      var l := ConvertUpTo(hash, s, i - 1);
      if s.keys[i - 1] != Invalid {
        AllocKeeps(hash, l, EqEntry(s.keys[i - 1], s.values[i - 1], s.flags[i - 1]));
      }
    }
  }

  /** With every one of the first `i` slots taken, there are `i` entries. */
  lemma {:induction false} OccupiedFull(s: Small, i: nat)
    requires Shaped(s) && i <= |s.keys|
    requires forall j :: 0 <= j < i ==> s.keys[j] != Invalid
    ensures |Occupied(s, i)| == i
  {
    if i > 0 {
      OccupiedFull(s, i - 1);
    }
  }

  /** After the first `i` slots, a key is found exactly when its slot is
      among them, with that slot's value and flags. */
  lemma {:induction false} ConvertLook(hash: Value -> nat, s: Small, i: nat, k: Value)
    requires Shaped(s) && i <= |s.keys| && SmallUnique(s) && k != Invalid
    ensures var j := SlotOf(s.keys, k);
      LargeLook(hash, ConvertUpTo(hash, s, i), k) == if j < i then Some((s.values[j], s.flags[j])) else None
  {
    if i > 0 {
      ConvertLook(hash, s, i - 1, k);
      var l := ConvertUpTo(hash, s, i - 1);
      var j := SlotOf(s.keys, k);
      if s.keys[i - 1] != Invalid {
        AllocLook(hash, l, EqEntry(s.keys[i - 1], s.values[i - 1], s.flags[i - 1]), k);
        if s.keys[i - 1] == k {
          assert j == i - 1;
        }
      }
    }
  }

  lemma {:induction false} ConvertUnique(hash: Value -> nat, s: Small, i: nat)
    requires Shaped(s) && i <= |s.keys| && SmallUnique(s)
    ensures LargeUnique(ConvertUpTo(hash, s, i))
  {
    if i > 0 {
      ConvertUnique(hash, s, i - 1);
      var l := ConvertUpTo(hash, s, i - 1);
      var k := s.keys[i - 1];
      if k != Invalid {
        ConvertLook(hash, s, i - 1, k);
        AllocUnique(hash, l, EqEntry(k, s.values[i - 1], s.flags[i - 1]));
      }
    }
  }

  /** convert_to_large on a full small table: every slot's key, value and
      flags become an entry, `count` is SMALL_SIZE and is the number of
      entries, and the result is a well-formed large table. */
  lemma ConvertKeeps(hash: Value -> nat, n: nat, s: Small)
    requires TableOk(hash, n, SmallState(s)) && SlotOf(s.keys, Invalid) == n
    ensures TableOk(hash, n, Convert(hash, s))
    ensures Convert(hash, s).large.entries == Occupied(s, n) && Convert(hash, s).large.count == n
    ensures forall c :: 0 <= c < 2 * n ==> Convert(hash, s).cache[c] == None
  {
    ConvertEntries(hash, s, n);
    OccupiedFull(s, n);
  }

  /** With unique keys, convert_to_large finds every key where the slots
      did, and keeps keys unique. */
  lemma ConvertLookup(hash: Value -> nat, n: nat, s: Small, k: Value)
    requires TableOk(hash, n, SmallState(s)) && SmallUnique(s) && k != Invalid
    ensures Unique(Convert(hash, s))
    ensures Look(hash, Convert(hash, s), k) == SmallLook(s, k)
  {
    ConvertLook(hash, s, n, k);
    ConvertUnique(hash, s, n);
  }

  /** Small-mode put into the first empty slot keeps the invariant. */
  lemma SmallPutOk(n: nat, s: Small, k: Value, v: Value)
    requires SmallOk(n, s) && SlotOf(s.keys, Invalid) < n
    ensures SmallOk(n, SmallPut(s, SlotOf(s.keys, Invalid), k, v))
  {
    var i := SlotOf(s.keys, Invalid);
    var r := SmallPut(s, i, k, v);
    forall a, b | 0 <= a < b < n && r.keys[a] == Invalid
      ensures r.keys[b] == Invalid
    {
      if a != i {
        assert s.keys[a] == Invalid;
      }
    }
  }

  /** Small-mode put of an absent key: the key is found with the new value
      and flags 0, every other key as before, and keys stay unique. */
  lemma SmallPutLook(n: nat, s: Small, k: Value, v: Value, k': Value)
    requires SmallOk(n, s) && SlotOf(s.keys, Invalid) < n
    requires k != Invalid && k' != Invalid && SmallLook(s, k) == None
    ensures var r := SmallPut(s, SlotOf(s.keys, Invalid), k, v);
      SmallLook(r, k') == (if k' == k then Some((v, 0)) else SmallLook(s, k')) &&
      (SmallUnique(s) ==> SmallUnique(r))
  {
    var i := SlotOf(s.keys, Invalid);
    if k' != k {
      SmallPutOther(s, i, k, v, k');
    } else {
      SmallPutFinds(n, s, i, k, v);
    }
    if SmallUnique(s) {
      SmallPutUnique(n, s, k, v, i);
    }
  }

  lemma SmallPutOther(s: Small, i: nat, k: Value, v: Value, k': Value)
    requires Shaped(s) && i < |s.keys| && s.keys[i] == Invalid && k' != k && k' != Invalid
    ensures SmallLook(SmallPut(s, i, k, v), k') == SmallLook(s, k')
  {
    var r := SmallPut(s, i, k, v);
    var j := SlotOf(s.keys, k');
    assert SlotOf(r.keys, k') == j by {
      SlotOfSame(s.keys, r.keys, k');
    }
    if j < |s.keys| {
      assert j != i && r.values[j] == s.values[j] && r.flags[j] == s.flags[j];
    }
  }

  lemma SmallPutFinds(n: nat, s: Small, i: nat, k: Value, v: Value)
    requires SmallOk(n, s) && i < n && s.keys[i] == Invalid && SmallLook(s, k) == None
    ensures SmallLook(SmallPut(s, i, k, v), k) == Some((v, 0))
  {
    var r := SmallPut(s, i, k, v);
    assert forall j :: 0 <= j < i ==> r.keys[j] == s.keys[j];
    SlotAt(r.keys, k, i);
  }

  /** The first slot holding `k` is at `i`. */
  lemma SlotAt(keys: seq<Value>, k: Value, i: nat)
    requires i < |keys| && keys[i] == k && forall j :: 0 <= j < i ==> keys[j] != k
    ensures SlotOf(keys, k) == i
  {
  }

  lemma SmallPutUnique(n: nat, s: Small, k: Value, v: Value, i: nat)
    requires SmallOk(n, s) && i < n && SlotOf(s.keys, k) == n && SmallUnique(s) && s.keys[i] == Invalid
    ensures SmallUnique(SmallPut(s, i, k, v))
  {
    var r := SmallPut(s, i, k, v);
    forall a, b | 0 <= a < b < n && r.keys[a] != Invalid
      ensures r.keys[a] != r.keys[b]
    {
      if a == i {
        assert s.keys[b] == Invalid;
      }
    }
  }

  /** Large-mode put keeps the invariant. */
  lemma LargePutOk(hash: Value -> nat, n: nat, l: Large, c: seq<Option<nat>>, k: Value, v: Value)
    requires TableOk(hash, n, LargeState(l, c))
    ensures TableOk(hash, n, LargeState(LargePut(hash, l, k, v), c))
  {
    AllocKeeps(hash, l, EqEntry(k, v, 0));
  }

  /** Large-mode put: the new entry heads its bucket, so the key is found
      with the new value and flags 0 even when it was there before; keys
      stay unique when it was absent. */
  lemma LargePutLook(hash: Value -> nat, l: Large, k: Value, v: Value, k': Value)
    requires Linked(l)
    ensures LargeLook(hash, LargePut(hash, l, k, v), k') == if k' == k then Some((v, 0)) else LargeLook(hash, l, k')
    ensures LargeUnique(l) && LargeLook(hash, l, k) == None ==> LargeUnique(LargePut(hash, l, k, v))
  {
    AllocLook(hash, l, EqEntry(k, v, 0), k');
    if LargeUnique(l) && LargeLook(hash, l, k) == None {
      AllocUnique(hash, l, EqEntry(k, v, 0));
    }
  }

  /** dfsch_eqhash_put keeps the invariant: into the first empty slot, or
      through convert_to_large into the large table. */
  lemma PutOk(hash: Value -> nat, n: nat, st: EqState, k: Value, v: Value)
    requires TableOk(hash, n, st)
    ensures TableOk(hash, n, PutIn(hash, st, k, v))
  {
    match st
    case SmallState(s) =>
      if SlotOf(s.keys, Invalid) < n {
        SmallPutOk(n, s, k, v);
      } else {
        ConvertKeeps(hash, n, s);
        var t := Convert(hash, s);
        LargePutOk(hash, n, t.large, t.cache, k, v);
      }
    case LargeState(l, c) =>
      LargePutOk(hash, n, l, c, k, v);
  }

  /** dfsch_eqhash_put of an absent key: the key is then found with the new
      value and flags 0, every other key as before, and keys stay unique. */
  lemma PutLook(hash: Value -> nat, n: nat, st: EqState, k: Value, v: Value, k': Value)
    requires TableOk(hash, n, st) && Unique(st) && k != Invalid && k' != Invalid && Look(hash, st, k) == None
    ensures Look(hash, PutIn(hash, st, k, v), k') == if k' == k then Some((v, 0)) else Look(hash, st, k')
    ensures Unique(PutIn(hash, st, k, v))
  {
    match st
    case SmallState(s) =>
      if SlotOf(s.keys, Invalid) < n {
        SmallPutLook(n, s, k, v, k');
      } else {
        var t := Convert(hash, s);
        ConvertLookup(hash, n, s, k);
        ConvertLookup(hash, n, s, k');
        LargePutLook(hash, t.large, k, v, k');
      }
    case LargeState(l, c) =>
      LargePutLook(hash, l, k, v, k');
  }

  /** dfsch_eqhash_put does not look for the key: putting a key already
      present stores it a second time. In small mode with a free slot the
      earlier slot still wins a lookup; in large mode (reached directly or
      by converting a full table) the new entry heads the bucket and wins. */
  lemma PutPresent(hash: Value -> nat, n: nat, st: EqState, k: Value, v: Value)
    requires TableOk(hash, n, st) && Unique(st) && k != Invalid && Look(hash, st, k).Some?
    ensures !Unique(PutIn(hash, st, k, v))
    ensures Look(hash, PutIn(hash, st, k, v), k) ==
      if st.SmallState? && SlotOf(st.small.keys, Invalid) < n then Look(hash, st, k) else Some((v, 0))
  {
    match st
    case SmallState(s) =>
      var i := SlotOf(s.keys, Invalid);
      var j := SlotOf(s.keys, k);
      if i < n {
        var r := SmallPut(s, i, k, v);
        assert j < i;
        assert r.keys[j] == r.keys[i];
        assert SlotOf(r.keys, k) == j;
      } else {
        var t := Convert(hash, s);
        ConvertLookup(hash, n, s, k);
        LargePresent(hash, t.large, k, v);
      }
    case LargeState(l, c) =>
      LargePresent(hash, l, k, v);
  }

  lemma LargePresent(hash: Value -> nat, l: Large, k: Value, v: Value)
    requires Linked(l) && LargeLook(hash, l, k).Some?
    ensures !LargeUnique(LargePut(hash, l, k, v))
    ensures LargeLook(hash, LargePut(hash, l, k, v), k) == Some((v, 0))
  {
    var r := LargePut(hash, l, k, v);
    var b := hash(k) % |l.chains|;
    var chain := l.chains[b];
    var p := ChainPos(l.entries, chain, k);
    assert r.chains[b] == [|l.entries|] + chain;
    assert r.chains[b][p + 1] == chain[p];
    assert r.entries[r.chains[b][0]].key == r.entries[r.chains[b][p + 1]].key;
    AllocLook(hash, l, EqEntry(k, v, 0), k);
  }

  /** Why the lookup lemmas need unique keys: after a key is put twice
      into a large table, a find_entry made between the two puts leaves
      the first entry in the cache, and find_entry goes on returning it
      while the walk finds the second, newer entry. */
  lemma StaleCacheAfterRepeatedPut(hash: Value -> nat, n: nat, l: Large, c: seq<Option<nat>>, k: Value,
                                   v1: Value, v2: Value)
    requires TableOk(hash, n, LargeState(l, c)) && Walk(hash, l, k) == None
    ensures var l1 := LargePut(hash, l, k, v1);
      var c1 := FindIn(hash, l1, c, k).1;
      var l2 := LargePut(hash, l1, k, v2);
      CacheIn(l2, c1) &&
      FindIn(hash, l2, c1, k).0 == Some(|l.entries|) && l2.entries[|l.entries|].value == v1 &&
      Walk(hash, l2, k) == Some(|l.entries| + 1) && l2.entries[|l.entries| + 1].value == v2
  {
    FindMissing(hash, n, l, c, k);
    AllocWalk(hash, l, EqEntry(k, v1, 0), k);
    var l1 := LargePut(hash, l, k, v1);
    AllocWalk(hash, l1, EqEntry(k, v2, 0), k);
  }

  /** Replacing the value or flags of entry `id` keeps the large invariant
      and uniqueness; the walk still finds `id` for its key, and every
      other key's lookup is unchanged. */
  lemma UpdateKeeps(hash: Value -> nat, n: nat, l: Large, c: seq<Option<nat>>, l': Large, id: nat, k': Value)
    requires TableOk(hash, n, LargeState(l, c)) && KeysAgree(l, l') && l'.count == l.count && CacheIn(l', c)
    requires id < |l.entries|
    requires forall j :: 0 <= j < |l.entries| && j != id ==> l'.entries[j] == l.entries[j]
    ensures TableOk(hash, n, LargeState(l', c))
    ensures LargeUnique(l) ==> LargeUnique(l')
    ensures l.entries[id].key != k' ==> LargeLook(hash, l', k') == LargeLook(hash, l, k')
    ensures Walk(hash, l', k') == Walk(hash, l, k')
  {
    AgreeKeeps(hash, l, l');
    AgreeWalk(hash, l, l', k');
    var w := Walk(hash, l, k');
    if w.Some? && l.entries[id].key != k' {
      assert w.value != id;
    }
  }

  /** dfsch_eqhash_set keeps the invariant. */
  lemma SetOk(hash: Value -> nat, n: nat, st: EqState, k: Value, v: Value)
    requires TableOk(hash, n, st)
    ensures TableOk(hash, n, SetIn(hash, st, k, v))
  {
    match st
    case SmallState(s) =>
      if SlotOf(s.keys, k) == n {
        PutOk(hash, n, st, k, v);
      }
    case LargeState(l, c) =>
      var (e, c') := FindIn(hash, l, c, k);
      if e.Some? {
        UpdateKeeps(hash, n, l, c', WithValue(l, e.value, v), e.value, k);
      } else {
        PutOk(hash, n, LargeState(l, c'), k, v);
      }
  }

  /** After dfsch_eqhash_set(k, v) the key is found with value `v` (and its
      old flags, or 0 when it was new); every other key is found as before;
      keys stay unique. */
  lemma SetLook(hash: Value -> nat, n: nat, st: EqState, k: Value, v: Value, k': Value)
    requires TableOk(hash, n, st) && Unique(st) && k != Invalid && k' != Invalid
    ensures Look(hash, SetIn(hash, st, k, v), k') ==
      if k' != k then Look(hash, st, k')
      else Some((v, if Look(hash, st, k).Some? then Look(hash, st, k).value.1 else 0))
    ensures Unique(SetIn(hash, st, k, v))
  {
    match st
    case SmallState(s) =>
      if SlotOf(s.keys, k) == n {
        PutLook(hash, n, st, k, v, k');
      }
    case LargeState(l, c) =>
      LargeSetLook(hash, n, l, c, k, v, k');
  }

  lemma LargeSetLook(hash: Value -> nat, n: nat, l: Large, c: seq<Option<nat>>, k: Value, v: Value, k': Value)
    requires TableOk(hash, n, LargeState(l, c)) && LargeUnique(l) && k != Invalid && k' != Invalid
    ensures var st := LargeState(l, c);
      Look(hash, SetIn(hash, st, k, v), k') ==
        (if k' != k then Look(hash, st, k')
         else Some((v, if Look(hash, st, k).Some? then Look(hash, st, k).value.1 else 0))) &&
      Unique(SetIn(hash, st, k, v))
  {
    FindTransparent(hash, n, l, c, k);
    var found := FindIn(hash, l, c, k);
    if found.0.Some? {
      var id := found.0.value;
      LargeSetFound(hash, n, l, c, k, v, id, found.1, SetIn(hash, LargeState(l, c), k, v));
      LargeUpdateValue(hash, n, l, found.1, id, v, k');
    } else {
      FindMissing(hash, n, l, c, k);
      assert SetIn(hash, LargeState(l, c), k, v) == PutIn(hash, LargeState(l, c), k, v);
      PutLook(hash, n, LargeState(l, c), k, v, k');
    }
  }

  /** When find_entry finds entry `id`, set and set_if_exists replace its
      value in place. */
  lemma LargeSetFound(hash: Value -> nat, n: nat, l: Large, c: seq<Option<nat>>, k: Value, v: Value,
                      id: nat, c': seq<Option<nat>>, r: EqState)
    requires TableOk(hash, n, LargeState(l, c)) && LargeUnique(l)
    requires FindIn(hash, l, c, k) == (Some(id), c')
    requires r == SetIn(hash, LargeState(l, c), k, v) || (true, r) == SetIfExistsIn(hash, LargeState(l, c), k, v)
    ensures id < |l.entries| && r == LargeState(WithValue(l, id, v), c')
    ensures LargeLook(hash, l, k) == Some((l.entries[id].value, l.entries[id].flags))
  {
  }

  /** dfsch_eqhash_set of a key already present updates it where it is:
      the same slots, or the same chains, count and entries. */
  lemma SetInPlace(hash: Value -> nat, n: nat, st: EqState, k: Value, v: Value)
    requires TableOk(hash, n, st) && Look(hash, st, k).Some?
    ensures SameShape(st, SetIn(hash, st, k, v))
  {
  }

  /** dfsch_eqhash_set_flags never inserts: on an absent key it leaves the
      table exactly as it was. */
  lemma SetFlagsAbsent(hash: Value -> nat, n: nat, st: EqState, k: Value, f: int)
    requires TableOk(hash, n, st) && Look(hash, st, k) == None
    ensures SetFlagsIn(hash, st, k, f) == st
  {
    if st.LargeState? {
      FindMissing(hash, n, st.large, st.cache, k);
    }
  }

  /** dfsch_eqhash_set_flags on a present key gives it the new flags and
      keeps its value; nothing is added and other keys are unaffected. */
  lemma SetFlagsLook(hash: Value -> nat, n: nat, st: EqState, k: Value, f: int, k': Value)
    requires TableOk(hash, n, st) && Unique(st) && k != Invalid && k' != Invalid
    ensures var r := SetFlagsIn(hash, st, k, f);
      TableOk(hash, n, r) && Unique(r) && SameShape(st, r) &&
      Look(hash, r, k') ==
        if k' == k && Look(hash, st, k).Some? then Some((Look(hash, st, k).value.0, f)) else Look(hash, st, k')
  {
    match st
    case SmallState(s) =>
      SmallSetFlagsLook(n, s, k, f, k');
    case LargeState(l, c) =>
      LargeSetFlagsLook(hash, n, l, c, k, f, k');
  }

  lemma SmallSetFlagsLook(n: nat, s: Small, k: Value, f: int, k': Value)
    requires SmallOk(n, s) && k != Invalid
    ensures var i := SlotOf(s.keys, k);
      i < n ==>
        SmallOk(n, s.(flags := s.flags[i := f])) &&
        SmallLook(s.(flags := s.flags[i := f]), k') == if k' == k then Some((s.values[i], f)) else SmallLook(s, k')
  {
  }

  lemma LargeSetFlagsLook(hash: Value -> nat, n: nat, l: Large, c: seq<Option<nat>>, k: Value, f: int, k': Value)
    requires TableOk(hash, n, LargeState(l, c)) && LargeUnique(l)
    ensures var st := LargeState(l, c);
      var r := SetFlagsIn(hash, st, k, f);
      TableOk(hash, n, r) && Unique(r) && SameShape(st, r) &&
      Look(hash, r, k') ==
        if k' == k && Look(hash, st, k).Some? then Some((Look(hash, st, k).value.0, f)) else Look(hash, st, k')
  {
    FindTransparent(hash, n, l, c, k);
    var found := FindIn(hash, l, c, k);
    if found.0.Some? {
      var id := found.0.value;
      assert SetFlagsIn(hash, LargeState(l, c), k, f) == LargeState(WithFlags(l, id, f), found.1);
      assert Look(hash, LargeState(l, c), k) == Some((l.entries[id].value, l.entries[id].flags));
      LargeUpdateFlags(hash, n, l, found.1, id, f, k');
    } else {
      assert SetFlagsIn(hash, LargeState(l, c), k, f) == LargeState(l, found.1);
    }
  }

  /** The found half of set_flags in large mode. */
  lemma LargeUpdateFlags(hash: Value -> nat, n: nat, l: Large, c: seq<Option<nat>>, id: nat, f: int, k': Value)
    requires TableOk(hash, n, LargeState(l, c)) && LargeUnique(l) && id < |l.entries|
    ensures var l' := WithFlags(l, id, f);
      TableOk(hash, n, LargeState(l', c)) && LargeUnique(l') &&
      LargeLook(hash, l', k') == if l.entries[id].key == k' then Some((l.entries[id].value, f)) else LargeLook(hash, l, k')
  {
    var l' := WithFlags(l, id, f);
    UpdateKeeps(hash, n, l, c, l', id, k');
    if l.entries[id].key == k' {
      WalkFinds(hash, l, k', id);
    }
  }

  /** dfsch_eqhash_set_if_exists never inserts: on an absent key it returns
      0 and leaves the table exactly as it was. */
  lemma SetIfExistsAbsent(hash: Value -> nat, n: nat, st: EqState, k: Value, v: Value)
    requires TableOk(hash, n, st) && Look(hash, st, k) == None
    ensures SetIfExistsIn(hash, st, k, v) == (false, st)
  {
    if st.LargeState? {
      FindMissing(hash, n, st.large, st.cache, k);
    }
  }

  /** dfsch_eqhash_set_if_exists returns 1 exactly for a present key, which
      then has the new value and its old flags; nothing is added and other
      keys are unaffected. */
  lemma SetIfExistsLook(hash: Value -> nat, n: nat, st: EqState, k: Value, v: Value, k': Value)
    requires TableOk(hash, n, st) && Unique(st) && k != Invalid && k' != Invalid
    ensures var (found, r) := SetIfExistsIn(hash, st, k, v);
      found == Look(hash, st, k).Some? &&
      TableOk(hash, n, r) && Unique(r) && SameShape(st, r) &&
      Look(hash, r, k') == if k' == k && found then Some((v, Look(hash, st, k).value.1)) else Look(hash, st, k')
  {
    match st
    case SmallState(s) =>
      SmallSetValueLook(n, s, k, v, k');
    case LargeState(l, c) =>
      LargeSetIfExistsLook(hash, n, l, c, k, v, k');
  }

  lemma SmallSetValueLook(n: nat, s: Small, k: Value, v: Value, k': Value)
    requires SmallOk(n, s)
    ensures var i := SlotOf(s.keys, k);
      i < n ==>
        SmallOk(n, s.(values := s.values[i := v])) &&
        SmallLook(s.(values := s.values[i := v]), k') == if k' == k then Some((v, s.flags[i])) else SmallLook(s, k')
  {
  }

  lemma LargeSetIfExistsLook(hash: Value -> nat, n: nat, l: Large, c: seq<Option<nat>>, k: Value, v: Value, k': Value)
    requires TableOk(hash, n, LargeState(l, c)) && LargeUnique(l)
    ensures var st := LargeState(l, c);
      var (found, r) := SetIfExistsIn(hash, st, k, v);
      found == Look(hash, st, k).Some? &&
      TableOk(hash, n, r) && Unique(r) && SameShape(st, r) &&
      Look(hash, r, k') == if k' == k && found then Some((v, Look(hash, st, k).value.1)) else Look(hash, st, k')
  {
    var res := SetIfExistsIn(hash, LargeState(l, c), k, v);
    LargeSetIfExistsSteps(hash, n, l, c, k, v, k', res.0, res.1);
  }

  lemma LargeSetIfExistsSteps(hash: Value -> nat, n: nat, l: Large, c: seq<Option<nat>>, k: Value, v: Value, k': Value,
                              found: bool, r: EqState)
    requires TableOk(hash, n, LargeState(l, c)) && LargeUnique(l)
    requires (found, r) == SetIfExistsIn(hash, LargeState(l, c), k, v)
    ensures found == LargeLook(hash, l, k).Some? && TableOk(hash, n, r) && SameShape(LargeState(l, c), r)
    ensures LargeUnique(r.large)
    ensures LargeLook(hash, r.large, k') ==
      if k' == k && found then Some((v, LargeLook(hash, l, k).value.1)) else LargeLook(hash, l, k')
  {
    FindTransparent(hash, n, l, c, k);
    var fr := FindIn(hash, l, c, k);
    if fr.0.Some? {
      var id := fr.0.value;
      LargeSetFound(hash, n, l, c, k, v, id, fr.1, r);
      LargeUpdateValue(hash, n, l, fr.1, id, v, k');
    }
  }

  /** The found half of set and set_if_exists in large mode. */
  lemma LargeUpdateValue(hash: Value -> nat, n: nat, l: Large, c: seq<Option<nat>>, id: nat, v: Value, k': Value)
    requires TableOk(hash, n, LargeState(l, c)) && LargeUnique(l) && id < |l.entries|
    ensures var l' := WithValue(l, id, v);
      TableOk(hash, n, LargeState(l', c)) && LargeUnique(l') &&
      LargeLook(hash, l', k') == if l.entries[id].key == k' then Some((v, l.entries[id].flags)) else LargeLook(hash, l, k')
  {
    var l' := WithValue(l, id, v);
    UpdateKeeps(hash, n, l, c, l', id, k');
    if l.entries[id].key == k' {
      WalkFinds(hash, l, k', id);
    }
  }

  /** dfsch_eqhash_ref of an absent key returns 0, writes none of the output
      locations and leaves the table (its cache included) as it was. */
  lemma RefMissing(hash: Value -> nat, n: nat, st: EqState, k: Value, value0: Value, flags0: int, entry0: Option<nat>)
    requires TableOk(hash, n, st) && Look(hash, st, k) == None
    ensures RefIn(hash, st, k, value0, flags0, entry0) == (RefOut(false, value0, flags0, entry0), st)
  {
    if st.LargeState? {
      FindMissing(hash, n, st.large, st.cache, k);
    }
  }

  /** dfsch_eqhash_ref returns 1 exactly for a stored key and yields its
      value and flags (and in large mode its entry); only the cache changes,
      so every lookup finds what it found before. */
  lemma RefResult(hash: Value -> nat, n: nat, st: EqState, k: Value, value0: Value, flags0: int, entry0: Option<nat>)
    requires TableOk(hash, n, st) && Unique(st)
    ensures var (out, r) := RefIn(hash, st, k, value0, flags0, entry0);
      out.found == Look(hash, st, k).Some? &&
      (out.found ==> (out.value, out.flags) == Look(hash, st, k).value) &&
      (out.found && st.LargeState? ==> out.entry == Walk(hash, st.large, k)) &&
      (st.SmallState? ==> out.entry == entry0) &&
      TableOk(hash, n, r) && Unique(r) && SameShape(st, r) &&
      forall k' :: Look(hash, r, k') == Look(hash, st, k')
  {
    if st.LargeState? {
      FindTransparent(hash, n, st.large, st.cache, k);
    }
  }

  /** After dfsch_eqhash_set(k, v), dfsch_eqhash_ref(k) returns 1 and
      yields `v`, on every table: set and ref reach the key through the
      same first slot, or through the same find_entry, whose cache slot
      set has just pointed at the entry it wrote. */
  lemma SetThenRef(hash: Value -> nat, n: nat, st: EqState, k: Value, v: Value, value0: Value, flags0: int, entry0: Option<nat>)
    requires TableOk(hash, n, st)
    ensures RefIn(hash, SetIn(hash, st, k, v), k, value0, flags0, entry0).0.found
    ensures RefIn(hash, SetIn(hash, st, k, v), k, value0, flags0, entry0).0.value == v
  {
    match st
    case SmallState(s) => SmallSetThenRef(hash, n, s, k, v, value0, flags0, entry0);
    case LargeState(l, c) => LargeSetThenRef(hash, n, l, c, k, v, value0, flags0, entry0);
  }

  /** The small-mode half of SetThenRef: set writes the first slot holding
      the key, or puts the key in the first empty slot, or converts a full
      table and puts it at the head of its bucket. */
  lemma SmallSetThenRef(hash: Value -> nat, n: nat, s: Small, k: Value, v: Value, value0: Value, flags0: int, entry0: Option<nat>)
    requires TableOk(hash, n, SmallState(s))
    ensures var out := RefIn(hash, SetIn(hash, SmallState(s), k, v), k, value0, flags0, entry0).0;
      out.found && out.value == v
  {
    if SlotOf(s.keys, k) == n {
      if SlotOf(s.keys, Invalid) < n {
        SmallPutThenRef(hash, n, s, k, v, value0, flags0, entry0);
      } else {
        PutThenRefLarge(hash, Convert(hash, s).large, Convert(hash, s).cache, k, v);
      }
    }
  }

  /** A small-mode put of a key no slot holds writes the first empty slot,
      which the next lookup finds first. */
  lemma SmallPutThenRef(hash: Value -> nat, n: nat, s: Small, k: Value, v: Value, value0: Value, flags0: int, entry0: Option<nat>)
    requires TableOk(hash, n, SmallState(s)) && SlotOf(s.keys, k) == n && SlotOf(s.keys, Invalid) < n
    ensures var out := RefIn(hash, PutIn(hash, SmallState(s), k, v), k, value0, flags0, entry0).0;
      out.found && out.value == v
  {
    var i := SlotOf(s.keys, Invalid);
    SlotAt(SmallPut(s, i, k, v).keys, k, i);
  }

  /** The large-mode half of SetThenRef: set writes the entry find_entry
      returned and left in the cache, or puts a new entry at the head of the
      bucket. */
  lemma LargeSetThenRef(hash: Value -> nat, n: nat, l: Large, c: seq<Option<nat>>, k: Value, v: Value,
                        value0: Value, flags0: int, entry0: Option<nat>)
    requires TableOk(hash, n, LargeState(l, c))
    ensures var out := RefIn(hash, SetIn(hash, LargeState(l, c), k, v), k, value0, flags0, entry0).0;
      out.found && out.value == v
  {
    var (e, c') := FindIn(hash, l, c, k);
    if e.Some? {
      var l' := WithValue(l, e.value, v);
      assert c'[(hash(k) / 1024) % |c'|] == e;
      assert SetIn(hash, LargeState(l, c), k, v) == LargeState(l', c');
      assert FindIn(hash, l', c', k).0 == e;
    } else {
      assert SetIn(hash, LargeState(l, c), k, v) == LargeState(LargePut(hash, l, k, v), c);
      PutThenRefLarge(hash, l, c, k, v);
    }
  }

  /** A large-mode put of a key that the cache does not hold is found by the
      next find_entry: the new entry heads the key's bucket. */
  lemma PutThenRefLarge(hash: Value -> nat, l: Large, c: seq<Option<nat>>, k: Value, v: Value)
    requires Linked(l) && CacheIn(l, c)
    requires var ci := (hash(k) / 1024) % |c|; c[ci].Some? ==> l.entries[c[ci].value].key != k
    ensures var l' := LargePut(hash, l, k, v);
      CacheIn(l', c) && FindIn(hash, l', c, k).0 == Some(|l.entries|) && l'.entries[|l.entries|].value == v
  {
    AllocWalk(hash, l, EqEntry(k, v, 0), k);
  }

  /** set_flags keeps the invariant (the sentinel is never a key). */
  lemma SetFlagsOk(hash: Value -> nat, n: nat, st: EqState, k: Value, f: int)
    requires TableOk(hash, n, st) && k != Invalid
    ensures TableOk(hash, n, SetFlagsIn(hash, st, k, f))
  {
    match st
    case SmallState(s) =>
      SmallSetFlagsLook(n, s, k, f, k);
    case LargeState(l, c) =>
      var fr := FindIn(hash, l, c, k);
      if fr.0.Some? {
        UpdateKeeps(hash, n, l, fr.1, WithFlags(l, fr.0.value, f), fr.0.value, k);
      }
  }

  /** set_if_exists keeps the invariant. */
  lemma SetIfExistsOk(hash: Value -> nat, n: nat, st: EqState, k: Value, v: Value)
    requires TableOk(hash, n, st)
    ensures TableOk(hash, n, SetIfExistsIn(hash, st, k, v).1)
  {
    match st
    case SmallState(s) =>
      SmallSetValueLook(n, s, k, v, k);
    case LargeState(l, c) =>
      var fr := FindIn(hash, l, c, k);
      if fr.0.Some? {
        UpdateKeeps(hash, n, l, fr.1, WithValue(l, fr.0.value, v), fr.0.value, k);
      }
  }

  /** The cache loop of init and convert_to_large. */
  method ClearCache(cache: array<Option<nat>>)
    modifies cache
    ensures cache[..] == seq(cache.Length, _ => None)
  {
    for i := 0 to cache.Length
      invariant forall j :: 0 <= j < i ==> cache[j] == None
    {
      cache[i] := None;
    }
  }

  /** The slot loop of init: every slot empty. */
  method ClearSlots(keys: array<Value>, values: array<Value>, flags: array<int>)
    requires keys != values && values.Length == keys.Length && flags.Length == keys.Length
    modifies keys, values, flags
    ensures keys[..] == seq(keys.Length, _ => Invalid)
    ensures values[..] == seq(keys.Length, _ => Nil)
    ensures flags[..] == seq(keys.Length, _ => 0)
  {
    for i := 0 to keys.Length
      invariant forall j :: 0 <= j < i ==> keys[j] == Invalid && values[j] == Nil && flags[j] == 0
    {
      keys[i] := Invalid;
      values[i] := Nil;
      flags[i] := 0;
    }
  }

  // ---------------------------------------------------------------------
  // The table object (dfsch_eqhash_t)

  class EqTable {
    /** DFSCH_EQHASH_SMALL_SIZE */
    const smallSize: nat
    /** fast_ptr_hash */
    const hash: Value -> nat
    var isLarge: bool
    var keys: array<Value>
    var values: array<Value>
    var flags: array<int>
    var entries: seq<EqEntry>
    var vector: array<seq<nat>>
    var mask: nat
    var count: nat
    var cache: array<Option<nat>>

    /** The table as a value: the slots in small mode, the entries, buckets,
        count and cache in large mode. */
    ghost function St(): EqState
      reads this, keys, values, flags, vector, cache
    {
      if isLarge then LargeState(Large(entries, vector[..], count), cache[..])
      else SmallState(Small(keys[..], values[..], flags[..]))
    }

    ghost predicate Valid()
      reads this, keys, values, flags, vector, cache
    {
      keys != values && keys.Length == smallSize && values.Length == smallSize &&
      flags.Length == smallSize && cache.Length == 2 * smallSize &&
      (isLarge ==> vector.Length == mask + 1 && mask == InitialMask) &&
      TableOk(hash, smallSize, St())
    }

    /** dfsch_eqhash_init */
    constructor (smallSize: nat, hash: Value -> nat, startLarge: bool)
      requires smallSize > 0
      ensures Valid() && St() == Init(smallSize, startLarge)
      ensures this.smallSize == smallSize && this.hash == hash
      ensures fresh(keys) && fresh(values) && fresh(flags) && fresh(vector) && fresh(cache)
    {
      this.smallSize := smallSize;
      this.hash := hash;
      var ks := new Value[smallSize];
      var vs := new Value[smallSize];
      var fs := new int[smallSize];
      var cs := new Option<nat>[2 * smallSize];
      var vec := new seq<nat>[0];
      if startLarge {
        ClearCache(cs);
        mask := InitialMask;
        count := 0;
        vec := new seq<nat>[InitialMask + 1](_ => []);
        assert vec[..] == seq(InitialMask + 1, _ => []);
      } else {
        ClearSlots(ks, vs, fs);
      }
      keys, values, flags, cache, vector := ks, vs, fs, cs, vec;
      entries := [];
      isLarge := startLarge;
      new;
      assert St() == Init(smallSize, startLarge);
      InitOk(hash, smallSize, startLarge);
    }

    /** The small-mode loop `keys[i] == key` of set, set_flags,
        set_if_exists and ref, and of put looking for an empty slot. */
    method SmallSearch(key: Value) returns (i: nat)
      ensures i == SlotOf(keys[..], key)
    {
      i := 0;
      while i < keys.Length && keys[i] != key
        invariant i <= keys.Length
        invariant forall j :: 0 <= j < i ==> keys[j] != key
      {
        i := i + 1;
      }
      if i < keys.Length {
        SlotAt(keys[..], key, i);
      }
    }

    /** The walk of find_entry along one chain. */
    method ChainSearch(chain: seq<nat>, key: Value) returns (p: nat)
      requires ChainIn(entries, chain)
      ensures p == ChainPos(entries, chain, key)
    {
      p := 0;
      while p < |chain| && entries[chain[p]].key != key
        invariant p <= |chain|
        invariant forall j :: 0 <= j < p ==> entries[chain[j]].key != key
      {
        p := p + 1;
      }
    }

    /** The slot loop of convert_to_large: every occupied slot becomes an
        entry at the head of its bucket in a new eight-bucket vector. */
    method Buckets() returns (es: seq<EqEntry>, nv: array<seq<nat>>)
      requires keys.Length == smallSize && values.Length == smallSize && flags.Length == smallSize
      ensures fresh(nv) && nv.Length == InitialMask + 1
      ensures Large(es, nv[..], 0) == ConvertUpTo(hash, Small(keys[..], values[..], flags[..]), smallSize)
    {
      ghost var s := Small(keys[..], values[..], flags[..]);
      nv := new seq<nat>[InitialMask + 1](_ => []);
      es := [];
      assert IsPow2(InitialMask + 1) by {
        assert IsPow2(1) && IsPow2(2) && IsPow2(4);
      }
      for i := 0 to smallSize
        invariant Large(es, nv[..], 0) == ConvertUpTo(hash, s, i)
        modifies nv
      {
        if keys[i] != Invalid {
          var h := hash(keys[i]);
          var b := BitAnd(h, InitialMask);
          AndMask(h, InitialMask);
          nv[b] := [|es|] + nv[b];
          es := es + [EqEntry(keys[i], values[i], flags[i])];
        }
      }
    }

    /** convert_to_large */
    method ConvertToLarge()
      requires !isLarge && Valid()
      modifies this, cache
      ensures isLarge && fresh(vector) && vector.Length == mask + 1 && mask == InitialMask
      ensures keys == old(keys) && values == old(values) && flags == old(flags) && cache == old(cache)
      ensures St() == Convert(hash, old(St()).small)
    {
      var es, nv := Buckets();
      ClearCache(cache);
      entries := es;
      vector := nv;
      count := smallSize;
      mask := InitialMask;
      isLarge := true;
    }

    /** find_entry: the cache slot first, then the key's bucket. */
    method FindEntry(key: Value) returns (e: Option<nat>)
      requires isLarge && Valid()
      modifies cache
      ensures (e, cache[..]) == FindIn(hash, Large(entries, vector[..], count), old(cache[..]), key)
      ensures Valid()
    {
      FindOk(hash, smallSize, Large(entries, vector[..], count), cache[..], key);
      var h := hash(key);
      var slot := (h / 1024) % (2 * smallSize);
      var cached := cache[slot];
      if cached.Some? && entries[cached.value].key == key {
        return cached;
      }
      var b := BitAnd(h, mask);
      assert IsPow2(mask + 1) by {
        assert IsPow2(1) && IsPow2(2) && IsPow2(4);
      }
      AndMask(h, mask);
      var chain := vector[b];
      var p := ChainSearch(chain, key);
      if p < |chain| {
        e := Some(chain[p]);
        cache[slot] := e;
      } else {
        e := None;
      }
    }

    /** The large-mode half of dfsch_eqhash_put. */
    method LargeInsert(key: Value, value: Value)
      requires isLarge && Valid()
      modifies this, vector
      ensures isLarge && keys == old(keys) && values == old(values) && flags == old(flags)
      ensures cache == old(cache) && vector == old(vector) && mask == old(mask)
      ensures St() == LargeState(LargePut(hash, old(St()).large, key, value), cache[..])
    {
      var h := hash(key);
      count := count + 1;
      var b := BitAnd(h, mask);
      assert IsPow2(mask + 1) by {
        assert IsPow2(1) && IsPow2(2) && IsPow2(4);
      }
      AndMask(h, mask);
      vector[b] := [|entries|] + vector[b];
      entries := entries + [EqEntry(key, value, 0)];
    }

    /** dfsch_eqhash_put: the first empty slot in small mode; a full small
        table is converted first. */
    method Put(key: Value, value: Value)
      requires Valid()
      modifies this, keys, values, vector, cache
      ensures Valid() && St() == PutIn(hash, old(St()), key, value)
      ensures keys == old(keys) && values == old(values) && flags == old(flags) && cache == old(cache)
    {
      ghost var st := St();
      if !isLarge {
        var i := SmallSearch(Invalid);
        if i < smallSize {
          keys[i] := key;
          values[i] := value;
          assert St() == SmallState(SmallPut(st.small, i, key, value));
          PutOk(hash, smallSize, st, key, value);
          return;
        }
        ConvertToLarge();
        ConvertKeeps(hash, smallSize, st.small);
      }
      LargeInsert(key, value);
      PutOk(hash, smallSize, st, key, value);
    }

    /** dfsch_eqhash_set: replace the value of a present key, otherwise put. */
    method Set(key: Value, value: Value)
      requires Valid()
      modifies this, keys, values, vector, cache
      ensures Valid() && St() == SetIn(hash, old(St()), key, value)
      ensures keys == old(keys) && values == old(values) && flags == old(flags) && cache == old(cache)
    {
      ghost var st := St();
      if isLarge {
        var e := FindEntry(key);
        if e.Some? {
          entries := entries[e.value := entries[e.value].(value := value)];
          SetOk(hash, smallSize, st, key, value);
          return;
        }
      } else {
        var i := SmallSearch(key);
        if i < smallSize {
          values[i] := value;
          SetOk(hash, smallSize, st, key, value);
          return;
        }
      }
      Put(key, value);
      SetOk(hash, smallSize, st, key, value);
    }

    /** dfsch_eqhash_set_flags: new flags for a present key; an absent key
        is ignored. The sentinel is never passed as a key. */
    method SetFlags(key: Value, f: int)
      requires Valid() && key != Invalid
      modifies this, flags, cache
      ensures Valid() && St() == SetFlagsIn(hash, old(St()), key, f)
      ensures keys == old(keys) && values == old(values) && flags == old(flags) && cache == old(cache)
      ensures vector == old(vector)
    {
      ghost var st := St();
      if isLarge {
        var e := FindEntry(key);
        if e.Some? {
          entries := entries[e.value := entries[e.value].(flags := f)];
        }
      } else {
        var i := SmallSearch(key);
        if i < smallSize {
          flags[i] := f;
        }
      }
      SetFlagsOk(hash, smallSize, st, key, f);
    }

    /** dfsch_eqhash_set_if_exists: replace the value of a present key and
        report whether it was present; an absent key is not added. */
    method SetIfExists(key: Value, value: Value) returns (r: bool)
      requires Valid()
      modifies this, values, cache
      ensures Valid() && (r, St()) == SetIfExistsIn(hash, old(St()), key, value)
      ensures keys == old(keys) && values == old(values) && flags == old(flags) && cache == old(cache)
      ensures vector == old(vector)
    {
      ghost var st := St();
      if isLarge {
        var e := FindEntry(key);
        r := e.Some?;
        if r {
          entries := entries[e.value := entries[e.value].(value := value)];
        }
      } else {
        var i := SmallSearch(key);
        r := i < smallSize;
        if r {
          values[i] := value;
        }
      }
      SetIfExistsOk(hash, smallSize, st, key, value);
    }

    /** dfsch_eqhash_unset: not implemented by the table; it always reports
        success and removes nothing. */
    method Unset(key: Value) returns (r: int)
      ensures r == 1
    {
      r := 1;
    }

    /** dfsch_eqhash_ref: `value0`, `flags0` and `entry0` are the contents of
        the caller's output locations; they are returned unchanged for an
        absent key, and small mode never writes `entry`. */
    method Ref(key: Value, value0: Value, flags0: int, entry0: Option<nat>)
      returns (found: bool, value: Value, fl: int, entry: Option<nat>)
      requires Valid()
      modifies cache
      ensures Valid() && (RefOut(found, value, fl, entry), St()) == RefIn(hash, old(St()), key, value0, flags0, entry0)
    {
      found, value, fl, entry := false, value0, flags0, entry0;
      if isLarge {
        ghost var l := Large(entries, vector[..], count);
        var e := FindEntry(key);
        if e.Some? {
          found, value, fl, entry := true, entries[e.value].value, entries[e.value].flags, e;
        }
        assert St() == LargeState(l, cache[..]);
      } else {
        var i := SmallSearch(key);
        if i < smallSize {
          found, value, fl := true, values[i], flags[i];
        }
      }
    }
  }
}
