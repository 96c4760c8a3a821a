/** The chained hash table of hash.c: a power-of-two vector of buckets, each a
    chain of (hash, key, value) entries, addressed by `hash & mask`, with one of
    three key equalities (eq?, eqv?, equal?).

    The buckets are modelled as a `seq` of chains, newest entry first; a chain
    is what the C code reaches by following `next` pointers from
    `vector[j]`. The pure functions below state what each operation does to
    (buckets, count); the class `HashTable` runs the same operations in place
    and is proved to agree with them. */
module ChainedHash {
  import opened Values
  import opened Bits

  /** DFSCH_HASH_EQ, DFSCH_HASH_EQV, DFSCH_HASH_EQUAL */
  datatype Mode = EqMode | EqvMode | EqualMode

  /** What the table needs from code outside hash.c: `address` is ptr_hash
      of an object's address, `eqvClass` and `equalClass` pick one
      representative of a key's class under eqv? and equal?, and
      `objectHash` is dfsch_hash. */
  datatype KeyOracle = KeyOracle(
    address: Value -> nat,
    eqvClass: Value -> Value,
    equalClass: Value -> Value,
    objectHash: Value -> nat)

  /** A table's mode together with the oracle: key equality and get_hash. */
  datatype Keying = Keying(mode: Mode, oracle: KeyOracle) {

    /** The representative that decides key equality in this mode. */
    function Canon(k: Value): Value
    {
      match mode
      case EqMode => k
      case EqvMode => oracle.eqvClass(k)
      case EqualMode => oracle.equalClass(k)
    }

    /** The mode's equality: `==` on objects, dfsch_eqv_p or dfsch_equal_p. */
    predicate Same(a: Value, b: Value)
    {
      Canon(a) == Canon(b)
    }

    /** get_hash: ptr_hash in eq mode, dfsch_hash otherwise; hashing an eqv?
        or equal? key is hashing its class, so equal keys hash alike. */
    function Hash(k: Value): nat
    {
      if mode == EqMode then oracle.address(k) else oracle.objectHash(Canon(k))
    }
  }

  lemma SameHash(K: Keying, a: Value, b: Value)
    requires K.Same(a, b)
    ensures K.Hash(a) == K.Hash(b)
  {
  }

  /** hash_entry_t without its `next` pointer. */
  datatype Entry = Entry(hash: nat, key: Value, value: Value)

  type Buckets = seq<seq<Entry>>

  /** The test every walk of a chain applies: `h == i->hash` and the mode's
      equality on the keys. */
  predicate Matches(K: Keying, e: Entry, h: nat, k: Value)
  {
    e.hash == h && K.Same(e.key, k)
  }

  /** The index of the first entry of `chain` that matches, or `|chain|`. */
  function Position(K: Keying, chain: seq<Entry>, h: nat, k: Value): (p: nat)
    ensures p <= |chain|
    ensures forall i :: 0 <= i < p ==> !Matches(K, chain[i], h, k)
    ensures p < |chain| ==> Matches(K, chain[p], h, k)
  {
    if chain == [] then 0
    else if Matches(K, chain[0], h, k) then 0
    else 1 + Position(K, chain[1..], h, k)
  }

  /** The value of the first matching entry of `chain`. */
  function Find(K: Keying, chain: seq<Entry>, h: nat, k: Value): Option<Value>
  {
    var p := Position(K, chain, h, k);
    if p < |chain| then Some(chain[p].value) else None
  }

  /** All entries, bucket 0 first, each chain in `next` order. */
  function Flatten(vs: Buckets): seq<Entry>
  {
    if vs == [] then [] else Flatten(vs[..|vs| - 1]) + vs[|vs| - 1]
  }

  /** Every entry caches the hash of its key and sits in bucket
      `hash mod size`. */
  ghost predicate Placed(K: Keying, vs: Buckets)
  {
    forall b, e :: 0 <= b < |vs| && e in vs[b] ==>
      e.hash == K.Hash(e.key) && e.hash % |vs| == b
  }

  /** No two entries have keys equal under the mode, and none occurs twice. */
  ghost predicate UniqueKeys(K: Keying, m: multiset<Entry>)
  {
    (forall e :: m[e] <= 1) &&
    (forall e1, e2 :: e1 in m && e2 in m && K.Same(e1.key, e2.key) ==> e1 == e2)
  }

  /** The invariant of a table: the size is a power of two no smaller than
      the initial 8, entries are placed by hash, keys are unique and `count`
      is the number of entries. */
  ghost predicate WellFormed(K: Keying, vs: Buckets, count: nat)
  {
    |vs| >= 8 && IsPow2(|vs|) && Placed(K, vs) &&
    UniqueKeys(K, multiset(Flatten(vs))) && count == |Flatten(vs)|
  }

  /** Some entry binds a key equal to `k` to `v`. */
  ghost predicate Binds(K: Keying, m: multiset<Entry>, k: Value, v: Value)
  {
    exists e :: e in m && K.Same(e.key, k) && e.value == v
  }

  /** Some entry has a key equal to `k`. */
  ghost predicate Bound(K: Keying, m: multiset<Entry>, k: Value)
  {
    exists e :: e in m && K.Same(e.key, k)
  }

  /** The lookup of dfsch_hash_ref: the first match in bucket `h & mask`. */
  function Lookup(K: Keying, vs: Buckets, k: Value): Option<Value>
    requires |vs| > 0
  {
    var h := K.Hash(k);
    Find(K, vs[h % |vs|], h, k)
  }

  // ---------------------------------------------------------------------
  // Facts about Flatten

  /** Bucket `b` is one contiguous stretch of the flattened table. */
  lemma {:induction false} FlattenSplit(vs: Buckets, b: nat)
    requires b < |vs|
    ensures Flatten(vs) == Flatten(vs[..b]) + vs[b] + Flatten(vs[b + 1..])
  {
    var n := |vs| - 1;
    var post := vs[b + 1..];
    if b == n {
      assert post == [];
    } else {
      var init := vs[..n];
      FlattenSplit(init, b);
      assert init[..b] == vs[..b] && init[b] == vs[b];
      assert post[..|post| - 1] == init[b + 1..] && post[|post| - 1] == vs[n];
      var A, B, C := Flatten(vs[..b]), vs[b], Flatten(init[b + 1..]);
      assert Flatten(post) == C + vs[n];
      assert A + B + C + vs[n] == A + B + (C + vs[n]);
    }
  }

  lemma FlattenSingle(x: seq<Entry>)
    ensures Flatten([x]) == x
  {
    assert [x][..0] == [];
  }

  /** Replacing one bucket replaces its entries in the flattened table. */
  lemma FlattenUpdate(vs: Buckets, b: nat, x: seq<Entry>)
    requires b < |vs|
    ensures multiset(vs[b]) <= multiset(Flatten(vs))
    ensures multiset(Flatten(vs[b := x])) == multiset(Flatten(vs)) - multiset(vs[b]) + multiset(x)
    ensures |Flatten(vs[b := x])| == |Flatten(vs)| - |vs[b]| + |x|
  {
    FlattenSplit(vs, b);
    FlattenSplit(vs[b := x], b);
    assert vs[b := x][..b] == vs[..b];
    assert vs[b := x][b + 1..] == vs[b + 1..];
  }

  lemma {:induction false} FlattenMember(vs: Buckets, e: Entry)
    ensures e in Flatten(vs) <==> exists b :: 0 <= b < |vs| && e in vs[b]
  {
    if vs != [] {
      var n := |vs| - 1;
      FlattenMember(vs[..n], e);
      assert forall b :: 0 <= b < n ==> vs[..n][b] == vs[b];
    }
  }

  // ---------------------------------------------------------------------
  // Lookup is membership

  /** Under the invariant, the lookup in one bucket finds exactly the
      binding the table holds anywhere. */
  lemma LookupBinds(K: Keying, vs: Buckets, count: nat, k: Value)
    requires WellFormed(K, vs, count)
    ensures forall v :: Lookup(K, vs, k) == Some(v) <==> Binds(K, multiset(Flatten(vs)), k, v)
    ensures Lookup(K, vs, k).None? <==> !Bound(K, multiset(Flatten(vs)), k)
  {
    if Lookup(K, vs, k).Some? {
      LookupFound(K, vs, count, k);
    } else {
      LookupMissing(K, vs, count, k);
    }
  }

  lemma LookupFound(K: Keying, vs: Buckets, count: nat, k: Value)
    requires WellFormed(K, vs, count) && Lookup(K, vs, k).Some?
    ensures Bound(K, multiset(Flatten(vs)), k)
    ensures forall v :: Lookup(K, vs, k) == Some(v) <==> Binds(K, multiset(Flatten(vs)), k, v)
  {
    var h := K.Hash(k);
    var chain := vs[h % |vs|];
    var m := multiset(Flatten(vs));
    var p := Position(K, chain, h, k);
    assert chain[p] in m by {
      FlattenUpdate(vs, h % |vs|, chain);
    }
    forall v | Binds(K, m, k, v) ensures chain[p].value == v {
      var e :| e in m && K.Same(e.key, k) && e.value == v;
      assert e == chain[p];
    }
  }

  lemma LookupMissing(K: Keying, vs: Buckets, count: nat, k: Value)
    requires WellFormed(K, vs, count) && Lookup(K, vs, k).None?
    ensures !Bound(K, multiset(Flatten(vs)), k)
    ensures forall v :: !Binds(K, multiset(Flatten(vs)), k, v)
  {
    var h := K.Hash(k);
    var m := multiset(Flatten(vs));
    if Bound(K, m, k) {
      var e :| e in m && K.Same(e.key, k);
      FlattenMember(vs, e);
      var b' :| 0 <= b' < |vs| && e in vs[b'];
      SameHash(K, e.key, k);
    }
  }


  // ---------------------------------------------------------------------
  // Re-bucketing (hash_change_size)

  function Empty(n: nat): Buckets
  {
    seq(n, _ => [])
  }

  /** The entry `e` consed onto the head of its bucket. */
  function Prepend(vs: Buckets, e: Entry): Buckets
    requires |vs| > 0
  {
    var b := e.hash % |vs|;
    vs[b := [e] + vs[b]]
  }

  /** The buckets after the entries `s` have been prepended one after the
      other, in the order of `s`. */
  function PrependAll(vs: Buckets, s: seq<Entry>): (r: Buckets)
    requires |vs| > 0
    ensures |r| == |vs|
  {
    if s == [] then vs else Prepend(PrependAll(vs, s[..|s| - 1]), s[|s| - 1])
  }

  lemma PrependAllSnoc(vs: Buckets, s: seq<Entry>, e: Entry)
    requires |vs| > 0
    ensures PrependAll(vs, s + [e]) == Prepend(PrependAll(vs, s), e)
  {
    assert (s + [e])[..|s|] == s;
  }

  lemma {:induction false} PrependAllAppend(vs: Buckets, s: seq<Entry>, t: seq<Entry>)
    requires |vs| > 0
    ensures PrependAll(vs, s + t) == PrependAll(PrependAll(vs, s), t)
  {
    if t == [] {
      assert s + t == s;
    } else {
      var u := t[..|t| - 1];
      PrependAllAppend(vs, s, u);
      assert (s + t)[..|s + t| - 1] == s + u;
    }
  }

  /** hash_change_size: a fresh vector of `n` buckets, filled by walking the
      old buckets in order and prepending every entry to bucket
      `hash & (n - 1)`; each new chain thus lists its entries in the
      reverse of the order the walk met them. */
  function Resized(vs: Buckets, n: nat): (r: Buckets)
    requires n > 0
    ensures |r| == n
  {
    PrependAll(Empty(n), Flatten(vs))
  }

  lemma {:induction false} FlattenEmpty(n: nat)
    ensures Flatten(Empty(n)) == []
  {
    if n > 0 {
      assert Empty(n)[..n - 1] == Empty(n - 1);
      FlattenEmpty(n - 1);
    }
  }

  /** Entries of `s` whose cached hash is the hash of their key. */
  ghost predicate Hashed(K: Keying, s: seq<Entry>)
  {
    forall e :: e in s ==> e.hash == K.Hash(e.key)
  }

  lemma PlacedEntries(K: Keying, vs: Buckets)
    requires Placed(K, vs)
    ensures Hashed(K, Flatten(vs))
  {
    forall e | e in Flatten(vs) ensures e.hash == K.Hash(e.key) {
      FlattenMember(vs, e);
    }
  }

  lemma PrependFacts(K: Keying, vs: Buckets, e: Entry)
    requires |vs| > 0 && Placed(K, vs) && e.hash == K.Hash(e.key)
    ensures Placed(K, Prepend(vs, e))
    ensures multiset(Flatten(Prepend(vs, e))) == multiset(Flatten(vs)) + multiset{e}
    ensures |Flatten(Prepend(vs, e))| == |Flatten(vs)| + 1
  {
    var b := e.hash % |vs|;
    FlattenUpdate(vs, b, [e] + vs[b]);
  }

  lemma {:induction false} PrependAllFacts(K: Keying, vs: Buckets, s: seq<Entry>)
    requires |vs| > 0 && Placed(K, vs) && Hashed(K, s)
    ensures Placed(K, PrependAll(vs, s))
    ensures multiset(Flatten(PrependAll(vs, s))) == multiset(Flatten(vs)) + multiset(s)
    ensures |Flatten(PrependAll(vs, s))| == |Flatten(vs)| + |s|
  {
    if s != [] {
      var n := |s| - 1;
      assert s == s[..n] + [s[n]];
      PrependAllFacts(K, vs, s[..n]);
      PrependFacts(K, PrependAll(vs, s[..n]), s[n]);
    }
  }

  /** Re-bucketing into any power-of-two size of at least 8 keeps the
      invariant, the entries and every lookup. */
  lemma ResizedKeeps(K: Keying, vs: Buckets, count: nat, n: nat)
    requires WellFormed(K, vs, count) && IsPow2(n) && n >= 8
    ensures WellFormed(K, Resized(vs, n), count)
    ensures multiset(Flatten(Resized(vs, n))) == multiset(Flatten(vs))
    ensures forall k :: Lookup(K, Resized(vs, n), k) == Lookup(K, vs, k)
  {
    var r := Resized(vs, n);
    FlattenEmpty(n);
    PlacedEntries(K, vs);
    PrependAllFacts(K, Empty(n), Flatten(vs));
    forall k ensures Lookup(K, r, k) == Lookup(K, vs, k) {
      LookupBinds(K, vs, count, k);
      LookupBinds(K, r, count, k);
    }
  }

  // ---------------------------------------------------------------------
  // One-entry changes to a well-formed table

  /** A new entry whose key is not bound, at the head of its bucket. */
  lemma AddFresh(K: Keying, vs: Buckets, count: nat, e: Entry)
    requires WellFormed(K, vs, count) && e.hash == K.Hash(e.key)
    requires !Bound(K, multiset(Flatten(vs)), e.key)
    ensures WellFormed(K, Prepend(vs, e), count + 1)
    ensures forall k :: Lookup(K, Prepend(vs, e), k) == (if K.Same(k, e.key) then Some(e.value) else Lookup(K, vs, k))
  {
    PrependFacts(K, vs, e);
    BagAddUnique(K, multiset(Flatten(vs)), e);
    forall k ensures Lookup(K, Prepend(vs, e), k) == if K.Same(k, e.key) then Some(e.value) else Lookup(K, vs, k) {
      AddFreshAt(K, vs, count, e, k);
    }
  }

  lemma AddFreshAt(K: Keying, vs: Buckets, count: nat, e: Entry, k: Value)
    requires WellFormed(K, vs, count) && WellFormed(K, Prepend(vs, e), count + 1)
    requires multiset(Flatten(Prepend(vs, e))) == multiset(Flatten(vs)) + multiset{e}
    requires !Bound(K, multiset(Flatten(vs)), e.key)
    ensures Lookup(K, Prepend(vs, e), k) == if K.Same(k, e.key) then Some(e.value) else Lookup(K, vs, k)
  {
    var r := Prepend(vs, e);
    LookupBinds(K, vs, count, k);
    LookupBinds(K, r, count + 1, k);
    if K.Same(k, e.key) {
      assert Binds(K, multiset(Flatten(r)), k, e.value);
    }
  }


  // Bag-level facts: how one entry more, less or changed affects the
  // bindings of a multiset of entries with unique keys

  lemma BagAddUnique(K: Keying, m: multiset<Entry>, e: Entry)
    requires UniqueKeys(K, m) && !Bound(K, m, e.key)
    ensures UniqueKeys(K, m + multiset{e})
  {
    assert e !in m;
  }

  lemma BagReplaceUnique(K: Keying, m: multiset<Entry>, e: Entry, e': Entry)
    requires UniqueKeys(K, m) && e in m && e'.key == e.key
    ensures UniqueKeys(K, m - multiset{e} + multiset{e'})
  {
    var m' := m - multiset{e} + multiset{e'};
    forall x1, x2 | x1 in m' && x2 in m' && K.Same(x1.key, x2.key) ensures x1 == x2 {
      if x1 != e' && x2 != e' {
        assert x1 in m && x2 in m;
      }
    }
  }

  lemma BagReplaceBinds(K: Keying, m: multiset<Entry>, e: Entry, e': Entry, k: Value)
    requires UniqueKeys(K, m) && e in m && e'.key == e.key
    ensures var m' := m - multiset{e} + multiset{e'};
      (K.Same(k, e.key) ==> Binds(K, m', k, e'.value)) &&
      (!K.Same(k, e.key) ==> (Bound(K, m', k) <==> Bound(K, m, k))) &&
      (!K.Same(k, e.key) ==> forall w :: Binds(K, m', k, w) <==> Binds(K, m, k, w))
  {
    var m' := m - multiset{e} + multiset{e'};
    if K.Same(k, e.key) {
      assert e' in m';
    } else {
      forall x | x in m && K.Same(x.key, k) ensures x in m' {
        assert x != e;
      }
    }
  }

  lemma BagRemoveUnique(K: Keying, m: multiset<Entry>, e: Entry)
    requires UniqueKeys(K, m)
    ensures UniqueKeys(K, m - multiset{e})
  {
  }

  lemma BagRemoveBinds(K: Keying, m: multiset<Entry>, e: Entry, k: Value)
    requires UniqueKeys(K, m) && e in m
    ensures var m' := m - multiset{e};
      (K.Same(k, e.key) ==> !Bound(K, m', k)) &&
      (!K.Same(k, e.key) ==> (Bound(K, m', k) <==> Bound(K, m, k))) &&
      (!K.Same(k, e.key) ==> forall w :: Binds(K, m', k, w) <==> Binds(K, m, k, w))
  {
    var m' := m - multiset{e};
    if K.Same(k, e.key) {
      forall x | x in m' ensures !K.Same(x.key, k) {
        assert x in m && x != e;
      }
    } else {
      forall x | x in m && K.Same(x.key, k) ensures x in m' {
        assert x != e;
      }
    }
  }

  /** Lookups of two well-formed tables agree on a key both bind alike. */
  lemma LookupAgrees(K: Keying, vs: Buckets, c: nat, vs': Buckets, c': nat, k: Value)
    requires WellFormed(K, vs, c) && WellFormed(K, vs', c')
    requires Bound(K, multiset(Flatten(vs')), k) <==> Bound(K, multiset(Flatten(vs)), k)
    requires forall w :: Binds(K, multiset(Flatten(vs')), k, w) <==> Binds(K, multiset(Flatten(vs)), k, w)
    ensures Lookup(K, vs', k) == Lookup(K, vs, k)
  {
    LookupBinds(K, vs, c, k);
    LookupBinds(K, vs', c', k);
  }

  /** The value of entry `p` of bucket `b` overwritten in place. */
  function Overwrite(vs: Buckets, b: nat, p: nat, v: Value): Buckets
    requires b < |vs| && p < |vs[b]|
  {
    vs[b := vs[b][p := vs[b][p].(value := v)]]
  }

  lemma OverwriteBag(vs: Buckets, b: nat, p: nat, v: Value)
    requires b < |vs| && p < |vs[b]|
    ensures vs[b][p] in multiset(Flatten(vs))
    ensures multiset(Flatten(Overwrite(vs, b, p, v))) ==
      multiset(Flatten(vs)) - multiset{vs[b][p]} + multiset{vs[b][p].(value := v)}
    ensures |Flatten(Overwrite(vs, b, p, v))| == |Flatten(vs)|
  {
    var chain := vs[b];
    UpdateBag(chain, p, chain[p].(value := v));
    FlattenUpdate(vs, b, chain[p := chain[p].(value := v)]);
  }

  lemma UpdateBag(s: seq<Entry>, p: nat, y: Entry)
    requires p < |s|
    ensures multiset(s[p := y]) == multiset(s) - multiset{s[p]} + multiset{y}
  {
    assert s == s[..p] + [s[p]] + s[p + 1..];
    assert s[p := y] == s[..p] + [y] + s[p + 1..];
  }

  lemma OverwriteKeeps(K: Keying, vs: Buckets, count: nat, b: nat, p: nat, v: Value)
    requires WellFormed(K, vs, count) && b < |vs| && p < |vs[b]|
    ensures WellFormed(K, Overwrite(vs, b, p, v), count)
    ensures forall k :: Lookup(K, Overwrite(vs, b, p, v), k) == (if K.Same(k, vs[b][p].key) then Some(v) else Lookup(K, vs, k))
  {
    var e := vs[b][p];
    var e' := e.(value := v);
    var r := Overwrite(vs, b, p, v);
    OverwriteBag(vs, b, p, v);
    BagReplaceUnique(K, multiset(Flatten(vs)), e, e');
    OverwritePlaced(K, vs, count, b, p, v);
    assert WellFormed(K, r, count);
    forall k ensures Lookup(K, r, k) == if K.Same(k, e.key) then Some(v) else Lookup(K, vs, k) {
      OverwriteLook(K, vs, count, b, p, v, k);
    }
  }

  lemma OverwritePlaced(K: Keying, vs: Buckets, count: nat, b: nat, p: nat, v: Value)
    requires WellFormed(K, vs, count) && b < |vs| && p < |vs[b]|
    ensures Placed(K, Overwrite(vs, b, p, v))
  {
    var e := vs[b][p];
    var e' := e.(value := v);
    var r := Overwrite(vs, b, p, v);
    forall b2, x: Entry | 0 <= b2 < |r| && x in r[b2] ensures x.hash == K.Hash(x.key) && x.hash % |r| == b2 {
      if b2 == b && x == e' {
        assert e in vs[b];
      } else if b2 == b {
        var i :| 0 <= i < |r[b]| && r[b][i] == x;
        assert x == vs[b][i];
      }
    }
  }

  lemma OverwriteLook(K: Keying, vs: Buckets, count: nat, b: nat, p: nat, v: Value, k: Value)
    requires WellFormed(K, vs, count) && b < |vs| && p < |vs[b]|
    requires WellFormed(K, Overwrite(vs, b, p, v), count)
    requires vs[b][p] in multiset(Flatten(vs))
    requires multiset(Flatten(Overwrite(vs, b, p, v))) ==
      multiset(Flatten(vs)) - multiset{vs[b][p]} + multiset{vs[b][p].(value := v)}
    ensures Lookup(K, Overwrite(vs, b, p, v), k) == if K.Same(k, vs[b][p].key) then Some(v) else Lookup(K, vs, k)
  {
    var e := vs[b][p];
    var r := Overwrite(vs, b, p, v);
    BagReplaceBinds(K, multiset(Flatten(vs)), e, e.(value := v), k);
    if K.Same(k, e.key) {
      LookupBinds(K, r, count, k);
    } else {
      LookupAgrees(K, vs, count, r, count, k);
    }
  }

  /** Entry `p` of bucket `b` unlinked: its predecessor now points past it. */
  function Unlink(vs: Buckets, b: nat, p: nat): Buckets
    requires b < |vs| && p < |vs[b]|
  {
    vs[b := vs[b][..p] + vs[b][p + 1..]]
  }

  lemma UnlinkBag(vs: Buckets, b: nat, p: nat)
    requires b < |vs| && p < |vs[b]|
    ensures vs[b][p] in multiset(Flatten(vs))
    ensures multiset(Flatten(Unlink(vs, b, p))) == multiset(Flatten(vs)) - multiset{vs[b][p]}
    ensures |Flatten(Unlink(vs, b, p))| == |Flatten(vs)| - 1
  {
    var chain := vs[b];
    var x := chain[..p] + chain[p + 1..];
    assert multiset(chain) == multiset(x) + multiset{chain[p]} by {
      assert chain == chain[..p] + [chain[p]] + chain[p + 1..];
    }
    FlattenUpdate(vs, b, x);
    BagSwap(multiset(Flatten(vs)), multiset(chain), multiset(x), chain[p]);
  }

  lemma BagSwap(m: multiset<Entry>, c: multiset<Entry>, x: multiset<Entry>, e: Entry)
    requires c == x + multiset{e} && c <= m
    ensures e in m && m - c + x == m - multiset{e}
  {
  }

  lemma UnlinkKeeps(K: Keying, vs: Buckets, count: nat, b: nat, p: nat)
    requires WellFormed(K, vs, count) && b < |vs| && p < |vs[b]|
    ensures count >= 1
    ensures WellFormed(K, Unlink(vs, b, p), count - 1)
    ensures forall k :: Lookup(K, Unlink(vs, b, p), k) == (if K.Same(k, vs[b][p].key) then None else Lookup(K, vs, k))
  {
    var e := vs[b][p];
    var r := Unlink(vs, b, p);
    UnlinkBag(vs, b, p);
    BagRemoveUnique(K, multiset(Flatten(vs)), e);
    UnlinkPlaced(K, vs, count, b, p);
    assert WellFormed(K, r, count - 1);
    forall k ensures Lookup(K, r, k) == if K.Same(k, e.key) then None else Lookup(K, vs, k) {
      UnlinkLook(K, vs, count, b, p, k);
    }
  }

  lemma UnlinkPlaced(K: Keying, vs: Buckets, count: nat, b: nat, p: nat)
    requires WellFormed(K, vs, count) && b < |vs| && p < |vs[b]|
    ensures Placed(K, Unlink(vs, b, p))
  {
    var r := Unlink(vs, b, p);
    forall b2, x: Entry | 0 <= b2 < |r| && x in r[b2] ensures x.hash == K.Hash(x.key) && x.hash % |r| == b2 {
      if b2 == b {
        assert x in vs[b];
      }
    }
  }

  lemma UnlinkLook(K: Keying, vs: Buckets, count: nat, b: nat, p: nat, k: Value)
    requires WellFormed(K, vs, count) && b < |vs| && p < |vs[b]| && count >= 1
    requires WellFormed(K, Unlink(vs, b, p), count - 1)
    requires vs[b][p] in multiset(Flatten(vs))
    requires multiset(Flatten(Unlink(vs, b, p))) == multiset(Flatten(vs)) - multiset{vs[b][p]}
    ensures Lookup(K, Unlink(vs, b, p), k) == if K.Same(k, vs[b][p].key) then None else Lookup(K, vs, k)
  {
    var e := vs[b][p];
    var r := Unlink(vs, b, p);
    BagRemoveBinds(K, multiset(Flatten(vs)), e, k);
    if K.Same(k, e.key) {
      LookupBinds(K, r, count - 1, k);
    } else {
      LookupAgrees(K, vs, count, r, count - 1, k);
    }
  }

  // ---------------------------------------------------------------------
  // The operations on (buckets, count)

  /** A table's buckets and count; its `mask` is `|buckets| - 1`. */
  datatype State = State(buckets: Buckets, count: nat)

  /** dfsch_hash_make: no entries, `mask` INITIAL_MASK = 7. */
  function Initial(): State
  {
    State(Empty(8), 0)
  }

  /** dfsch_hash_ref: the one-element list of the bound value, or nil. */
  function RefIn(K: Keying, vs: Buckets, k: Value): Value
    requires |vs| > 0
  {
    match Lookup(K, vs, k)
    case Some(v) => List([v])
    case None => Nil
  }

  /** dfsch_hash_set: overwrite the value of a matching entry, or count the
      new entry, grow to twice the size once the count exceeds the size,
      and cons the new entry onto its bucket. */
  function SetIn(K: Keying, st: State, k: Value, v: Value): (r: State)
    requires |st.buckets| > 0
  {
    var vs, h := st.buckets, K.Hash(k);
    var b := h % |vs|;
    var p := Position(K, vs[b], h, k);
    if p < |vs[b]| then State(Overwrite(vs, b, p, v), st.count)
    else AddNew(st, Entry(h, k, v))
  }

  /** The absent-key half of dfsch_hash_set: count the entry, double the
      size once the count exceeds it, then prepend. */
  function AddNew(st: State, e: Entry): State
    requires |st.buckets| > 0
  {
    var count := st.count + 1;
    State(Prepend(Grown(st.buckets, count), e), count)
  }

  function Grown(vs: Buckets, count: nat): (r: Buckets)
    requires |vs| > 0
    ensures |r| > 0
  {
    if count > |vs| then Resized(vs, 2 * |vs|) else vs
  }

  /** dfsch_hash_unset as the evident intent: unlink the matching entry,
      count it out and halve the size once `count + 16 < size / 2` (and the
      mask is not 3); report whether an entry was removed. */
  function UnsetIn(K: Keying, st: State, k: Value): (bool, State)
    requires |st.buckets| > 0 && st.count == |Flatten(st.buckets)|
  {
    var vs, h := st.buckets, K.Hash(k);
    var b := h % |vs|;
    var p := Position(K, vs[b], h, k);
    if p < |vs[b]| then
      UnlinkBag(vs, b, p);
      (true, State(Shrunk(Unlink(vs, b, p), st.count - 1), st.count - 1))
    else (false, st)
  }

  /** Unset once the key's entry `p` of bucket `b` has been found. */
  lemma UnsetAt(K: Keying, st: State, k: Value, b: nat, p: nat)
    requires |st.buckets| > 0 && st.count == |Flatten(st.buckets)|
    requires b == K.Hash(k) % |st.buckets| && p == Position(K, st.buckets[b], K.Hash(k), k) && p < |st.buckets[b]|
    ensures st.count >= 1
    ensures UnsetIn(K, st, k) == (true, State(Shrunk(Unlink(st.buckets, b, p), st.count - 1), st.count - 1))
  {
    UnlinkBag(st.buckets, b, p);
  }

  /** The shrinking step of unset: halve the vector when, after the count
      went down to `count`, `count + 16 < (mask + 1) / 2` and `mask != 3`. */
  function Shrunk(rest: Buckets, count: nat): (r: Buckets)
    ensures |rest| > 0 ==> |r| > 0
  {
    if count + 16 < |rest| / 2 && |rest| - 1 != 3 then Resized(rest, |rest| / 2) else rest
  }

  /** dfsch_hash_set_if_exists as the evident intent: overwrite the value
      of a matching entry and report whether there was one. */
  function SetIfExistsIn(K: Keying, st: State, k: Value, v: Value): (bool, State)
    requires |st.buckets| > 0
  {
    var vs, h := st.buckets, K.Hash(k);
    var b := h % |vs|;
    var p := Position(K, vs[b], h, k);
    if p < |vs[b]| then (true, State(Overwrite(vs, b, p, v), st.count)) else (false, st)
  }

  /** A new table is well formed, has mask 7 and count 0, and binds nothing. */
  lemma InitialEmpty(K: Keying)
    ensures WellFormed(K, Initial().buckets, Initial().count)
    ensures |Initial().buckets| - 1 == 7 && Initial().count == 0
    ensures forall k :: Lookup(K, Initial().buckets, k) == None
  {
    FlattenEmpty(8);
    assert IsPow2(8) by {
      assert IsPow2(4) by { assert IsPow2(2); }
    }
  }

  /** The lookup is where the ref result comes from: `(v)` for a bound key,
      nil for an absent one. */
  lemma RefResult(K: Keying, vs: Buckets, count: nat, k: Value)
    requires WellFormed(K, vs, count)
    ensures forall v :: RefIn(K, vs, k) == List([v]) <==> Binds(K, multiset(Flatten(vs)), k, v)
    ensures RefIn(K, vs, k) == Nil <==> !Bound(K, multiset(Flatten(vs)), k)
  {
    LookupBinds(K, vs, count, k);
  }

  /** After set, the key is bound to the new value and every key not equal
      to it keeps its binding; the invariant is kept. */
  lemma SetLookup(K: Keying, st: State, k: Value, v: Value)
    requires WellFormed(K, st.buckets, st.count)
    ensures WellFormed(K, SetIn(K, st, k, v).buckets, SetIn(K, st, k, v).count)
    ensures forall k' :: Lookup(K, SetIn(K, st, k, v).buckets, k') == (if K.Same(k', k) then Some(v) else Lookup(K, st.buckets, k'))
  {
    var vs, h := st.buckets, K.Hash(k);
    var b := h % |vs|;
    var p := Position(K, vs[b], h, k);
    if p < |vs[b]| {
      assert SetIn(K, st, k, v) == State(Overwrite(vs, b, p, v), st.count);
      OverwriteKeeps(K, vs, st.count, b, p, v);
      assert forall k' :: K.Same(k', vs[b][p].key) <==> K.Same(k', k);
    } else {
      SetFresh(K, st, k, v);
    }
  }

  lemma SetWellFormed(K: Keying, st: State, k: Value, v: Value, r: State)
    requires WellFormed(K, st.buckets, st.count) && r == SetIn(K, st, k, v)
    ensures WellFormed(K, r.buckets, r.count)
  {
    SetLookup(K, st, k, v);
  }

  lemma UnsetWellFormed(K: Keying, st: State, k: Value, found: bool, r: State)
    requires WellFormed(K, st.buckets, st.count) && (found, r) == UnsetIn(K, st, k)
    ensures WellFormed(K, r.buckets, r.count)
  {
    UnsetResult(K, st, k);
  }

  lemma SetFresh(K: Keying, st: State, k: Value, v: Value)
    requires WellFormed(K, st.buckets, st.count) && Lookup(K, st.buckets, k).None?
    ensures WellFormed(K, AddNew(st, Entry(K.Hash(k), k, v)).buckets, st.count + 1)
    ensures forall k' :: Lookup(K, AddNew(st, Entry(K.Hash(k), k, v)).buckets, k') == (if K.Same(k', k) then Some(v) else Lookup(K, st.buckets, k'))
  {
    var vs := st.buckets;
    var grown := Grown(vs, st.count + 1);
    GrownKeeps(K, vs, st.count);
    assert !Bound(K, multiset(Flatten(grown)), k) by {
      LookupBinds(K, vs, st.count, k);
    }
    AddFresh(K, grown, st.count, Entry(K.Hash(k), k, v));
  }

  /** The growth step of set keeps the invariant and every lookup. */
  lemma GrownKeeps(K: Keying, vs: Buckets, count: nat)
    requires WellFormed(K, vs, count)
    ensures WellFormed(K, Grown(vs, count + 1), count)
    ensures multiset(Flatten(Grown(vs, count + 1))) == multiset(Flatten(vs))
    ensures forall k :: Lookup(K, Grown(vs, count + 1), k) == Lookup(K, vs, k)
  {
    if count + 1 > |vs| {
      assert IsPow2(2 * |vs|) by {
        assert 2 * |vs| / 2 == |vs|;
      }
      ResizedKeeps(K, vs, count, 2 * |vs|);
    }
  }

  /** set adds an entry only for an absent key: then the count grows by one,
      the table first doubles once the count exceeds its size, and the entry
      heads bucket `h & mask`; for a present key only the value of the
      first matching entry changes, in place, to `v`. */
  lemma SetShape(K: Keying, st: State, k: Value, v: Value)
    requires WellFormed(K, st.buckets, st.count)
    ensures var r, vs, h := SetIn(K, st, k, v), st.buckets, K.Hash(k);
      if Lookup(K, vs, k).None? then
        r.count == st.count + 1 &&
        |r.buckets| == (if st.count + 1 > |vs| then 2 * |vs| else |vs|) &&
        r.buckets[h % |r.buckets|][0] == Entry(h, k, v)
      else
        r.count == st.count && |r.buckets| == |vs| &&
        (forall j :: 0 <= j < |vs| && j != h % |vs| ==> r.buckets[j] == vs[j]) &&
        |r.buckets[h % |vs|]| == |vs[h % |vs|]| &&
        (forall i :: 0 <= i < |vs[h % |vs|]| ==>
          r.buckets[h % |vs|][i].key == vs[h % |vs|][i].key &&
          r.buckets[h % |vs|][i].hash == vs[h % |vs|][i].hash &&
          r.buckets[h % |vs|][i].value ==
            if i == Position(K, vs[h % |vs|], h, k) then v else vs[h % |vs|][i].value)
  {
  }

  /** unset removes exactly a present key, counts it out and returns true;
      for an absent key it returns false and changes nothing. */
  lemma UnsetResult(K: Keying, st: State, k: Value)
    requires WellFormed(K, st.buckets, st.count)
    ensures var (found, r) := UnsetIn(K, st, k);
      (found <==> Lookup(K, st.buckets, k).Some?) &&
      (!found ==> r == st) &&
      (found ==> r.count == st.count - 1 && WellFormed(K, r.buckets, r.count)) &&
      (found ==> forall k' :: Lookup(K, r.buckets, k') == (if K.Same(k', k) then None else Lookup(K, st.buckets, k')))
  {
    var vs, h := st.buckets, K.Hash(k);
    var b := h % |vs|;
    var p := Position(K, vs[b], h, k);
    if p < |vs[b]| {
      UnlinkKeeps(K, vs, st.count, b, p);
      assert forall k' :: K.Same(k', vs[b][p].key) <==> K.Same(k', k);
      var count := st.count - 1;
      var rest := Unlink(vs, b, p);
      if count + 16 < |rest| / 2 && |rest| - 1 != 3 {
        ResizedKeeps(K, rest, count, |rest| / 2);
      }
    }
  }

  /** set_if_exists changes only the value of a present key and never adds
      an entry. */
  lemma SetIfExistsResult(K: Keying, st: State, k: Value, v: Value)
    requires WellFormed(K, st.buckets, st.count)
    ensures var (found, r) := SetIfExistsIn(K, st, k, v);
      (found <==> Lookup(K, st.buckets, k).Some?) &&
      (!found ==> r == st) &&
      (found ==> r.count == st.count && WellFormed(K, r.buckets, r.count)) &&
      (found ==> forall k' :: Lookup(K, r.buckets, k') == (if K.Same(k', k) then Some(v) else Lookup(K, st.buckets, k')))
  {
    var vs, h := st.buckets, K.Hash(k);
    var b := h % |vs|;
    var p := Position(K, vs[b], h, k);
    if p < |vs[b]| {
      OverwriteKeeps(K, vs, st.count, b, p, v);
      assert forall k' :: K.Same(k', vs[b][p].key) <==> K.Same(k', k);
    }
  }

  lemma SetIfExistsWellFormed(K: Keying, st: State, k: Value, v: Value, found: bool, r: State)
    requires WellFormed(K, st.buckets, st.count) && (found, r) == SetIfExistsIn(K, st, k, v)
    ensures WellFormed(K, r.buckets, r.count)
  {
    SetIfExistsResult(K, st, k, v);
  }

  // ---------------------------------------------------------------------
  // Association lists (dfsch_hash_2_alist, dfsch_alist_2_hash)

  /** The list `(key value)` of one entry. */
  function EntryList(e: Entry): Value
  {
    List([e.key, e.value])
  }

  /** The alist that dfsch_hash_2_alist has built once it has visited the
      entries `s` in order, consing each `(key value)` onto the front. */
  function AlistOf(s: seq<Entry>): Value
  {
    if s == [] then Nil else Pair(EntryList(s[|s| - 1]), AlistOf(s[..|s| - 1]))
  }

  /** The alist is a proper list holding one `(key value)` per visited
      entry, the last visited first. */
  lemma {:induction false} AlistOfElements(s: seq<Entry>)
    ensures IsProperList(AlistOf(s)) && |Elements(AlistOf(s))| == |s|
    ensures forall i :: 0 <= i < |s| ==> Elements(AlistOf(s))[i] == EntryList(s[|s| - 1 - i])
  {
    if s != [] {
      AlistOfElements(s[..|s| - 1]);
    }
  }

  lemma PairList(a: Value, b: Value)
    ensures List([a, b]) == Pair(a, Pair(b, Nil))
  {
    assert [a, b][1..] == [b] && [b][1..] == [];
    assert ListWithTail([b], Nil) == Pair(b, Nil);
  }

  lemma EntryListInjective(e1: Entry, e2: Entry)
    requires EntryList(e1) == EntryList(e2)
    ensures e1.key == e2.key && e1.value == e2.value
  {
    PairList(e1.key, e1.value);
    PairList(e2.key, e2.value);
  }

  /** hash->alist lists one `(key value)` per stored entry and nothing
      else: its length is the count. */
  lemma AlistOfTable(K: Keying, vs: Buckets, count: nat)
    requires WellFormed(K, vs, count)
    ensures ListLength(AlistOf(Flatten(vs))) == count
    ensures forall e :: e in Flatten(vs) ==> EntryList(e) in Elements(AlistOf(Flatten(vs)))
    ensures forall x :: x in Elements(AlistOf(Flatten(vs))) ==> exists e :: e in Flatten(vs) && x == EntryList(e)
  {
    var s := Flatten(vs);
    var es := Elements(AlistOf(s));
    AlistOfElements(s);
    forall e | e in s ensures EntryList(e) in es {
      var j :| 0 <= j < |s| && s[j] == e;
      assert es[|s| - 1 - j] == EntryList(e);
    }
    forall x | x in es ensures exists e :: e in s && x == EntryList(e) {
      var i :| 0 <= i < |es| && es[i] == x;
      assert s[|s| - 1 - i] in s;
    }
  }

  /** Each stored entry is what the lookup of its key finds. */
  lemma StoredEntryLookup(K: Keying, vs: Buckets, count: nat, e: Entry)
    requires WellFormed(K, vs, count) && e in Flatten(vs)
    ensures Lookup(K, vs, e.key) == Some(e.value)
  {
    LookupBinds(K, vs, count, e.key);
    assert Binds(K, multiset(Flatten(vs)), e.key, e.value);
  }

  /** Every item has a key and a value: at least two elements
      (`dfsch_list_item(item, 1)` succeeds). */
  predicate ItemsOk(items: seq<Value>)
  {
    items == [] || (ItemsOk(items[..|items| - 1]) && |Elements(items[|items| - 1])| >= 2)
  }

  lemma {:induction false} ItemsOkAt(items: seq<Value>, j: nat)
    requires ItemsOk(items) && j < |items|
    ensures |Elements(items[j])| >= 2
  {
    if j < |items| - 1 {
      ItemsOkAt(items[..|items| - 1], j);
    }
  }

  /** The table after dfsch_hash_set of each item's key and value in turn. */
  function SetAll(K: Keying, st: State, items: seq<Value>): (r: State)
    requires |st.buckets| > 0 && ItemsOk(items)
    ensures |r.buckets| > 0
  {
    if items == [] then st
    else
      var it := Elements(items[|items| - 1]);
      SetIn(K, SetAll(K, st, items[..|items| - 1]), it[0], it[1])
  }

  /** The value the last item with a key equal to `k` carries. */
  function LastBinding(K: Keying, items: seq<Value>, k: Value): Option<Value>
    requires ItemsOk(items)
  {
    if items == [] then None
    else
      var it := Elements(items[|items| - 1]);
      if K.Same(it[0], k) then Some(it[1]) else LastBinding(K, items[..|items| - 1], k)
  }

  /** After the items are set in order, each key is bound to the value of its
      last item; keys no item names keep their former binding. */
  lemma {:induction false} SetAllLookup(K: Keying, st: State, items: seq<Value>)
    requires WellFormed(K, st.buckets, st.count) && ItemsOk(items)
    ensures WellFormed(K, SetAll(K, st, items).buckets, SetAll(K, st, items).count)
    ensures forall k :: Lookup(K, SetAll(K, st, items).buckets, k) == (match LastBinding(K, items, k) case Some(v) => Some(v) case None => Lookup(K, st.buckets, k))
  {
    if items != [] {
      var n := |items| - 1;
      var it := Elements(items[n]);
      SetAllLookup(K, st, items[..n]);
      SetLookup(K, SetAll(K, st, items[..n]), it[0], it[1]);
    }
  }

  /** alist->hash: the table binds exactly the keys of the alist, each to
      the value of the last item naming it. */
  lemma FromItemsLookup(K: Keying, items: seq<Value>)
    requires ItemsOk(items)
    ensures WellFormed(K, SetAll(K, Initial(), items).buckets, SetAll(K, Initial(), items).count)
    ensures forall k :: Lookup(K, SetAll(K, Initial(), items).buckets, k) == LastBinding(K, items, k)
  {
    InitialEmpty(K);
    SetAllLookup(K, Initial(), items);
    forall k ensures Lookup(K, SetAll(K, Initial(), items).buckets, k) == LastBinding(K, items, k) {
    }
  }

  lemma SetAllWellFormed(K: Keying, items: seq<Value>, r: State)
    requires ItemsOk(items) && r == SetAll(K, Initial(), items)
    ensures WellFormed(K, r.buckets, r.count)
  {
    FromItemsLookup(K, items);
  }

  /** One more item: SetAll over a prefix of length `n + 1` is a set on top
      of SetAll over the prefix of length `n`. */
  lemma SetAllStep(K: Keying, items: seq<Value>, n: nat)
    requires n < |items| && ItemsOk(items[..n]) && |Elements(items[n])| >= 2
    ensures ItemsOk(items[..n + 1])
    ensures SetAll(K, Initial(), items[..n + 1]) ==
      SetIn(K, SetAll(K, Initial(), items[..n]), Elements(items[n])[0], Elements(items[n])[1])
  {
    assert items[..n + 1][..n] == items[..n];
    assert items[..n + 1][n] == items[n];
  }

  // ---------------------------------------------------------------------
  // Mode selection (native_make_hash, native_alist_2_hash)

  /** The symbol naming each mode. */
  function ModeName(m: Mode): string
  {
    match m
    case EqMode => "eq?"
    case EqvMode => "eqv?"
    case EqualMode => "equal?"
  }

  /** No mode argument means eq; `equal?`, `eqv?` and `eq?` name the three
      modes; anything else signals exception:unknown-mode. */
  function ModeOf(mode: Value): (r: Result<Mode>)
    ensures mode == Nil ==> r == Ok(EqMode)
    ensures forall m :: mode == Sym(ModeName(m)) ==> r == Ok(m)
    ensures r.Ok? <==> mode in {Nil, Sym("eq?"), Sym("eqv?"), Sym("equal?")}
    ensures r.Err? ==> r.error == Error("exception:unknown-mode", mode)
  {
    if mode == Nil then Ok(EqMode)
    else if mode == Sym("equal?") then Ok(EqualMode)
    else if mode == Sym("eqv?") then Ok(EqvMode)
    else if mode == Sym("eq?") then Ok(EqMode)
    else Err(Error("exception:unknown-mode", mode))
  }

  /** The argument list of make-hash: an optional mode and nothing else. */
  function MakeHashMode(args: Value): (r: Result<Mode>)
    ensures args == Nil ==> r == Ok(EqMode)
    ensures args.Pair? && args.cdr == Nil ==> r == ModeOf(args.car)
    ensures args != Nil && !(args.Pair? && args.cdr == Nil) ==> r.Err?
  {
    var (mode, rest) := PopOptArg(args, Nil);
    var _ :- ArgEnd(rest);
    ModeOf(mode)
  }

  /** The argument list of alist->hash: an alist, then an optional mode. */
  function AlistToHashArgs(args: Value): (r: Result<(Value, Mode)>)
    ensures !args.Pair? ==> r.Err?
    ensures args.Pair? && args.cdr == Nil ==> r == Ok((args.car, EqMode))
    ensures args.Pair? && args.cdr.Pair? && args.cdr.cdr == Nil ==>
      (r.Ok? <==> ModeOf(args.cdr.car).Ok?) && (r.Ok? ==> r.value == (args.car, ModeOf(args.cdr.car).value))
  {
    var (alist, rest) :- PopArg(args);
    var (mode, rest') := PopOptArg(rest, Nil);
    var _ :- ArgEnd(rest');
    var m :- ModeOf(mode);
    Ok((alist, m))
  }

  // ---------------------------------------------------------------------
  // Two defects of hash.c, modelled as written

  /** dfsch_hash_unset as written: removing the head of a chain stores NULL
      in the bucket instead of the head's `next`, so the entries behind it
      go too, while `count` drops by one. */
  function UnlinkAsWritten(vs: Buckets, b: nat, p: nat): Buckets
    requires b < |vs| && p < |vs[b]|
  {
    if p == 0 then vs[b := []] else Unlink(vs, b, p)
  }

  /** A keying in which every key hashes to 0, so all keys share bucket 0. */
  function ZeroKeying(): Keying
  {
    Keying(EqMode, KeyOracle(_ => 0, x => x, x => x, _ => 0))
  }

  /** Two entries sharing bucket 0 of a fresh-sized table. */
  function TwoInOneBucket(): Buckets
  {
    Empty(8)[0 := [Entry(0, Int(1), Int(10)), Entry(0, Int(2), Int(20))]]
  }

  lemma TwoInOneBucketFlat()
    ensures Flatten(TwoInOneBucket()) == [Entry(0, Int(1), Int(10)), Entry(0, Int(2), Int(20))]
  {
    var vs := TwoInOneBucket();
    FlattenSplit(vs, 0);
    assert vs[..0] == [];
    assert vs[1..] == Empty(7);
    FlattenEmpty(7);
  }

  lemma TwoInOneBucketWellFormed()
    ensures WellFormed(ZeroKeying(), TwoInOneBucket(), 2)
  {
    assert IsPow2(8) by {
      assert IsPow2(4) by { assert IsPow2(2); }
    }
    TwoInOneBucketPlaced();
    TwoInOneBucketUnique();
  }

  lemma TwoInOneBucketPlaced()
    ensures Placed(ZeroKeying(), TwoInOneBucket())
  {
    var vs := TwoInOneBucket();
    assert forall b :: 1 <= b < 8 ==> vs[b] == [];
  }

  lemma TwoInOneBucketUnique()
    ensures UniqueKeys(ZeroKeying(), multiset(Flatten(TwoInOneBucket())))
    ensures |Flatten(TwoInOneBucket())| == 2
  {
    TwoInOneBucketFlat();
    UniquePair(ZeroKeying(), Entry(0, Int(1), Int(10)), Entry(0, Int(2), Int(20)));
  }

  lemma UniquePair(K: Keying, e1: Entry, e2: Entry)
    requires !K.Same(e1.key, e2.key)
    ensures UniqueKeys(K, multiset([e1, e2]))
  {
    var m := multiset([e1, e2]);
    assert m == multiset{e1} + multiset{e2};
    assert forall x :: x in m ==> x == e1 || x == e2;
  }

  /** In a well-formed table, two entries of one chain have keys that are
      not equal. */
  lemma ChainKeysDistinct(K: Keying, vs: Buckets, count: nat, b: nat, i: nat, j: nat)
    requires WellFormed(K, vs, count) && b < |vs| && i < j < |vs[b]|
    ensures !K.Same(vs[b][i].key, vs[b][j].key)
  {
    var chain := vs[b];
    var m := multiset(Flatten(vs));
    FlattenUpdate(vs, b, chain);
    assert chain == chain[..j] + chain[j..];
    assert chain[i] in chain[..j] && chain[j] in chain[j..];
    assert multiset(chain) == multiset(chain[..j]) + multiset(chain[j..]);
  }

  /** Unsetting the key at the head of a chain of two or more entries, as
      written, also loses the entry behind it: the table bound that key
      before and binds nothing for it after, and the entries left are fewer
      than `count - 1`. */
  lemma UnsetHeadAsWrittenLosesNext(K: Keying, vs: Buckets, count: nat, b: nat)
    requires WellFormed(K, vs, count) && b < |vs| && |vs[b]| >= 2
    ensures Position(K, vs[b], K.Hash(vs[b][0].key), vs[b][0].key) == 0
    ensures Lookup(K, vs, vs[b][1].key) == Some(vs[b][1].value)
    ensures Lookup(K, UnlinkAsWritten(vs, b, 0), vs[b][1].key) == None
    ensures |Flatten(UnlinkAsWritten(vs, b, 0))| < count - 1
  {
    var e := vs[b][1];
    assert e in vs[b];
    FlattenMember(vs, e);
    StoredEntryLookup(K, vs, count, e);
    FlattenUpdate(vs, b, []);
    assert e.hash == K.Hash(e.key) && e.hash % |vs| == b;
    assert vs[b][0] in vs[b];
  }

  /** The corrected unset keeps the entry behind the removed head, and
      exactly one entry goes. */
  lemma UnsetHeadKeepsNext(K: Keying, vs: Buckets, count: nat, b: nat)
    requires WellFormed(K, vs, count) && b < |vs| && |vs[b]| >= 2
    ensures Lookup(K, Unlink(vs, b, 0), vs[b][1].key) == Some(vs[b][1].value)
    ensures |Flatten(Unlink(vs, b, 0))| == count - 1
  {
    var e := vs[b][1];
    assert e in vs[b];
    FlattenMember(vs, e);
    StoredEntryLookup(K, vs, count, e);
    ChainKeysDistinct(K, vs, count, b, 0, 1);
    UnlinkKeeps(K, vs, count, b, 0);
  }

  /** A table with a chain of two: the precondition of the two lemmas above
      can be met. Key `Int(1)` hashes to 0 and is bound. */
  lemma TwoInOneBucketFacts()
    ensures WellFormed(ZeroKeying(), TwoInOneBucket(), 2) && |TwoInOneBucket()[0]| == 2
    ensures ZeroKeying().Hash(Int(1)) == 0 && Lookup(ZeroKeying(), TwoInOneBucket(), Int(1)) == Some(Int(10))
  {
    TwoInOneBucketWellFormed();
  }

  /** dfsch_hash_set_if_exists as written tests `h = i->hash && eq`: an
      assignment, true exactly when the entry's hash is non-zero and the
      keys are equal. */
  predicate MatchesAsWritten(K: Keying, e: Entry, k: Value)
  {
    e.hash != 0 && K.Same(e.key, k)
  }

  /** The index of the first entry the as-written test accepts. */
  function PositionAsWritten(K: Keying, chain: seq<Entry>, k: Value): (p: nat)
    ensures p <= |chain|
    ensures forall i :: 0 <= i < p ==> !MatchesAsWritten(K, chain[i], k)
    ensures p < |chain| ==> MatchesAsWritten(K, chain[p], k)
  {
    if chain == [] then 0
    else if MatchesAsWritten(K, chain[0], k) then 0
    else 1 + PositionAsWritten(K, chain[1..], k)
  }

  function SetIfExistsAsWritten(K: Keying, st: State, k: Value, v: Value): (bool, State)
    requires |st.buckets| > 0
  {
    var vs, h := st.buckets, K.Hash(k);
    var b := h % |vs|;
    var p := PositionAsWritten(K, vs[b], k);
    if p < |vs[b]| then (true, State(Overwrite(vs, b, p, v), st.count)) else (false, st)
  }

  /** set_if_exists as written never finds a key whose hash is 0: it
      reports the key absent and leaves the table alone, whether or not the
      table binds it. */
  lemma SetIfExistsAsWrittenMissesZeroHash(K: Keying, st: State, k: Value, v: Value)
    requires WellFormed(K, st.buckets, st.count) && K.Hash(k) == 0
    ensures SetIfExistsAsWritten(K, st, k, v) == (false, st)
  {
    var vs := st.buckets;
    var chain := vs[0];
    var p := PositionAsWritten(K, chain, k);
    if p < |chain| {
      assert chain[p] in vs[0];
      SameHash(K, chain[p].key, k);
    }
  }


  // ---------------------------------------------------------------------
  // The table object (hash_t)

  /** The inner loop of hash_change_size: each entry of `chain`, in order,
      consed onto bucket `hash & (size - 1)` of `nv`. */
  method PrependChain(nv: array<seq<Entry>>, chain: seq<Entry>)
    requires nv.Length > 0 && IsPow2(nv.Length)
    modifies nv
    ensures nv[..] == PrependAll(old(nv[..]), chain)
  {
    ghost var start := nv[..];
    var i := 0;
    assert chain[..0] == [];
    while i < |chain|
      invariant 0 <= i <= |chain|
      invariant nv[..] == PrependAll(start, chain[..i])
    {
      var e := chain[i];
      var slot := BitAnd(e.hash, nv.Length - 1);
      AndMask(e.hash, nv.Length - 1);
      assert chain[..i + 1] == chain[..i] + [e];
      PrependAllSnoc(start, chain[..i], e);
      nv[slot] := [e] + nv[slot];
      i := i + 1;
    }
    assert chain[..|chain|] == chain;
  }

  /** The inner loop of dfsch_hash_2_alist: the list `(key value)` of each
      entry of `chain`, in order, consed onto `alist`, which holds the
      entries `done` visited before. */
  method ConsChain(alist: Value, chain: seq<Entry>, ghost done: seq<Entry>) returns (r: Value)
    requires alist == AlistOf(done)
    ensures r == AlistOf(done + chain)
  {
    r := alist;
    var i := 0;
    assert done + chain[..0] == done;
    while i < |chain|
      invariant 0 <= i <= |chain|
      invariant r == AlistOf(done + chain[..i])
    {
      assert (done + chain[..i + 1])[..|done + chain[..i]|] == done + chain[..i];
      r := Pair(List([chain[i].key, chain[i].value]), r);
      i := i + 1;
    }
    assert chain[..|chain|] == chain;
  }

  class HashTable {
    const keying: Keying
    var count: nat
    var mask: nat
    var vector: array<seq<Entry>>

    ghost predicate Valid()
      reads this, vector
    {
      vector.Length == mask + 1 && WellFormed(keying, vector[..], count)
    }

    /** The buckets and count the pure operations act on. */
    ghost function Model(): State
      reads this, vector
    {
      State(vector[..], count)
    }

    /** dfsch_hash_make */
    constructor (mode: Mode, oracle: KeyOracle)
      ensures Valid() && fresh(vector)
      ensures keying == Keying(mode, oracle) && mask == 7 && Model() == Initial()
    {
      keying := Keying(mode, oracle);
      count := 0;
      mask := 7;
      vector := new seq<Entry>[8](_ => []);
      new;
      assert vector[..] == Empty(8);
      InitialEmpty(keying);
    }

    /** `h & mask`: the bucket of hash `h`. */
    method Index(h: nat) returns (b: nat)
      requires vector.Length == mask + 1 && IsPow2(mask + 1)
      ensures b == h % vector.Length
    {
      b := BitAnd(h, mask);
      AndMask(h, mask);
    }

    /** The walk along a chain that ref, set, unset and set_if_exists share:
        the index of the first entry matching hash `h` and key `key`. */
    method Search(chain: seq<Entry>, h: nat, key: Value) returns (i: nat)
      ensures i == Position(keying, chain, h, key)
    {
      i := 0;
      while i < |chain| && !Matches(keying, chain[i], h, key)
        invariant i <= |chain|
        invariant forall j :: 0 <= j < i ==> !Matches(keying, chain[j], h, key)
      {
        i := i + 1;
      }
    }

    /** dfsch_hash_ref */
    method Ref(key: Value) returns (r: Value)
      requires Valid()
      ensures r == RefIn(keying, vector[..], key)
    {
      var h := keying.Hash(key);
      var b := Index(h);
      var chain := vector[b];
      var i := Search(chain, h, key);
      if i < |chain| {
        r := List([chain[i].value]);
      } else {
        r := Nil;
      }
    }

    /** hash_change_size: walks every chain of the old vector and conses
        each entry onto bucket `hash & new_mask` of a fresh vector. (The C
        code reuses an entry record instead of copying it when its `next`
        already is the new bucket's head; the chains are the same either
        way.) */
    method ChangeSize(newMask: nat)
      requires vector.Length == mask + 1 && IsPow2(newMask + 1)
      modifies this
      ensures fresh(vector) && mask == newMask && count == old(count)
      ensures vector[..] == Resized(old(vector[..]), newMask + 1)
    {
      var n := newMask + 1;
      var nv := new seq<Entry>[n](_ => []);
      assert nv[..] == Empty(n);
      var j := 0;
      while j < vector.Length
        invariant 0 <= j <= vector.Length && nv.Length == n
        invariant nv[..] == PrependAll(Empty(n), Flatten(vector[..j]))
        modifies nv
      {
        var chain := vector[j];
        PrependAllAppend(Empty(n), Flatten(vector[..j]), chain);
        PrependChain(nv, chain);
        assert vector[..j + 1][..j] == vector[..j];
        j := j + 1;
      }
      assert vector[..j] == vector[..];
      mask := newMask;
      vector := nv;
    }

    /** dfsch_hash_set */
    method Set(key: Value, value: Value)
      requires Valid()
      modifies this, vector
      ensures Valid() && (vector == old(vector) || fresh(vector))
      ensures Model() == SetIn(keying, old(Model()), key, value)
    {
      ghost var st := Model();
      SetSteps(key, value);
      SetWellFormed(keying, st, key, value, Model());
    }

    /** The steps of dfsch_hash_set, on any vector of power-of-two size. */
    method SetSteps(key: Value, value: Value)
      requires vector.Length == mask + 1 && IsPow2(mask + 1)
      modifies this, vector
      ensures vector.Length == mask + 1 && IsPow2(mask + 1)
      ensures vector == old(vector) || fresh(vector)
      ensures Model() == SetIn(keying, old(Model()), key, value)
    {
      ghost var st := Model();
      var h := keying.Hash(key);
      var b := Index(h);
      var chain := vector[b];
      var i := Search(chain, h, key);
      if i < |chain| {
        vector[b] := chain[i := chain[i].(value := value)];
        assert vector[..] == Overwrite(st.buckets, b, i, value);
      } else {
        AddEntry(Entry(h, key, value));
      }
    }

    /** The absent-key half of dfsch_hash_set: `count++`, growth to twice
        the size when `count > mask + 1`, and the new entry consed onto
        bucket `h & mask` under the (possibly new) mask. */
    method AddEntry(e: Entry)
      requires vector.Length == mask + 1 && IsPow2(mask + 1)
      modifies this, vector
      ensures vector.Length == mask + 1 && IsPow2(mask + 1)
      ensures vector == old(vector) || fresh(vector)
      ensures Model() == AddNew(old(Model()), e)
    {
      ghost var grown := Grown(vector[..], count + 1);
      count := count + 1;
      GrowIfFull();
      var b := Index(e.hash);
      vector[b] := [e] + vector[b];
      assert vector[..] == Prepend(grown, e);
    }

    /** Growth to twice the size once `count > mask + 1`. */
    method GrowIfFull()
      requires vector.Length == mask + 1 && IsPow2(mask + 1)
      modifies this
      ensures vector.Length == mask + 1 && IsPow2(mask + 1) && count == old(count)
      ensures vector == old(vector) || fresh(vector)
      ensures vector[..] == Grown(old(vector[..]), count)
    {
      if count > mask + 1 {
        assert IsPow2(2 * (mask + 1)) by {
          assert 2 * (mask + 1) / 2 == mask + 1;
        }
        ChangeSize((mask + 1) * 2 - 1);
      }
    }

    /** dfsch_hash_unset, with the head of a chain unlinked as intended;
        returns whether an entry was removed (the C code's 1 or 0). */
    method Unset(key: Value) returns (found: bool)
      requires Valid()
      modifies this, vector
      ensures Valid() && (vector == old(vector) || fresh(vector))
      ensures (found, Model()) == UnsetIn(keying, old(Model()), key)
    {
      ghost var st := Model();
      found := UnsetSteps(key);
      UnsetWellFormed(keying, st, key, found, Model());
    }

    /** The steps of dfsch_hash_unset. */
    method UnsetSteps(key: Value) returns (found: bool)
      requires vector.Length == mask + 1 && mask + 1 >= 8 && IsPow2(mask + 1)
      requires count == |Flatten(vector[..])|
      modifies this, vector
      ensures vector.Length == mask + 1 && (vector == old(vector) || fresh(vector))
      ensures (found, Model()) == UnsetIn(keying, old(Model()), key)
    {
      ghost var st := Model();
      var h := keying.Hash(key);
      var b := Index(h);
      var chain := vector[b];
      var i := Search(chain, h, key);
      if i == |chain| {
        return false;
      }
      UnsetAt(keying, st, key, b, i);
      UnlinkSteps(b, i);
      found := true;
    }

    /** The removal steps of dfsch_hash_unset once entry `i` of bucket `b`
        has matched: unlink, `count--`, and shrink to half the size when
        `count + 16 < (mask + 1) / 2` and `mask != 3`. */
    method UnlinkSteps(b: nat, i: nat)
      requires vector.Length == mask + 1 && mask + 1 >= 8 && IsPow2(mask + 1)
      requires b < vector.Length && i < |vector[b]| && count >= 1
      modifies this, vector
      ensures vector.Length == mask + 1 && (vector == old(vector) || fresh(vector))
      ensures count == old(count) - 1
      ensures vector[..] == Shrunk(Unlink(old(vector[..]), b, i), count)
    {
      ghost var rest := Unlink(vector[..], b, i);
      var chain := vector[b];
      vector[b] := chain[..i] + chain[i + 1..];
      assert vector[..] == rest;
      count := count - 1;
      if count + 16 < (mask + 1) / 2 && mask != 3 {
        ChangeSize((mask + 1) / 2 - 1);
      }
    }

    /** dfsch_hash_set_if_exists, with the match test as intended. */
    method SetIfExists(key: Value, value: Value) returns (found: bool)
      requires Valid()
      modifies vector
      ensures Valid()
      ensures (found, Model()) == SetIfExistsIn(keying, old(Model()), key, value)
    {
      ghost var st := Model();
      var h := keying.Hash(key);
      var b := Index(h);
      var chain := vector[b];
      var i := Search(chain, h, key);
      if i == |chain| {
        return false;
      }
      vector[b] := chain[i := chain[i].(value := value)];
      assert vector[..] == Overwrite(st.buckets, b, i, value);
      SetIfExistsWellFormed(keying, st, key, value, true, Model());
      found := true;
    }

    /** dfsch_hash_2_alist */
    method ToAlist() returns (alist: Value)
      ensures alist == AlistOf(Flatten(vector[..]))
    {
      alist := Nil;
      var j := 0;
      while j < vector.Length
        invariant 0 <= j <= vector.Length
        invariant alist == AlistOf(Flatten(vector[..j]))
      {
        alist := ConsChain(alist, vector[j], Flatten(vector[..j]));
        assert vector[..j + 1][..j] == vector[..j];
        j := j + 1;
      }
      assert vector[..j] == vector[..];
    }
  }

  /** One item of dfsch_alist_2_hash, the `n`-th of `items`: its first two
      elements are set as key and value; an item with fewer signals an
      error. */
  method SetItem(t: HashTable, item: Value, ghost items: seq<Value>, ghost n: nat) returns (e: Option<Error>)
    requires n < |items| && items[n] == item && ItemsOk(items[..n])
    requires t.vector.Length == t.mask + 1 && t.Model() == SetAll(t.keying, Initial(), items[..n])
    modifies t, t.vector
    ensures t.vector.Length == t.mask + 1 && (t.vector == old(t.vector) || fresh(t.vector))
    ensures e.None? <==> |Elements(item)| >= 2
    ensures e.None? ==> ItemsOk(items[..n + 1]) && t.Model() == SetAll(t.keying, Initial(), items[..n + 1])
  {
    var name := ListItem(item, 0);
    if name.Err? {
      return Some(name.error);
    }
    var value := ListItem(item, 1);
    if value.Err? {
      return Some(value.error);
    }
    SetAllWellFormed(t.keying, items[..n], t.Model());
    SetAllStep(t.keying, items, n);
    t.Set(name.value, value.value);
    e := None;
  }

  /** dfsch_alist_2_hash: a new table with every item's key set to its value
      in turn; an item without a second element signals an error. */
  method FromAlist(alist: Value, mode: Mode, oracle: KeyOracle) returns (r: Result<HashTable>)
    ensures r.Ok? <==> ItemsOk(Elements(alist))
    ensures r.Ok? ==> fresh(r.value) && fresh(r.value.vector) && r.value.Valid()
    ensures r.Ok? ==> r.value.Model() == SetAll(Keying(mode, oracle), Initial(), Elements(alist))
  {
    var t := new HashTable(mode, oracle);
    var e := SetItems(t, alist);
    if e.Some? {
      return Err(e.value);
    }
    SetAllWellFormed(t.keying, Elements(alist), t.Model());
    r := Ok(t);
  }

  /** The loop of dfsch_alist_2_hash over the items of `alist`. */
  method SetItems(t: HashTable, alist: Value) returns (e: Option<Error>)
    requires t.vector.Length == t.mask + 1 && t.Model() == Initial()
    modifies t, t.vector
    ensures t.vector.Length == t.mask + 1 && (t.vector == old(t.vector) || fresh(t.vector))
    ensures e.None? <==> ItemsOk(Elements(alist))
    ensures e.None? ==> t.Model() == SetAll(t.keying, Initial(), Elements(alist))
  {
    ghost var items := Elements(alist);
    var i := alist;
    ghost var n := 0;
    assert items[..0] == [];
    while i.Pair?
      invariant n <= |items| && Elements(i) == items[n..]
      invariant ItemsOk(items[..n])
      invariant t.vector.Length == t.mask + 1 && (t.vector == old(t.vector) || fresh(t.vector))
      invariant t.Model() == SetAll(t.keying, Initial(), items[..n])
      decreases |Elements(i)|
    {
      e := SetItem(t, i.car, items, n);
      if e.Some? {
        if ItemsOk(items) {
          ItemsOkAt(items, n);
        }
        return;
      }
      assert Elements(i.cdr) == items[n + 1..] by {
        assert items[n + 1..] == items[n..][1..];
      }
      i := i.cdr;
      n := n + 1;
    }
    e := None;
    assert ItemsOk(items) && t.Model() == SetAll(t.keying, Initial(), items) by {
      assert items[..n] == items;
    }
  }
}
