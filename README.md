# dfsch core data structures and forms, modelled in Dafny

This project models the sequential core of the dfsch Scheme runtime and
proves properties of the model. It covers seven parts:

- **The chained hash table** of `hash.c` (module `ChainedHash`). It is a
  power-of-two vector of buckets addressed by `hash & mask`, with eq, eqv
  and equal key modes. It supports ref, set, unset and set_if_exists,
  doubles and halves by re-bucketing, and converts to and from
  association lists. The class `HashTable` holds the vector, `mask` and
  `count` and updates them in place. Each method is proved equal to a
  pure function on `State(buckets, count)`, and the lemmas state what
  those functions promise.
- **The identity hash of environments** of `eqhash.c` (module `EqHash`).
  Small mode is three parallel arrays (keys, values, flags), with the
  sentinel `Invalid` marking a free slot. Large mode is an entry list,
  chained buckets and a lookup cache. `EqTable` keeps the arrays. The
  pure functions (`PutIn`, `SetIn`, `FindIn`, `RefIn`, …) specify it.
- **Condition objects and `dfsch_signal`** of `conditions.c` (module
  `Conditions`). Fields are a most-recent-first association list. The
  built-in type hierarchy is a parent map. The thread's handler list is a
  field of `ThreadInfo`, and each handler invocation is recorded as a call.
- **The control forms** of `control.c` (module `Control`): `if`, `when`,
  `unless`, `cond`, `case`, `quote`, `begin`, `let` (plain and named),
  `letrec`, `let*` and `do`. The evaluator is an abstract function
  `ev(expr, env, frames)`. Environments are frames in a `Store`, each a
  finite map with a parent (module `Frames`).
- **The sequence primitives** of `primitives.c` (module `Primitives`):
  `apply`, `%append-immutable`, `zip`, `map`, `map*`, `every`, `some`,
  `filter`, `find-if`, `merge`, `concatenate`, `reduce` and `not`.
  Collections are Dafny sequences and procedure calls go through an
  abstract `Applier`.
- **The older forms and procedures** of `native.c` (module `Native`):
  `or`, `and`, `define`, `define-variable`, `map`, `filter`, `reduce`,
  `length` and `not`.
- **The trace ring reader** `dfsch_get_trace` of `introspect.c` (module
  `Introspect`).

Lisp objects are the datatype `Values.Value`. `Nil` is the empty list and
the only false value. A signalled error is an `Err` carrying the
exception name and the offending object. `Bits.BitAnd` models `x & mask`,
and `Bits.AndMask` shows that it equals `x % (mask + 1)` when `mask + 1`
is a power of two.

## Model

| member | source | states |
|---|---|---|
| ChainedHash.InitialEmpty | src/hash.c:68-79 | a new table is well formed, has mask 7 and count 0, and binds no key |
| ChainedHash.HashTable.constructor | src/hash.c:68-79 | `dfsch_hash_make` gives a table whose buckets are the empty initial state, with mask 7, under the chosen mode |
| ChainedHash.ModeOf | src/hash.c:554-573 | no mode means eq; `eq?`, `eqv?` and `equal?` select their modes; any other object is the error `exception:unknown-mode` |
| ChainedHash.MakeHashMode | src/hash.c:474-490 | make-hash takes at most one optional mode argument; with none the mode is eq, and an extra argument is an error |
| ChainedHash.AlistToHashArgs | src/hash.c:554-561 | alist->hash takes an alist and then an optional mode; a missing alist or an extra argument is an error |
| ChainedHash.HashTable.Index | src/hash.c:262 | `h & mask` is the bucket `h mod (mask + 1)` |
| ChainedHash.HashTable.Search | src/hash.c:134-160 | the chain walk stops at the first entry whose hash is `h` and whose key is equal under the mode |
| ChainedHash.RefResult | src/hash.c:119-162 | ref returns the list `(v)` exactly when the table binds the key to `v`, and nil exactly when the key is unbound |
| ChainedHash.HashTable.Ref | src/hash.c:119-162 | `dfsch_hash_ref` returns the value of the pure ref on the current buckets |
| ChainedHash.ResizedKeeps | src/hash.c:176-202 | re-bucketing under a new power-of-two size keeps the invariant and every entry, so every lookup is unchanged |
| ChainedHash.HashTable.ChangeSize | src/hash.c:176-202 | `hash_change_size` makes a fresh vector of the new size holding every entry re-bucketed, with the new mask and the same count |
| ChainedHash.PrependChain | src/hash.c:182-195 | the inner loop of `hash_change_size` conses each entry of one chain, in order, onto bucket `hash & (size - 1)` |
| ChainedHash.GrownKeeps | src/hash.c:257-260 | the growth step of set keeps the invariant, the stored entries and every lookup |
| ChainedHash.HashTable.GrowIfFull | src/hash.c:258-260 | the vector doubles once `count > mask + 1` and is untouched otherwise |
| ChainedHash.SetLookup | src/hash.c:204-269 | after set(k, v) the table stays well formed, every key equal to `k` is bound to `v`, and every other key keeps its binding |
| ChainedHash.SetShape | src/hash.c:219-265 | for an absent key, count grows by one, the vector doubles when count exceeds its size, and the new entry heads bucket `h & mask`; for a present key, the first matching entry's value becomes `v` in place, every other key, hash and value stays, and count stays the same |
| ChainedHash.HashTable.Set | src/hash.c:204-269 | `dfsch_hash_set` keeps the invariant and leaves the buckets and count of the pure set |
| ChainedHash.HashTable.AddEntry | src/hash.c:255-265 | the absent-key half of set: count plus one, growth when full, and the entry consed at the head of its bucket |
| ChainedHash.UnsetResult | src/hash.c:271-365 | unset returns true exactly when the key is bound, then decrements count and unbinds only that key; for an absent key it returns false and changes nothing |
| ChainedHash.HashTable.Unset | src/hash.c:271-365 | `dfsch_hash_unset`, with the chain head unlinked as intended, keeps the invariant and gives the pure unset's result and state |
| ChainedHash.HashTable.UnlinkSteps | src/hash.c:288-300 | removes entry `i` of bucket `b`, decrements count, and halves the vector when `count + 16 < (mask + 1) / 2` and mask is not 3 |
| ChainedHash.SetIfExistsResult | src/hash.c:371-424 | set_if_exists returns true exactly when the key is bound, then replaces only that key's value and keeps count; otherwise it returns false and changes nothing |
| ChainedHash.HashTable.SetIfExists | src/hash.c:371-424 | `dfsch_hash_set_if_exists`, with the hash comparison as intended, gives the pure set_if_exists result and state |
| ChainedHash.AlistOfElements | src/hash.c:435-444 | the alist built from the visited entries is a proper list with one `(key value)` per entry, the last visited entry first |
| ChainedHash.AlistOfTable | src/hash.c:427-447 | hash->alist has exactly `count` elements: every stored entry's `(key value)`, and nothing else |
| ChainedHash.StoredEntryLookup | src/hash.c:427-447 | every pair that hash->alist lists is the binding that ref finds for its key |
| ChainedHash.ConsChain | src/hash.c:437-443 | the inner loop of hash->alist conses the `(key value)` of each entry of one chain |
| ChainedHash.HashTable.ToAlist | src/hash.c:427-447 | `dfsch_hash_2_alist` returns the alist of all entries, bucket by bucket and in chain order |
| ChainedHash.SetAllLookup | src/hash.c:454-462 | after the items are set in order, each key is bound to the value of its last item, and keys of no item keep their binding |
| ChainedHash.FromItemsLookup | src/hash.c:449-465 | alist->hash builds a well-formed table that binds exactly the keys of the alist, each to its last value |
| ChainedHash.SetItem | src/hash.c:455-459 | one alist item with at least two elements is set into the table; a shorter item is an error |
| ChainedHash.SetItems | src/hash.c:454-462 | the loop over the alist succeeds exactly when every item has a key and a value, and then leaves the table of all those sets |
| ChainedHash.FromAlist | src/hash.c:449-465 | `dfsch_alist_2_hash` gives a valid fresh table equal to setting every item in order, or an error for an item without key and value |
| ChainedHash.UnsetHeadAsWrittenLosesNext | src/hash.c:292 | as written, unsetting the head of a chain of two or more entries loses every later entry of that chain, and the entry count falls by more than one |
| ChainedHash.UnsetHeadKeepsNext | src/hash.c:289-294 | the corrected unlink keeps the entries behind the removed head, and the entry count falls by exactly one |
| ChainedHash.TwoInOneBucketFacts | src/hash.c:271-294 | a concrete table with a two-entry chain meets the precondition of both lemmas above |
| ChainedHash.PositionAsWritten | src/hash.c:387-414 | the as-written chain walk stops at the first entry its test `h = i->hash && …` accepts |
| ChainedHash.SetIfExistsAsWrittenMissesZeroHash | src/hash.c:389 | as written, set_if_exists reports any key whose hash is 0 as absent and leaves the table unchanged, even when the key is bound |
| EqHash.InitEmpty | src/eqhash.c:41-58 | a new table, small or large, satisfies the invariant and binds no key; in large mode count is 0 and the cache is empty |
| EqHash.EqTable.constructor | src/eqhash.c:41-58 | `dfsch_eqhash_init` builds the initial state: every slot empty in small mode, or eight empty buckets in large mode |
| EqHash.EqTable.SmallSearch | src/eqhash.c:104-110 | the slot loop stops at the first slot holding the key, or at the end |
| EqHash.ConvertKeeps | src/eqhash.c:75-98 | converting a full small table gives a valid large one: one entry per slot in slot order, count `SMALL_SIZE`, and an empty cache |
| EqHash.ConvertLookup | src/eqhash.c:75-98 | for a table in which no key is stored twice, conversion keeps every key's value and flags |
| EqHash.EqTable.Buckets | src/eqhash.c:80-88 | the slot loop of `convert_to_large` makes each occupied slot an entry at the head of bucket `hash & 7` |
| EqHash.EqTable.ConvertToLarge | src/eqhash.c:75-98 | `convert_to_large` leaves the large state that the pure conversion gives, and sets `is_large` |
| EqHash.FindTransparent | src/eqhash.c:119-138 | for a table in which no key is stored twice, the cache does not change a result: find_entry returns what walking the key's bucket finds, and keeps the invariant |
| EqHash.StaleCacheAfterRepeatedPut | src/eqhash.c:119-138 | when a key is put twice into a large table and found in between, find_entry goes on returning the first entry from the cache, while the walk finds the second, newer one |
| EqHash.FindMissing | src/eqhash.c:119-138 | for an absent key, find_entry returns nothing and leaves the cache as it was |
| EqHash.EqTable.FindEntry | src/eqhash.c:119-138 | `find_entry` returns the pure find's entry and leaves the cache it describes |
| EqHash.EqTable.ChainSearch | src/eqhash.c:129-136 | the walk of one chain stops at the first entry with the key |
| EqHash.PutLook | src/eqhash.c:100-117 | for a table in which no key is stored twice, put of an absent key binds it to the value with flags 0, changes no other key, and stores no key twice |
| EqHash.PutPresent | src/eqhash.c:100-117 | put does not look for the key: on a present key it adds a second entry, and in small mode with a free slot the first slot still wins the lookup |
| EqHash.EqTable.Put | src/eqhash.c:100-117 | `dfsch_eqhash_put` writes the first empty slot, or converts a full small table and inserts into large mode, as the pure put does |
| EqHash.EqTable.LargeInsert | src/eqhash.c:114-116 | the large half of put: count plus one, and a new entry with flags 0 at the head of bucket `hash & mask` |
| EqHash.SetLook | src/eqhash.c:140-158 | for a table in which no key is stored twice, set binds the key to the value, keeps its flags when present or gives flags 0 when new, changes no other key, and stores no key twice |
| EqHash.SetInPlace | src/eqhash.c:142-156 | on every valid table, set on a present key only rewrites a value: no slot, entry or bucket is added |
| EqHash.EqTable.Set | src/eqhash.c:140-158 | `dfsch_eqhash_set` leaves the pure set's state |
| EqHash.SetFlagsAbsent | src/eqhash.c:159-176 | set_flags on an absent key leaves the table as it was |
| EqHash.SetFlagsLook | src/eqhash.c:159-176 | for a table in which no key is stored twice, set_flags gives a present key other than the empty-slot sentinel the new flags, keeps its value, and adds nothing |
| EqHash.EqTable.SetFlags | src/eqhash.c:159-176 | `dfsch_eqhash_set_flags` leaves the pure set_flags state |
| EqHash.SetIfExistsAbsent | src/eqhash.c:177-196 | set_if_exists on an absent key returns false and leaves the table as it was |
| EqHash.SetIfExistsLook | src/eqhash.c:177-196 | for a table in which no key is stored twice, set_if_exists returns whether the key is present and then replaces only its value, keeping its flags and adding nothing |
| EqHash.EqTable.SetIfExists | src/eqhash.c:177-196 | `dfsch_eqhash_set_if_exists` gives the pure set_if_exists result and state |
| EqHash.EqTable.Unset | src/eqhash.c:197-200 | `dfsch_eqhash_unset` always returns 1 |
| EqHash.RefMissing | src/eqhash.c:202-235 | ref of an absent key returns 0, writes no output, and leaves the table unchanged |
| EqHash.RefResult | src/eqhash.c:202-235 | for a table in which no key is stored twice, ref returns 1 exactly when the key is bound, with its value and flags, and it changes no binding |
| EqHash.SetThenRef | src/eqhash.c:140-158 | on every valid table, including one that stores a key twice and for the empty-slot sentinel as a key, after set(k, v), ref(k) returns 1 and yields `v` |
| EqHash.EqTable.Ref | src/eqhash.c:202-235 | `dfsch_eqhash_ref` gives the pure ref's outputs and state |
| Conditions.Hierarchy | src/conditions.c:68-78 | runtime-error is an error and a condition, error and warning are conditions, and no other pair of built-in types is related |
| Conditions.OutsideHierarchy | src/conditions.c:68-78 | a type outside the hierarchy is an instance of itself only |
| Conditions.FieldIndex | src/conditions.c:18 | `assq` finds the first field with the name, and no earlier field has it |
| Conditions.PutFieldOf | src/conditions.c:12-35 | after a field is consed in front, its name reads as its value and every other name reads as before |
| Conditions.Condition.constructor | src/conditions.c:6-10 | `dfsch_make_condition` gives an object of the type with no fields |
| Conditions.Condition.Field | src/conditions.c:12-24 | a non-condition object is the error `exception:not-a-condition`; otherwise the value of the first field with the name, and nil for a name never put |
| Conditions.Condition.Fields | src/conditions.c:45-50 | the field list of a condition, or the not-a-condition error |
| Conditions.Condition.PutField | src/conditions.c:25-35 | puts the new field in front of the list, or signals not-a-condition and changes nothing |
| Conditions.CreatedFieldOf | src/conditions.c:52-66 | in a condition built by `dfsch_condition`, a repeated name reads as its last value and `stack-trace` reads as the trace unless an argument overrides it |
| Conditions.MakeCondition | src/conditions.c:52-66 | `dfsch_condition` builds a fresh condition with `stack-trace` first and then each name-value pair in argument order |
| Conditions.HandlerCallsAppend | src/conditions.c:87-93 | the calls of a walk over two lists are those of the first list followed by those of the second |
| Conditions.HeadFirst | src/conditions.c:85-93 | the head handler, the one installed most recently, is considered first |
| Conditions.CallsAreMatches | src/conditions.c:87-93 | a call is made exactly for the handlers whose type the condition is an instance of |
| Conditions.NoMatchNoCalls | src/conditions.c:87-102 | when no handler matches, nothing is called and the active list is the saved one |
| Conditions.ThreadInfo.Invoke | src/conditions.c:90 | a handler call is recorded with the handler list active while it runs |
| Conditions.ThreadInfo.Signal | src/conditions.c:80-103 | the recorded calls are exactly the matching handlers in list order, each made with its node's own handler list active; an error aborts, and any other condition returns with the saved list restored |
| Conditions.Restart.constructor | src/conditions.c:118-128 | `dfsch_make_restart` stores the name, procedure and description |
| Control.If | src/control.c:49-64 | with at least env, test and consequent: the list of the consequent when the test is true, else of the alternate (nil when missing); with fewer arguments, an error |
| Control.When | src/control.c:66-76 | the body when the test is true, nil otherwise |
| Control.Unless | src/control.c:78-88 | nil when the test is true, the body otherwise |
| Control.UnlessIsWhenReversed | src/control.c:66-88 | exactly one of `when` and `unless` returns the body, and the other returns nil |
| Control.CondClause | src/control.c:95-112 | a clause with a false test gives nothing; with a true test it gives its body, or for `=>` the quoted result of applying the procedure to the test value |
| Control.CondFirstMatch | src/control.c:95-115 | the first clause whose test is true decides the expansion, and no later test is looked at |
| Control.CondNoMatch | src/control.c:91-118 | with every test false, cond expands to nil |
| Control.Cond | src/control.c:91-118 | `cond` walks the clauses after the environment to the expansion above |
| Control.MemberEqv | src/control.c:133-137 | the datum loop finds a match exactly when some datum is eqv? to the key |
| Control.CaseFirstMatch | src/control.c:127-139 | case continues with the body of the first clause whose head is `else` or holds a datum eqv? to the key |
| Control.CaseNoMatch | src/control.c:127-141 | with no selecting clause, case expands to nil |
| Control.Case | src/control.c:119-143 | fewer than env and key arguments is an error; otherwise the clause walk over the evaluated key |
| Control.QuoteForm | src/control.c:145-148 | exactly one argument after the environment, returned unevaluated; any other count is an error |
| Control.Begin | src/control.c:159-161 | the body after the environment, unchanged |
| Control.LetBinding | src/control.c:213-214 | a binding with at least name and init gives those two; a shorter one is an error |
| Control.ParsedPrefix | src/control.c:212-219 | a binding loop accepts exactly the leading well-formed bindings and stops at the first malformed one |
| Control.DefineAllFrame | src/control.c:212-219 | the binding loop changes only its own frame and keeps that frame's parent; the frame binds its old names and the loop's names, each name of the loop to the value of its last init, evaluated in the given environment on the store the definitions before it left, and every other name keeps its value |
| Control.DefineBindings | src/control.c:212-219 | the loop that defines each binding in frame `f` leaves the store and error of the pure binding loop |
| Control.NamedLetArguments | src/control.c:184-204 | the named-let loop yields the variable names and the init values evaluated in the outer environment, in order |
| Control.Let | src/control.c:162-222 | `let` leaves the store and continuation of the pure specification: plain and named forms, and errors for too few arguments or a malformed binding |
| Control.LetBindsOneFrame | src/control.c:162-222 | a plain let adds one frame over the outer environment, binding exactly the names of the bindings, each to its last init evaluated in the outer environment, and continues with the body in that frame |
| Control.LetFallsBack | src/control.c:162-222 | a name the let does not bind is looked up in the outer environment |
| Control.NamedLetShape | src/control.c:171-209 | a named let adds one frame binding only its name to the lambda, and applies the lambda to the inits |
| Control.NamedLetBindsLambda | src/control.c:171-209 | named let binds its name, in its new frame, to a lambda named by it over the variable names and the body, closed over that frame, and applies it to the inits evaluated in order in the outer environment |
| Control.Letrec | src/control.c:223-242 | `letrec` leaves the store and result of its specification; LetrecBindsOneFrame and LetrecSeesEarlier state what that specification binds |
| Control.LetrecBindsOneFrame | src/control.c:223-242 | letrec adds one frame over the outer environment, binding exactly the names of the bindings, each to its last init evaluated in the new frame itself on the store the definitions before it left, and continues with the body in that frame |
| Control.LetrecSeesEarlier | src/control.c:232-239 | when letrec evaluates its k-th init, every name bound by an earlier binding reads, from the new frame, as the value of its latest definition |
| Control.StarBindings | src/control.c:252-260 | let* keeps the old frames and adds one frame per binding; the final environment is the last frame, or the outer one when there are no bindings |
| Control.StarFrames | src/control.c:252-260 | each frame of let* binds just its name, to its init evaluated in the environment and on the store the bindings before it built, and extends the frame before it (the first one extends the outer environment) |
| Control.StarScope | src/control.c:252-262 | from the environment let* has built through binding k, each name bound by the bindings up to k reads as the value of its latest binding |
| Control.BindInSequence | src/control.c:252-260 | the loop of let* leaves the frames and final environment of the pure specification, or the binding error |
| Control.LetStar | src/control.c:243-263 | `let*` leaves the store and continuation of its specification |
| Control.DoBinding | src/control.c:371-393 | a `do` variable clause gives name, init and step; the step defaults to the name; a shorter clause is an error |
| Control.DoHeader | src/control.c:354-360 | `do` needs env, variables and a test clause, whose head is the test and whose rest is the result expressions |
| Control.Do | src/control.c:343-403 | within the fuel, `do` leaves the store and continuation of its specification, and reports when the fuel runs out |
| Control.DoEndsOnTrueTest | src/control.c:379-399 | the iterations of `do` stop only in a loop frame in which the test is true |
| Control.DoInitFrame | src/control.c:362-377 | the first loop of `do` makes one fresh frame over `env` that binds exactly the variable names, each to its (last) init evaluated in `env` |
| Control.DoStepFrame | src/control.c:379-399 | while the test is nil in the loop frame, `do` goes on from one fresh frame over `env` that binds exactly the variable names, each to its (last) step evaluated in the previous loop frame |
| Control.DoKeepsStepless | src/control.c:393-395 | a variable whose clause has no step keeps its value in the next loop frame, for an evaluator that reads a bound symbol as its binding |
| Control.DoSpecResult | src/control.c:362-402 | when `do` finishes, the first loop succeeded, the iterations ended in a loop frame in which the test is true, and `do` continues with the result expressions in that frame |
| Control.DoFramesOverEnv | src/control.c:362-399 | every loop frame of `do`, the first and each later one, extends `env`, not the previous loop frame |
| Primitives.SpreadLast | src/primitives.c:1245-1274 | the called procedure gets every argument but the last, followed by the elements of the last |
| Primitives.SpreadLone | src/primitives.c:1252-1258 | with one list argument, that list itself is passed |
| Primitives.Apply | src/primitives.c:1245-1274 | `apply` continues by applying the procedure to the spread arguments; with no procedure it is an error |
| Primitives.ConcatItem | src/primitives.c:787-811 | every item of every collection appears in the concatenation, in its place |
| Primitives.ConcatAppend | src/primitives.c:787-811 | concatenation distributes over joining lists of collections |
| Primitives.AppendImmutable | src/primitives.c:298-320 | `%append-immutable` returns all items of its argument lists in order, and is an error for an improper argument list or an improper list argument |
| Primitives.CollectItems | src/primitives.c:304-307 | the inner loop collects the elements of one list, in order |
| Primitives.Concatenate | src/primitives.c:787-811 | `concatenate` returns all items of all collections, in order |
| Primitives.FoldLeftAppend | src/primitives.c:868-874 | folding over two pieces is folding over the second, starting from the result of the first |
| Primitives.ReduceSingle | src/primitives.c:855-877 | a one-element list reduces to its element; native.c:435-458 holds the same code |
| Primitives.Reduce | src/primitives.c:855-877 | `reduce` needs exactly a procedure and a list, and returns the left fold seeded with the first element, or nil for a non-pair |
| Primitives.Not | src/primitives.c:998-1003 | true exactly for nil and nil for anything else; an argument count other than one is an error |
| Primitives.Shortest | src/primitives.c:445-474 | the number of tuples is the length of the shortest collection |
| Primitives.Start | src/primitives.c:452-458 | the iterators all start at 0, and the loop starts only when no collection is empty |
| Primitives.Advance | src/primitives.c:467-472 | stepping every iterator ends the loop exactly when the shortest collection is used up |
| Primitives.Current | src/primitives.c:462-466 | the collected items are the tuple at the current position |
| Primitives.Zip | src/primitives.c:445-474 | one tuple per position, up to the length of the shortest collection |
| Primitives.Results | src/primitives.c:508-554 | one result per tuple, each the procedure applied to that tuple |
| Primitives.Map | src/primitives.c:508-554 | `map` returns the result of each tuple, in order |
| Primitives.MapOverZip | src/primitives.c:508-554 | `map` gives one result per tuple of `zip`, in order |
| Primitives.NonNil | src/primitives.c:593-596 | the kept values are exactly the non-nil ones |
| Primitives.MapStar | src/primitives.c:556-604 | `map*` returns the non-nil results of `map`, in order |
| Primitives.Every | src/primitives.c:658-692 | true exactly when the procedure is true for every tuple, so also when some collection is empty; nil otherwise |
| Primitives.Some | src/primitives.c:694-730 | the first non-nil result, or nil when there is none |
| Primitives.Kept | src/primitives.c:733-759 | filtering never lengthens the list |
| Primitives.Filter | src/primitives.c:733-759 | `filter` returns the accepted items in their original order |
| Primitives.KeptMembers | src/primitives.c:733-759 | an item is in the filtered list exactly when it is in the input and accepted |
| Primitives.KeptAppend | src/primitives.c:733-759 | filtering distributes over concatenation |
| Primitives.KeptIdempotent | src/primitives.c:733-759 | filtering twice with the same predicate changes nothing |
| Primitives.KeptNone | src/primitives.c:733-759 | when no item is accepted the result is empty |
| Primitives.FirstAccepted | src/primitives.c:762-785 | the first position whose item is accepted, or the length when none is |
| Primitives.FindIf | src/primitives.c:762-785 | `find-if` returns the first accepted item, or nil |
| Primitives.FindIfHeadsFilter | src/primitives.c:733-785 | find-if finds something exactly when filter keeps something, and what it finds is the head of the filtered list |
| Primitives.MergedStep | src/primitives.c:829-841 | the head of the first collection is taken exactly when the predicate on the two heads is true |
| Primitives.MergedRest | src/primitives.c:842-848 | once either collection is used up, the rest of the other follows unchanged |
| Primitives.Merge | src/primitives.c:812-851 | `merge` returns the merged sequence of its specification |
| Primitives.MergedInterleaves | src/primitives.c:812-851 | the items taken from each side, in order, are exactly that input |
| Primitives.MergedPermutes | src/primitives.c:812-851 | the output holds every item of both inputs exactly once |
| Primitives.MergedSorted | src/primitives.c:812-851 | when the predicate is a total preorder, merging two sorted inputs gives a sorted output |
| Native.LengthCheck | src/native.c:258-261 | the length of a proper list, and an error for an improper one |
| Native.Or | src/native.c:543-559 | `or` returns the first non-nil value, or nil when all are nil or there are none, and evaluates no expression after the first non-nil one |
| Native.And | src/native.c:560-577 | `and` returns nil at the first nil value without evaluating further, otherwise the last value, or true when there are no expressions |
| Native.OrAndDual | src/native.c:543-577 | the first non-nil value is where the negated values have their first nil |
| Native.Define | src/native.c:155-172 | `define` leaves the store and result of its specification |
| Native.DefineBindsProcedure | src/native.c:162-166 | `(define (name . params) body…)` binds `name` to a lambda named `name` over the params and body, closed over the environment, returns it, and changes no other name |
| Native.DefineBindsValue | src/native.c:167-170 | `(define name expr)` binds `name` to the value of `expr`, returns it, and changes no other name |
| Native.DefineVariable | src/native.c:174-192 | `define-variable` leaves the store and result of its specification |
| Native.DefineVariableKeepsBinding | src/native.c:185-191 | a bound name keeps its binding and the result is nil; an unbound name gets the value, which is returned |
| Native.Map | src/native.c:378-403 | the older `map` returns the procedure applied to each zipped tuple, in order, and nil when zip gives nil |
| Native.MapAgreesWithPrimitive | src/native.c:378-403 | given the zip the `zip` primitive makes, the older `map` gives the results of the `map` primitive |
| Native.Filter | src/native.c:404-434 | the older `filter` returns the items with a non-nil predicate result, in order, as a list |
| Native.Length | src/native.c:254-264 | `length` of one proper list is its number of elements; an improper list or a wrong argument count is an error |
| Native.LengthOfList | src/native.c:254-264 | the length of a list built from `n` items is `n` |
| Native.Not | src/native.c:578-582 | true exactly for nil and nil for anything else; an argument count other than one is an error |
| Introspect.Kind | src/introspect.c:75 | the kind is the low byte of the flags |
| Introspect.Prev | src/introspect.c:100 | `(i - 1) & trace_depth` is the previous slot modulo the ring size, wrapping from 0 to `trace_depth` |
| Introspect.Back | src/introspect.c:100 | the slot reached after stepping back from `trace_ptr` is always within the ring |
| Introspect.BackStep | src/introspect.c:100 | one bit-and step moves the walk one slot further back |
| Introspect.BackCycle | src/introspect.c:101 | the walk returns to `trace_ptr` after the whole ring and not before |
| Introspect.BackDistinct | src/introspect.c:72-101 | no slot is read twice in one walk |
| Introspect.CountFrom | src/introspect.c:74-77 | the walk records at most one slot per ring position and stops before the first INVALID slot |
| Introspect.Records | src/introspect.c:98 | the records are ordered oldest first |
| Introspect.GetTrace | src/introspect.c:67-104 | `dfsch_get_trace` returns the trace of its specification |
| Introspect.TraceBounded | src/introspect.c:72-101 | the trace is a proper list of at most `trace_depth + 1` records |
| Introspect.TraceEmptyOnInvalid | src/introspect.c:74-77 | an INVALID slot at `trace_ptr` gives the empty list |
| Introspect.TraceEndsAtPtr | src/introspect.c:98-100 | otherwise the last record is that of `trace_ptr`, and each earlier record is that of the slot before |
| Introspect.RecordShape | src/introspect.c:79-96 | an apply slot gives `(apply proc args)`, an eval slot gives `(eval expr env)`, and any other kind gives its raw flags as a number |
| Bits.AndMask | src/hash.c:262 | `x & mask` is `x mod (mask + 1)` when `mask + 1` is a power of two |

## Left out

- Evaluation, application, closures and frames belong to files that are not part of this model. `dfsch_eval` is the abstract function `ev(expr, env, frames)` and `dfsch_apply` is an abstract `Applier`. Evaluation never changes the store of frames. `dfsch_named_lambda` is a `Closure` value, and a frame is a finite map with a parent.
- `eqv?`, `equal?` and `dfsch_hash` are abstract. In the eqv and equal modes of `hash.c` each key has a canonical representative, two keys are equal when their representatives are, and the hash is a function of the representative. This builds in that these predicates are equivalence relations and that the hash agrees with them.
- The pointer-bit hash mixing of `ptr_hash` (`hash.c`) and `fast_ptr_hash` (`eqhash.c`) is an uninterpreted `hash(key)`. Object identity is equality of `Value`s.
- The mutexes of `hash.c` are left out: the table is modelled sequentially.
- The type check `GET_HASH`, which raises `exception:not-a-hash`, is left out: a `HashTable` is always a hash table.
- `dfsch_car`, `dfsch_cdr` and `dfsch_list_item` on an object that is not a pair signal an error, as the argument macros do. Those definitions are not part of this model.
- Integers are unbounded. No `size_t` or `long` wrap-around is modelled, and neither is the truncation of `long` flags to `int` in `eqhash.c`.
- EqHash.EqTable.Ref: the null output pointers that `dfsch_eqhash_ref` skips are not modelled. The outputs are always returned, and an output that is not written keeps its old value.
- EqHash.EqTable.Unset is the stub of the source: it always returns 1 and changes nothing.
- EqHash.FindTransparent: holds for tables in which no key is stored twice. `dfsch_eqhash_put` does not look for the key, so a put of a key already present stores it twice (`EqHash.PutPresent`). After that a cached entry can be stale (`EqHash.StaleCacheAfterRepeatedPut`), and `convert_to_large` reverses the order of the two copies. In `eqhash.c` put is reached only from set, for a key that set did not find, and `dfsch_eqhash_set` keeps keys unique (`EqHash.SetLook`).
- EqHash.ConvertLookup: holds for tables in which no key is stored twice. `dfsch_eqhash_put` does not look for the key, so a put of a key already present stores it twice (`EqHash.PutPresent`). After that a cached entry can be stale (`EqHash.StaleCacheAfterRepeatedPut`), and `convert_to_large` reverses the order of the two copies. In `eqhash.c` put is reached only from set, for a key that set did not find, and `dfsch_eqhash_set` keeps keys unique (`EqHash.SetLook`). It also speaks only of keys other than the sentinel `Invalid`, which marks an empty slot.
- EqHash.PutLook: holds for tables in which no key is stored twice. `dfsch_eqhash_put` does not look for the key, so a put of a key already present stores it twice (`EqHash.PutPresent`). After that a cached entry can be stale (`EqHash.StaleCacheAfterRepeatedPut`), and `convert_to_large` reverses the order of the two copies. In `eqhash.c` put is reached only from set, for a key that set did not find, and `dfsch_eqhash_set` keeps keys unique (`EqHash.SetLook`). It also speaks only of keys other than the sentinel `Invalid`, which marks an empty slot.
- EqHash.SetLook: holds for tables in which no key is stored twice. `dfsch_eqhash_put` does not look for the key, so a put of a key already present stores it twice (`EqHash.PutPresent`). After that a cached entry can be stale (`EqHash.StaleCacheAfterRepeatedPut`), and `convert_to_large` reverses the order of the two copies. In `eqhash.c` put is reached only from set, for a key that set did not find, and `dfsch_eqhash_set` keeps keys unique (`EqHash.SetLook`). It also speaks only of keys other than the sentinel `Invalid`, which marks an empty slot.
- EqHash.SetFlagsLook: holds for tables in which no key is stored twice. `dfsch_eqhash_put` does not look for the key, so a put of a key already present stores it twice (`EqHash.PutPresent`). After that a cached entry can be stale (`EqHash.StaleCacheAfterRepeatedPut`), and `convert_to_large` reverses the order of the two copies. In `eqhash.c` put is reached only from set, for a key that set did not find, and `dfsch_eqhash_set` keeps keys unique (`EqHash.SetLook`).
- EqHash.SetIfExistsLook: holds for tables in which no key is stored twice. `dfsch_eqhash_put` does not look for the key, so a put of a key already present stores it twice (`EqHash.PutPresent`). After that a cached entry can be stale (`EqHash.StaleCacheAfterRepeatedPut`), and `convert_to_large` reverses the order of the two copies. In `eqhash.c` put is reached only from set, for a key that set did not find, and `dfsch_eqhash_set` keeps keys unique (`EqHash.SetLook`). It also speaks only of keys other than the sentinel `Invalid`, which marks an empty slot.
- EqHash.RefResult: holds for tables in which no key is stored twice. `dfsch_eqhash_put` does not look for the key, so a put of a key already present stores it twice (`EqHash.PutPresent`). After that a cached entry can be stale (`EqHash.StaleCacheAfterRepeatedPut`), and `convert_to_large` reverses the order of the two copies. In `eqhash.c` put is reached only from set, for a key that set did not find, and `dfsch_eqhash_set` keeps keys unique (`EqHash.SetLook`).
- EqHash.EqTable.SetFlags: requires that the key is not the empty-slot sentinel `Invalid`. The source accepts it, and in small mode `dfsch_eqhash_set_flags(INVALID, f)` writes the flags of the first empty slot. A later put into that slot leaves those flags in place, so the new key gets `f` rather than 0. The model never passes the sentinel as a key, and its small-mode invariant keeps the flags of an empty slot at 0.
- EqHash.SetFlagsLook: requires that the key is not the sentinel `Invalid`, for the same reason as `EqHash.EqTable.SetFlags`.
- Large-mode `eqhash` never grows, as in the source.
- The lookup cache of `eqhash` holds entry indices. The identity of `hash_entry_t` pointers is not modelled.
- `dfsch_signal` does not print its diagnostic, and its `abort()` is the outcome `Aborted`. The handler list is a Dafny sequence, and `dfsch__get_thread_info` is a `ThreadInfo` object passed in.
- Restarts carry no behaviour beyond their fields.
- `dfsch_get_stack_trace` is a parameter of `Conditions.MakeCondition`. The C varargs are a sequence of name-value pairs, and the NULL terminator ends that sequence.
- Control.Do: `do` takes a `fuel` bound on its iterations, because an abstract evaluator may never make the test true. The model does not say what happens past the fuel. The commands are evaluated for their effect only, and evaluation has no effect on the store.
- Quasiquote, `eval`, `eval-proc`, `make-exception`, `raise`, `throw`, `error`, `abort`, `try` and `call/ec` in `control.c` are left out. They rely on the evaluator and on escape machinery that is not part of this model.
- `zip`, `map`, `map*`, `every` and `some` take at least one collection. With none, the source loops forever.
- The result-type keyword of `map` and `filter`, and the collection constructors, are left out. Results are sequences or lists.
- The generic collection iterators are Dafny sequences, and vectors and strings as collections are left out.
- The older `reduce` of `native.c` is the same code as the `reduce` primitive. `Primitives.Reduce` and `Primitives.ReduceSpec` model both.
- `dfsch_print_trace_buffer` and the environment and debugger primitives of `introspect.c` are left out, because they are printing and thin wrappers. The numeric values of the trace-point kinds are parameters, because their header is not part of this model.
- Native.DefineSpec requires that the first argument of `define` and `define-variable` names an environment of the store. The evaluator always passes one.
- Object-system, slot, vector, string and symbol primitives, and every `*_register` routine, are left out, along with `lib/` and the headers.

## Findings

| source | as written | input that shows it | evidently intended | confidence | as-written member | corrected member |
|---|---|---|---|---|---|---|
| src/hash.c:292 | unsetting the key at the head of a chain stores NULL in the bucket, dropping the whole chain | a table whose bucket 0 holds two entries, then unset of the first key | store the removed entry's `next` in the bucket, so the rest of the chain stays | not executed | ChainedHash.UnsetHeadAsWrittenLosesNext | ChainedHash.UnsetHeadKeepsNext |
| src/hash.c:389-411 | the chain walk of set_if_exists tests `h = i->hash && …`, an assignment, so a key whose hash is 0 is never found | any table that binds a key whose hash is 0, then set_if_exists on that key | compare `h == i->hash` as ref, set and unset do | not executed | ChainedHash.SetIfExistsAsWrittenMissesZeroHash | ChainedHash.SetIfExistsResult |
