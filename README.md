# A verified model of go-syncmap-cache's cache core

This project models `cache.go` of go-syncmap-cache. That file implements an in-memory key/value cache. Each entry holds an
object and an absolute expiry in Unix nanoseconds (0 means none). The cache also keeps a 32-bit item counter, a default
expiration and an optional eviction hook. The model covers:

- the expiration policy: `Item.Expired`, the separate check that the read paths write out inline, and the expiry that
  `Set` computes;
- every store operation: `Set`, `set`, `SetDefault`, `Add`, `Replace`, `Get`, `GetWithExpiration`, `get`, `Delete`,
  `delete`, `DeleteExpired`, `OnEvicted`, `Items`, `ItemCount`, `Flush`, `safeStore`, `safeDelete` and `newCache`;
- the integer `Increment`/`Decrement` family, generic and typed, with each Go integer type's wrap-around.

Layout:

- `wrappers.dfy` (module `Wrappers`): the error enumeration (`NotFound`, `AlreadyExists`, `TypeMismatch`), `Option`,
  `Result` and `Outcome`.
- `values.dfy` (module `Values`): the stored object. An integer is tagged with its Go type. The two float types are
  bare tags. Anything else is opaque. The module also holds the narrowing conversion `Wrap`, the typed arithmetic
  (`Combine`) and the generic type switch (`Shift`), with their round-trip lemmas.
- `expiration.dfy` (module `Expiration`): `Item`, the two expiry checks, `newCache`'s default normalisation and the expiry
  of a newly stored entry.
- `store.dfy` (module `Store`): value-level specifications over the key-to-entry map:
  - lookups (`Found`, `Updatable`);
  - the read-modify-write of the increment family (`Mutate`, `MutateGeneric`);
  - the sweep (`LiveEntries`, `ExpiredKeys`, `Swept`) and the hook calls it owes (`IsEvictionBatch`);
  - the counter's arithmetic modulo 2^32.
- `cache.dfy` (module `CacheCore`): class `Cache`, whose fields `items`, `counter`, `hooked` and `evictions` the methods
  update in place.
  - Every write goes through `SafeStore` or `SafeDelete`, as in the source.
  - Each method's postcondition states its new state in terms of the `Store` and `Expiration` functions.
  - The eviction hook is modelled by whether one is registered (`hooked`) and by the log of calls made to it
    (`evictions`).

The clock is a parameter `now` (Unix nanoseconds), read once per call. Durations and expiries are int64 values. A Go
`int`, `uint` and `uintptr` are taken to be 64 bits wide.

The model follows the code where its behaviour differs from what a reader of the cache's documentation might expect:

- `DeleteExpired` removes only entries whose expiry is strictly before `now` (`now > Expiration`). An entry whose expiry
  equals `now` stays. `ExpiryIsStrict` states this.
- `Delete` of an absent key decrements the counter whether or not a hook is registered (cache.go:960). This is not
  limited to the case without a hook.
- `Items` does not return a copy. See Findings.
- `Set` with a duration whose end passes the largest int64 stores a negative expiry. See Findings.

## Model

| member | source | states |
|---|---|---|
| Values.Wrap | cache.go:206-226 | Go's conversion `T(x)` and T's wrapping `+`/`-`: the result always lies in T's range, a value already in range is unchanged, and a value one turn (2^width) above or below the range comes back by exactly one turn |
| Values.WrapIsDetermined | cache.go:206-226 | at most one value of T's range lies within one turn of a given number, so the wrapped sums that the contracts describe are unique |
| Values.Combine | cache.go:274-285 | the typed forms' assertion `v.Object.(T)` and addition. It succeeds exactly on an integer object of type T. The result is an integer of type T, in range, exactly old ± delta whenever that does not overflow, and otherwise old ± delta taken once around T's range |
| Values.Shift | cache.go:204-234 | the generic type switch. It fails exactly on a non-numeric object. On an integer it is the typed operation applied to the delta narrowed to T (`T(n)`), so the object keeps its type, stays in range and is exactly old ± n when n fits T and the sum does not overflow; a float keeps its kind |
| Values.NarrowingExample | cache.go:206-226 | the generic Increment of an int8 object -100 by 200 narrows the delta to `int8(200)` = -56 and stores 100 |
| Values.WrapRoundTripAdd | cache.go:362-380 | in every integer type, subtracting b after adding b with wrap-around gives the original value |
| Values.WrapRoundTripSub | cache.go:739-757 | in every integer type, adding b after subtracting b with wrap-around gives the original value |
| Values.ApplyRoundTrip | cache.go:362-380 | an increment followed by a decrement of the same delta, or the reverse, is the identity on T's range |
| Values.CombineRoundTrip | cache.go:739-757 | a typed Increment then the typed Decrement of the same delta, or the reverse, restores an integer object |
| Values.ShiftRoundTrip | cache.go:571-615 | the generic Increment then the generic Decrement of the same int64, or the reverse, restores an integer object, whatever the narrowing |
| Values.GenericAgreesWithTyped | cache.go:204-234 | narrowing `int64(x)` back to T gives x, so the generic operation given `int64(x)` computes exactly what the typed one given x computes |
| Expiration.NormaliseDefault | cache.go:1066-1068 | a default of 0 becomes -1 (no expiry), any other default is kept, so the normalised default is never 0 |
| Expiration.Expired | cache.go:18-23 | `Item.Expired`: an expiry of 0 never expires, and an expired entry's expiry lies strictly before `now` |
| Expiration.ExpiredOnRead | cache.go:137-142 | the check the read paths write out inline (also cache.go:160-164, 183-187, 975, 1005-1006): an expiry that is not positive never fires, and whenever it fires `Item.Expired` does too |
| Expiration.Wrap64 | cache.go:61-67 | the int64 wrap of `time.Now().Add(d).UnixNano()`: a sum that fits is kept, a sum past the largest int64 comes out 2^64 lower and negative, one below the least int64 comes out 2^64 higher |
| Expiration.ExpirationFor | cache.go:61-67 | the expiry `Set`/`set` computes: 0 when the duration, after substituting the default for 0, is not positive; otherwise `now + d` with int64 wrap-around |
| Expiration.ClampedExpirationFor | cache.go:61-67 | the corrected expiry: 0 for a non-positive duration, otherwise after `now` or the largest int64, and equal to the code's expiry whenever `now + d` fits in int64 |
| Expiration.ExpiryIsStrict | cache.go:18-23 | under both checks an entry is live at the instant of its expiry, and once expired it stays expired at every later time |
| Expiration.ChecksAgree | cache.go:177-189 | the inline read check (`Expiration > 0 && now > Expiration`) and `Expired()` agree on every non-negative expiry |
| Expiration.NegativeExpiryQuirk | cache.go:18-23 | on a negative expiry, which a pre-populated map or a wrapped `now + d` gives, the read check never fires while `Expired()` does once `now` passes it |
| Expiration.NonPositiveDurationNeverExpires | cache.go:59-74 | when the duration, after substituting the default for 0, is not positive, the stored expiry is 0 and the entry never expires under either check |
| Expiration.DefaultZeroNeverExpires | cache.go:1065-1075 | in a cache created with default 0, an entry stored with the default duration never expires |
| Expiration.PositiveDurationExpiresAfter | cache.go:76-89 | a positive duration whose end fits in int64 gives expiry `now + d`; the entry reads as expired exactly at the times after that |
| Expiration.FreshEntryIsFound | cache.go:59-74 | whatever the duration, an entry just stored reads as present at the instant of storing, including when `now + d` wraps past the int64 range |
| Store.Mutate | cache.go:270-288 | the typed read-modify-write. NotFound exactly when the key is absent or `Expired()`. Otherwise success exactly when the object is an integer of type T, else TypeMismatch. On success the new object is an integer of type T, in range, exactly old ± delta when that does not overflow and otherwise old ± delta taken once around T's range, and the expiry is kept |
| Store.MutateGeneric | cache.go:196-238 | the generic read-modify-write. NotFound exactly when the key is absent or `Expired()`. Otherwise TypeMismatch exactly on a non-numeric object. On success the expiry is kept; on an integer the result is the typed `Mutate` applied to n narrowed to the object's type, so it keeps its type, stays in range and is exactly old ± n when n fits and the sum does not overflow; a float keeps its kind |
| Store.Inc32 | cache.go:47-50 | `counter.Inc()` on a uint32: +1, and the largest value wraps to 0 |
| Store.Dec32 | cache.go:51-54 | `counter.Dec()` on a uint32: -1, and 0 wraps to 2^32 - 1 |
| Store.Sub32 | cache.go:1024-1032 | n decrements in a row: `c - n` when n ≤ c, and `c - n + 2^32` when the counter passes 0 once |
| Store.WrappedExpiryDisagrees | cache.go:61-67 | as written, a positive duration whose end passes the largest int64 stores a negative expiry; from then on Get finds the entry, Increment and Decrement report NotFound, and no sweep removes it |
| Store.ClampedExpiryAgrees | cache.go:61-67 | with the corrected expiry and a non-negative `now`, the stored entry is found at once, and Get and the increment family agree on it at every time |
| Store.SweepRemovesExactlyExpired | cache.go:970-987 | the live entries are the map minus the expired keys, every found entry survives unchanged, no expired entry remains, and a second sweep at the same time removes nothing |
| Store.LiveIsRestOfExpired | cache.go:974-982 | removing the expired keys from the map leaves exactly the live entries |
| Store.TypedRoundTrip | cache.go:362-380 | a successful typed IncrementT followed by DecrementT of the same delta while the entry is unexpired, or the reverse, restores the entry, object and expiry |
| Store.GenericRoundTrip | cache.go:571-615 | a successful generic Increment followed by Decrement of the same int64 on an integer entry, or the reverse, restores the entry |
| Store.StoredEntryIsFound | cache.go:99-123 | right after `set` stores x under k, k is found holding x, so an Add of k at that instant fails and a Replace succeeds |
| Store.EvictionBatchMeans | cache.go:964-987 | an eviction batch calls the hook on exactly the removed keys, once per key, each time with the object the map held |
| Store.SweptStep | cache.go:974-982 | one visited key is removed, counted down and owed to the hook exactly when it is expired on the read check (and, for the hook, when one is registered) |
| CacheCore.Cache.constructor | cache.go:1065-1075 | `newCache`: the default 0 becomes -1, the map is the given one, the counter is 0 even when the map is pre-populated, and no hook is registered |
| CacheCore.Cache.SafeStore | cache.go:47-50 | stores the entry under the key and counts +1 modulo 2^32 |
| CacheCore.Cache.SafeDelete | cache.go:51-54 | removes the key and counts -1 modulo 2^32, whether or not the key was present |
| CacheCore.Cache.Set | cache.go:59-89 | `Set` and `set`, which have the same body: stores x under k with the computed expiry, replacing any entry, counts +1 even on an overwrite, and leaves k found holding x |
| CacheCore.Cache.SetDefault | cache.go:93-95 | Set with the default-expiration duration |
| CacheCore.Cache.Get | cache.go:127-189 | `Get` and `get` (cache.go:177-189), which have the same body: returns the object exactly when the key is present and not expired on the read check; changes nothing |
| CacheCore.Cache.GetWithExpiration | cache.go:151-175 | as Get, and it also returns the expiry exactly when the entry is found with a positive expiry; changes nothing |
| CacheCore.Cache.Add | cache.go:99-109 | AlreadyExists, with map and counter unchanged, exactly when a live entry holds the key; otherwise the same new state as `set` |
| CacheCore.Cache.Replace | cache.go:113-123 | NotFound, with map and counter unchanged, exactly when no live entry holds the key; otherwise the same new state as `set` |
| CacheCore.Cache.Increment | cache.go:196-238 | succeeds exactly when MutateGeneric with `+` does. On success it stores that entry under the key alone and counts +1; on failure it returns MutateGeneric's error and changes nothing |
| CacheCore.Cache.Decrement | cache.go:571-615 | the same with `-` |
| CacheCore.Cache.AdjustGeneric | cache.go:196-238 | the body shared by `Increment` and `Decrement` (cache.go:571-615): the new map, counter and error are those of `MutateGeneric`; on failure nothing changes |
| CacheCore.Cache.AdjustTyped | cache.go:270-288 | the body shared by the typed IncrementT and DecrementT: returns exactly `Mutate`'s result, stores its entry under the key alone and counts +1 on success, and changes nothing on failure |
| CacheCore.Cache.IncrementInt | cache.go:270-288 | NotFound when the key is absent or `Expired()`, TypeMismatch unless the object is exactly a int, both leaving map and counter unchanged; on success returns old + n wrapped to int, stores that value with the old expiry under the key alone, and counts +1 |
| CacheCore.Cache.IncrementInt8 | cache.go:293-311 | NotFound when the key is absent or `Expired()`, TypeMismatch unless the object is exactly a int8, both leaving map and counter unchanged; on success returns old + n wrapped to int8, stores that value with the old expiry under the key alone, and counts +1 |
| CacheCore.Cache.IncrementInt16 | cache.go:316-334 | NotFound when the key is absent or `Expired()`, TypeMismatch unless the object is exactly a int16, both leaving map and counter unchanged; on success returns old + n wrapped to int16, stores that value with the old expiry under the key alone, and counts +1 |
| CacheCore.Cache.IncrementInt32 | cache.go:339-357 | NotFound when the key is absent or `Expired()`, TypeMismatch unless the object is exactly a int32, both leaving map and counter unchanged; on success returns old + n wrapped to int32, stores that value with the old expiry under the key alone, and counts +1 |
| CacheCore.Cache.IncrementInt64 | cache.go:362-380 | NotFound when the key is absent or `Expired()`, TypeMismatch unless the object is exactly a int64, both leaving map and counter unchanged; on success returns old + n wrapped to int64, stores that value with the old expiry under the key alone, and counts +1 |
| CacheCore.Cache.IncrementUint | cache.go:385-403 | NotFound when the key is absent or `Expired()`, TypeMismatch unless the object is exactly a uint, both leaving map and counter unchanged; on success returns old + n wrapped to uint, stores that value with the old expiry under the key alone, and counts +1 |
| CacheCore.Cache.IncrementUintptr | cache.go:408-426 | NotFound when the key is absent or `Expired()`, TypeMismatch unless the object is exactly a uintptr, both leaving map and counter unchanged; on success returns old + n wrapped to uintptr, stores that value with the old expiry under the key alone, and counts +1 |
| CacheCore.Cache.IncrementUint8 | cache.go:431-449 | NotFound when the key is absent or `Expired()`, TypeMismatch unless the object is exactly a uint8, both leaving map and counter unchanged; on success returns old + n wrapped to uint8, stores that value with the old expiry under the key alone, and counts +1 |
| CacheCore.Cache.IncrementUint16 | cache.go:454-472 | NotFound when the key is absent or `Expired()`, TypeMismatch unless the object is exactly a uint16, both leaving map and counter unchanged; on success returns old + n wrapped to uint16, stores that value with the old expiry under the key alone, and counts +1 |
| CacheCore.Cache.IncrementUint32 | cache.go:477-495 | NotFound when the key is absent or `Expired()`, TypeMismatch unless the object is exactly a uint32, both leaving map and counter unchanged; on success returns old + n wrapped to uint32, stores that value with the old expiry under the key alone, and counts +1 |
| CacheCore.Cache.IncrementUint64 | cache.go:500-518 | NotFound when the key is absent or `Expired()`, TypeMismatch unless the object is exactly a uint64, both leaving map and counter unchanged; on success returns old + n wrapped to uint64, stores that value with the old expiry under the key alone, and counts +1 |
| CacheCore.Cache.DecrementInt | cache.go:647-665 | NotFound when the key is absent or `Expired()`, TypeMismatch unless the object is exactly a int, both leaving map and counter unchanged; on success returns old - n wrapped to int, stores that value with the old expiry under the key alone, and counts +1 |
| CacheCore.Cache.DecrementInt8 | cache.go:670-688 | NotFound when the key is absent or `Expired()`, TypeMismatch unless the object is exactly a int8, both leaving map and counter unchanged; on success returns old - n wrapped to int8, stores that value with the old expiry under the key alone, and counts +1 |
| CacheCore.Cache.DecrementInt16 | cache.go:693-711 | NotFound when the key is absent or `Expired()`, TypeMismatch unless the object is exactly a int16, both leaving map and counter unchanged; on success returns old - n wrapped to int16, stores that value with the old expiry under the key alone, and counts +1 |
| CacheCore.Cache.DecrementInt32 | cache.go:716-734 | NotFound when the key is absent or `Expired()`, TypeMismatch unless the object is exactly a int32, both leaving map and counter unchanged; on success returns old - n wrapped to int32, stores that value with the old expiry under the key alone, and counts +1 |
| CacheCore.Cache.DecrementInt64 | cache.go:739-757 | NotFound when the key is absent or `Expired()`, TypeMismatch unless the object is exactly a int64, both leaving map and counter unchanged; on success returns old - n wrapped to int64, stores that value with the old expiry under the key alone, and counts +1 |
| CacheCore.Cache.DecrementUint | cache.go:762-780 | NotFound when the key is absent or `Expired()`, TypeMismatch unless the object is exactly a uint, both leaving map and counter unchanged; on success returns old - n wrapped to uint, stores that value with the old expiry under the key alone, and counts +1 |
| CacheCore.Cache.DecrementUintptr | cache.go:785-803 | NotFound when the key is absent or `Expired()`, TypeMismatch unless the object is exactly a uintptr, both leaving map and counter unchanged; on success returns old - n wrapped to uintptr, stores that value with the old expiry under the key alone, and counts +1 |
| CacheCore.Cache.DecrementUint8 | cache.go:808-826 | NotFound when the key is absent or `Expired()`, TypeMismatch unless the object is exactly a uint8, both leaving map and counter unchanged; on success returns old - n wrapped to uint8, stores that value with the old expiry under the key alone, and counts +1 |
| CacheCore.Cache.DecrementUint16 | cache.go:831-849 | NotFound when the key is absent or `Expired()`, TypeMismatch unless the object is exactly a uint16, both leaving map and counter unchanged; on success returns old - n wrapped to uint16, stores that value with the old expiry under the key alone, and counts +1 |
| CacheCore.Cache.DecrementUint32 | cache.go:854-872 | NotFound when the key is absent or `Expired()`, TypeMismatch unless the object is exactly a uint32, both leaving map and counter unchanged; on success returns old - n wrapped to uint32, stores that value with the old expiry under the key alone, and counts +1 |
| CacheCore.Cache.DecrementUint64 | cache.go:877-895 | NotFound when the key is absent or `Expired()`, TypeMismatch unless the object is exactly a uint64, both leaving map and counter unchanged; on success returns old - n wrapped to uint64, stores that value with the old expiry under the key alone, and counts +1 |
| CacheCore.Cache.Remove | cache.go:953-962 | `delete`: always removes the key and counts -1. It hands back the object exactly when a hook is registered and the key was present |
| CacheCore.Cache.Delete | cache.go:944-951 | removes the key and counts -1 even when the key is absent. The hook log gains exactly `(k, old object)` when a hook is registered and the key was present, and is otherwise unchanged |
| CacheCore.Cache.DeleteExpired | cache.go:970-987 | the map becomes its live entries, and the counter goes down once per expired key. With a hook, the log gains after the scan exactly one call per removed key, with its object; without one, the log is unchanged |
| CacheCore.Cache.Sweep | cache.go:974-982 | the scan removes exactly the expired keys through `delete`, counting each, and collects their hook calls when a hook is registered |
| CacheCore.Cache.SweepKey | cache.go:975-980 | one key of the scan is removed and counted exactly when it is expired; its hook call is collected exactly when a hook is also registered |
| CacheCore.Cache.OnEvicted | cache.go:992-996 | registers or removes the hook |
| CacheCore.Cache.Items | cache.go:999-1015 | as written: panics exactly when some entry is live; otherwise returns an empty (nil) map |
| CacheCore.ItemsPanicsOnOneEntry | cache.go:999-1015 | a cache holding a single entry that never expires has a live entry, so Items panics on it |
| CacheCore.Cache.LiveSnapshot | cache.go:999-1015 | as documented: returns exactly the live entries, and changes nothing |
| CacheCore.Cache.ItemCount | cache.go:1019-1021 | returns the counter, which is not the map's size |
| CacheCore.CounterIsNotSize | cache.go:1019-1021 | two Sets of one key give an ItemCount of 2 while the map holds one key, and a Delete of a missing key on a new cache gives 2^32 - 1 |
| CacheCore.Cache.Flush | cache.go:1024-1032 | removes every key, counts -1 once per key, and leaves the hook log alone |

## Left out

- The janitor goroutine, its ticker and stop channel, and the finalizer (cache.go:1034-1063, 1077-1090): these are
  concurrency and garbage-collection plumbing. `New` and `NewFrom` only wrap `newCache` with them.
- `sync.Map` concurrency and the atomicity of the counter. The model is sequential, so the check-then-act races in `Add`,
  `Replace` and the increment family are not captured.
- Float arithmetic. `IncrementFloat`, `DecrementFloat`, `IncrementFloat32/64` and `DecrementFloat32/64` are not modelled.
  In the generic switches a float object is a bare tag: the operation succeeds, stores the entry again and counts +1,
  but the float's value is not tracked.
- `time.Now()`, `time.Time`/`time.Unix` conversion and the text of `fmt.Errorf` errors. The clock is the parameter
  `now`, an expiry is returned as raw nanoseconds (None for the zero `time.Time`), and errors are an enumeration.
- `Add` and `Replace` read the clock once in `get` and again in `set`. The model uses one `now` for both.
- The eviction hook's identity and behaviour. The model records only whether a hook is registered and the calls made
  to it. Calls into the hook cannot change the cache.
- The range over `sync.Map` visits keys in an unspecified order. The model visits them in an arbitrary order, and
  `DeleteExpired`'s postcondition states the log of hook calls as a batch in no particular order.
- Go's `int`, `uint` and `uintptr` are taken to be 64 bits wide. A 32-bit platform is not modelled.
- Values.Wrap: the contract fixes the result for every x within one turn (2^width) of T's range, which covers every
  sum or difference of two values of T. For an x further away, such as an int64 delta narrowed to int8, it states
  only that the result is in range, not that it is congruent to x modulo 2^width.
- Values.Shift, Store.MutateGeneric: the narrowed delta `T(n)` is stated as `Wrap(T, n)`; by the line above, its
  exact value is stated only when n lies within one turn of T's range.
- CacheCore.Cache.Items: when it returns without panicking, the model returns an empty map where Go returns a nil map.
  The two are indistinguishable to a reader of the map.

## Findings

| source | as written | input that shows it | evidently intended | confidence | as-written member | corrected member |
|---|---|---|---|---|---|---|
| cache.go:999-1015 | `Items` declares `var m map[string]Item` without `make` and writes live entries into it, so the first write to the nil map panics | any cache holding one unexpired entry, e.g. `"a"` holding the int 1 with no expiry (`CacheCore.ItemsPanicsOnOneEntry`) | return a copy of every unexpired entry, as the doc comment at cache.go:998 says | high, not executed | CacheCore.Cache.Items | CacheCore.Cache.LiveSnapshot |
| cache.go:61-67 | `e = time.Now().Add(d).UnixNano()` wraps in int64 when `now + d` passes the largest int64, so a long duration stores a negative expiry | a Set with a positive duration whose end passes the largest int64, e.g. `d = math.MaxInt64` at any `now` after 1970 (`Store.WrappedExpiryDisagrees`): Get keeps finding the entry, IncrementInt64 returns NotFound at once, and DeleteExpired never removes it | a long duration gives an entry that lives until the end of the int64 clock, seen alike by Get and by the increment family | medium, not executed; Go documents `UnixNano` past the year 2262 as undefined, and its implementation wraps | Store.WrappedExpiryDisagrees | Expiration.ClampedExpirationFor |
