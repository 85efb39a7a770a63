/** What the cache's operations do to its key-to-entry map and to its
    item counter, as functions of the old map, the key and the time: the
    lookups, the read-modify-write of Increment and Decrement, the sweep of
    expired entries, and the counter's 32-bit wrap-around. */
module Store {
  import opened Wrappers
  import opened Values
  import opened Expiration

  /** The cache's key-to-entry map. */
  type ItemMap = map<string, Item>

  /** The item counter, Go's uint32. */
  type Count32 = x: int | 0 <= x < 0x1_0000_0000

  /** `counter.Inc()`: +1, wrapping at 2^32. */
  function Inc32(c: Count32): (r: Count32)
    ensures c < 0xFFFF_FFFF ==> r == c + 1
    ensures c == 0xFFFF_FFFF ==> r == 0
  {
    (c + 1) % 0x1_0000_0000
  }

  /** `counter.Dec()`: -1, wrapping at 2^32. */
  function Dec32(c: Count32): (r: Count32)
    ensures c > 0 ==> r == c - 1
    ensures c == 0 ==> r == 0xFFFF_FFFF
  {
    (c - 1) % 0x1_0000_0000
  }

  /** n decrements in a row. */
  function Sub32(c: Count32, n: nat): (r: Count32)
    ensures n <= c ==> r == c - n
    ensures c < n <= c + 0x1_0000_0000 ==> r == c - n + 0x1_0000_0000
  {
    if n <= c + 0x1_0000_0000 then
      ModNear(c - n, 0x1_0000_0000);
      (c - n) % 0x1_0000_0000
    else
      (c - n) % 0x1_0000_0000
  }

  /** One more decrement after n is n + 1 decrements; none is the identity. */
  lemma Sub32Step(c: Count32, n: nat)
    ensures Sub32(c, 0) == c
    ensures Dec32(Sub32(c, n)) == Sub32(c, n + 1)
  {
    var m := 0x1_0000_0000;
    var q := (c - n) / m;
    assert c - n == q * m + Sub32(c, n);
    assert c - n - 1 == q * m + (Sub32(c, n) - 1);
    if Sub32(c, n) == 0 {
      assert c - n - 1 == (q - 1) * m + (m - 1);
    }
  }

  /** `get`'s `found` (and Get's): present, and not expired by the inline check. */
  predicate Found(items: ItemMap, k: string, now: Nanos) {
    k in items && !ExpiredOnRead(items[k], now)
  }

  /** What Increment and Decrement require: present and not `Expired()`. */
  predicate Updatable(items: ItemMap, k: string, now: Nanos) {
    k in items && !Expired(items[k], now)
  }

  /** The entry a typed IncrementT/DecrementT writes back, or its error: the
      key must be present and unexpired, and the object an integer of exactly
      type t; the new object is old ± delta in t's arithmetic and the expiry
      is the old one. */
  function Mutate(items: ItemMap, k: string, now: Nanos, t: IntType, delta: int, op: Op): (r: Result<Item>)
    ensures !Updatable(items, k, now) ==> r == Failure(NotFound)
    ensures Updatable(items, k, now) ==> (r.Success? <==> items[k].obj.Integer? && items[k].obj.t == t)
    ensures Updatable(items, k, now) && r.Failure? ==> r.error == TypeMismatch
    ensures r.Success? ==> r.value.expiration == items[k].expiration
    ensures r.Success? ==> r.value.obj.Integer? && r.value.obj.t == t && InRange(t, r.value.obj.n)
    ensures r.Success? && InRange(t, Exact(items[k].obj.n, delta, op)) ==>
              r.value.obj.n == Exact(items[k].obj.n, delta, op)
    ensures r.Success? && InRange(t, items[k].obj.n) && InRange(t, delta) ==>
              WithinOneWrap(t, Exact(items[k].obj.n, delta, op), r.value.obj.n)
  {
    if !Updatable(items, k, now) then Failure(NotFound)
    else match Combine(items[k].obj, t, delta, op)
      case None => Failure(TypeMismatch)
      case Some(v) => Success(Item(v, items[k].expiration))
  }

  /** The entry the generic Increment/Decrement writes back, or its error:
      the key must be present and unexpired, and the object an integer or a
      float; the expiry is the old one. */
  function MutateGeneric(items: ItemMap, k: string, now: Nanos, n: I64, op: Op): (r: Result<Item>)
    ensures !Updatable(items, k, now) ==> r == Failure(NotFound)
    ensures Updatable(items, k, now) ==> (r.Failure? <==> items[k].obj.Other?)
    ensures Updatable(items, k, now) && r.Failure? ==> r.error == TypeMismatch
    ensures r.Success? ==> r.value.expiration == items[k].expiration
    ensures r.Success? && items[k].obj.Integer? ==> r.value.obj.Integer? && r.value.obj.t == items[k].obj.t
    ensures r.Success? && items[k].obj.Integer? ==> InRange(items[k].obj.t, r.value.obj.n)
    ensures r.Success? && items[k].obj.Integer? && InRange(items[k].obj.t, n) &&
            InRange(items[k].obj.t, Exact(items[k].obj.n, n, op)) ==>
              r.value.obj.n == Exact(items[k].obj.n, n, op)
    ensures r.Success? && items[k].obj.Integer? ==>
              r == Mutate(items, k, now, items[k].obj.t, Wrap(items[k].obj.t, n), op)
    ensures r.Success? && !items[k].obj.Integer? ==> r.value.obj == items[k].obj
  {
    if !Updatable(items, k, now) then Failure(NotFound)
    else match Shift(items[k].obj, n, op)
      case None => Failure(TypeMismatch)
      case Some(v) => Success(Item(v, items[k].expiration))
  }

  /** The entries not expired by the inline check: what survives a sweep,
      and what Items is documented to copy. */
  function LiveEntries(items: ItemMap, now: Nanos): ItemMap {
    map k | k in items && !ExpiredOnRead(items[k], now) :: items[k]
  }

  /** The keys a sweep at `now` removes. */
  function ExpiredKeys(items: ItemMap, now: Nanos): set<string> {
    set k | k in items && ExpiredOnRead(items[k], now)
  }

  /** A sweep removes exactly the expired keys, keeps every other entry as it
      was, leaves nothing expired behind, and a second sweep at the same time
      removes nothing. */
  lemma SweepRemovesExactlyExpired(items: ItemMap, now: Nanos)
    ensures LiveEntries(items, now).Keys == items.Keys - ExpiredKeys(items, now)
    ensures forall k | Found(items, k, now) :: k in LiveEntries(items, now) && LiveEntries(items, now)[k] == items[k]
    ensures ExpiredKeys(LiveEntries(items, now), now) == {}
    ensures LiveEntries(LiveEntries(items, now), now) == LiveEntries(items, now)
  {
  }

  /** What a sweep leaves: the map without its expired keys is exactly the
      live entries. */
  lemma LiveIsRestOfExpired(items: ItemMap, now: Nanos)
    ensures items - ExpiredKeys(items, now) == LiveEntries(items, now)
  {
    assert (items - ExpiredKeys(items, now)).Keys == LiveEntries(items, now).Keys;
  }

  /** A typed Increment followed by the typed Decrement of the same delta (or
      the other way round), while the entry is still unexpired, restores the
      entry: object and expiry. */
  lemma TypedRoundTrip(items: ItemMap, k: string, now: Nanos, later: Nanos, t: IntType, delta: int, op: Op)
    requires Mutate(items, k, now, t, delta, op).Success?
    requires InRange(t, items[k].obj.n) && InRange(t, delta)
    requires !Expired(items[k], later)
    ensures Mutate(items[k := Mutate(items, k, now, t, delta, op).value], k, later, t, delta, Inverse(op))
            == Success(items[k])
  {
    CombineRoundTrip(items[k].obj, delta, op);
  }

  /** The same for the generic Increment and Decrement on an integer object. */
  lemma GenericRoundTrip(items: ItemMap, k: string, now: Nanos, later: Nanos, n: I64, op: Op)
    requires MutateGeneric(items, k, now, n, op).Success?
    requires items[k].obj.Integer? && InRange(items[k].obj.t, items[k].obj.n)
    requires !Expired(items[k], later)
    ensures MutateGeneric(items[k := MutateGeneric(items, k, now, n, op).value], k, later, n, Inverse(op))
            == Success(items[k])
  {
    ShiftRoundTrip(items[k].obj, n, op);
  }

  /** An entry just stored by Set is found at the instant it was stored, so
      an Add of the same key at that instant fails and a Replace succeeds. */
  lemma StoredEntryIsFound(items: ItemMap, k: string, x: Value, now: Nanos, d: Nanos, de: Nanos)
    ensures Found(items[k := Item(x, ExpirationFor(now, d, de))], k, now)
    ensures items[k := Item(x, ExpirationFor(now, d, de))][k].obj == x
  {
    FreshEntryIsFound(now, d, de, x);
  }

  /** One eviction-hook call. */
  datatype KeyAndValue = KeyAndValue(key: string, value: Value)

  function KeysOf(batch: seq<KeyAndValue>): set<string> {
    set e | e in batch :: e.key
  }

  /** The hook calls of one sweep: one per removed key, each with the key's
      object, in no particular order. Read from the last call backwards, each
      call names a key still owed and hands over that key's object. */
  ghost predicate IsEvictionBatch(batch: seq<KeyAndValue>, items: ItemMap, keys: set<string>)
    decreases |batch|
  {
    if batch == [] then keys == {}
    else
      var last := batch[|batch| - 1];
      && last.key in keys
      && last.key in items
      && last.value == items[last.key].obj
      && IsEvictionBatch(batch[..|batch| - 1], items, keys - {last.key})
  }

  /** An eviction batch calls the hook exactly on its keys, each key once,
      each time with the object the map held. */
  lemma {:induction false} EvictionBatchMeans(batch: seq<KeyAndValue>, items: ItemMap, keys: set<string>)
    requires IsEvictionBatch(batch, items, keys)
    ensures KeysOf(batch) == keys
    ensures forall i | 0 <= i < |batch| :: batch[i].key in items && batch[i].value == items[batch[i].key].obj
    ensures forall i, j | 0 <= i < j < |batch| :: batch[i].key != batch[j].key
    decreases |batch|
  {
    if batch != [] {
      var prefix, last := batch[..|batch| - 1], batch[|batch| - 1];
      EvictionBatchMeans(prefix, items, keys - {last.key});
      assert batch == prefix + [last];
      assert KeysOf(batch) == KeysOf(prefix) + {last.key} by {
        forall e | e in batch
          ensures e in prefix || e == last
        {
        }
        forall e | e in prefix
          ensures e in batch
        {
        }
      }
      forall i | 0 <= i < |prefix|
        ensures batch[i].key != last.key
      {
        assert prefix[i] in prefix;
      }
    }
  }

  /** Where a scan of DeleteExpired stands, with `pending` keys still to
      visit: the expired keys already visited are gone from the map, the
      counter is down by their number, and when a hook is registered the
      batch owes it exactly those keys. */
  ghost predicate Swept(items0: ItemMap, counter0: Count32, hook: bool, now: Nanos, pending: set<string>,
                        removed: set<string>, items: ItemMap, counter: Count32, batch: seq<KeyAndValue>)
  {
    && pending <= items0.Keys
    && removed == ExpiredKeys(items0, now) - pending
    && items == items0 - removed
    && counter == Sub32(counter0, |removed|)
    && (if hook then IsEvictionBatch(batch, items0, removed) else batch == [])
  }

  /** Before the scan nothing is removed. */
  lemma SweptStart(items0: ItemMap, counter0: Count32, hook: bool, now: Nanos)
    ensures Swept(items0, counter0, hook, now, items0.Keys, {}, items0, counter0, [])
  {
    Sub32Step(counter0, 0);
    assert items0 - {} == items0;
  }

  /** Visiting one more key: it is removed, counted and owed to the hook
      exactly when it is expired. */
  lemma {:induction false} SweptStep(items0: ItemMap, counter0: Count32, hook: bool, now: Nanos, pending: set<string>,
                                     removed: set<string>, items: ItemMap, counter: Count32, batch: seq<KeyAndValue>, k: string)
    requires Swept(items0, counter0, hook, now, pending, removed, items, counter, batch)
    requires k in pending
    ensures k in items
    ensures var gone := ExpiredOnRead(items[k], now);
            Swept(items0, counter0, hook, now, pending - {k},
                  if gone then removed + {k} else removed,
                  if gone then items - {k} else items,
                  if gone then Dec32(counter) else counter,
                  if gone && hook then batch + [KeyAndValue(k, items[k].obj)] else batch)
  {
    var expired := ExpiredKeys(items0, now);
    assert k !in removed;
    if ExpiredOnRead(items[k], now) {
      assert k in expired;
      assert removed + {k} == expired - (pending - {k});
      RemoveOneMore(items0, removed, k);
      Sub32Step(counter0, |removed|);
      if hook {
        BatchGrows(batch, items0, removed, k);
      }
    } else {
      assert removed == expired - (pending - {k});
    }
  }

  /** After the scan every expired key is removed. */
  lemma SweptDone(items0: ItemMap, counter0: Count32, hook: bool, now: Nanos,
                  removed: set<string>, items: ItemMap, counter: Count32, batch: seq<KeyAndValue>)
    requires Swept(items0, counter0, hook, now, {}, removed, items, counter, batch)
    ensures removed == ExpiredKeys(items0, now)
  {
  }

  /** Removing keys one at a time is removing them all at once. */
  lemma RemoveOneMore(items: ItemMap, removed: set<string>, k: string)
    ensures (items - removed) - {k} == items - (removed + {k})
  {
    assert ((items - removed) - {k}).Keys == (items - (removed + {k})).Keys;
  }

  /** One more removed key extends a batch by its one hook call. */
  lemma BatchGrows(batch: seq<KeyAndValue>, items: ItemMap, keys: set<string>, k: string)
    requires IsEvictionBatch(batch, items, keys)
    requires k in items && k !in keys
    ensures IsEvictionBatch(batch + [KeyAndValue(k, items[k].obj)], items, keys + {k})
  {
    var next := batch + [KeyAndValue(k, items[k].obj)];
    assert next[..|next| - 1] == batch;
    assert (keys + {k}) - {k} == keys;
  }

  /** As written, `set` with a positive duration whose end passes the largest
      int64 stores a negative expiry: from the instant it is stored, Get finds
      the entry while Increment and Decrement report it missing, and no sweep
      at any later time removes it. */
  lemma WrappedExpiryDisagrees(items: ItemMap, k: string, x: Value, now: Nanos, d: Nanos, de: Nanos, later: Nanos)
    requires (if d == DefaultExpiration then de else d) > 0
    requires now + (if d == DefaultExpiration then de else d) >= 0x8000_0000_0000_0000
    requires now <= later
    ensures ExpirationFor(now, d, de) < 0
    ensures Found(items[k := Item(x, ExpirationFor(now, d, de))], k, later)
    ensures !Updatable(items[k := Item(x, ExpirationFor(now, d, de))], k, later)
    ensures k !in ExpiredKeys(items[k := Item(x, ExpirationFor(now, d, de))], later)
  {
  }

  /** With the clamped expiry, Get and the increment family agree at every
      time from a non-negative storing instant on, and the entry is found
      when it is stored. */
  lemma ClampedExpiryAgrees(items: ItemMap, k: string, x: Value, now: Nanos, d: Nanos, de: Nanos, t: Nanos)
    requires now >= 0
    ensures Found(items[k := Item(x, ClampedExpirationFor(now, d, de))], k, now)
    ensures Found(items[k := Item(x, ClampedExpirationFor(now, d, de))], k, t) <==>
            Updatable(items[k := Item(x, ClampedExpirationFor(now, d, de))], k, t)
  {
    ChecksAgree(Item(x, ClampedExpirationFor(now, d, de)), t);
  }
}
