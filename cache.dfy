/** The cache object: its default expiration, its key-to-entry map, its
    32-bit item counter and its eviction hook. Every write to the map goes
    through SafeStore or SafeDelete, which also move the counter. The clock
    is the parameter `now`, read once per call; the hook is modelled by
    whether one is registered and by the log of the calls made to it. */
module CacheCore {
  import opened Wrappers
  import opened Values
  import opened Expiration
  import opened Store

  /** What Items returns as written: a nil-map write panics, so only a cache
      with no unexpired entry yields a (nil, empty) map. */
  datatype Snapshot = Panicked | Copied(entries: ItemMap)

  /** A cache holding one entry that never expires is enough to make Items
      panic: its live entries are not empty. */
  lemma ItemsPanicsOnOneEntry(now: Nanos)
    ensures LiveEntries(map["a" := Item(Integer(Int, 1), 0)], now) != map[]
  {
    assert "a" in LiveEntries(map["a" := Item(Integer(Int, 1), 0)], now);
  }

  /** The counter counts calls to SafeStore and SafeDelete, not keys:
      storing one key twice counts 2 while the map holds one key, and
      deleting a missing key from a new cache wraps the counter to
      2^32 - 1. */
  method CounterIsNotSize(x: Value, now: Nanos) returns (afterTwoSets: Count32, keys: nat, afterDelete: Count32)
    ensures afterTwoSets == 2 && keys == 1
    ensures afterDelete == 0xFFFF_FFFF
  {
    var c := new Cache(0, map[]);
    c.Set("a", x, 0, now);
    c.Set("a", x, 0, now);
    afterTwoSets := c.ItemCount();
    keys := |c.items.Keys|;
    var e := new Cache(0, map[]);
    e.Delete("a");
    afterDelete := e.ItemCount();
  }

  class Cache {
    const defaultExpiration: Nanos
    var items: ItemMap
    var counter: Count32
    /** Whether an eviction hook is registered. */
    var hooked: bool
    /** Every call made to the hook so far, oldest first. */
    var evictions: seq<KeyAndValue>

    /** `newCache`: a default of 0 becomes -1; the map may come pre-populated
        but the counter starts at 0 regardless. */
    constructor (de: Nanos, initial: ItemMap)
      ensures defaultExpiration == NormaliseDefault(de)
      ensures items == initial && counter == 0
      ensures !hooked && evictions == []
    {
      var d := de;
      if d == 0 {
        d := -1;
      }
      defaultExpiration := d;
      items := initial;
      counter := 0;
      hooked := false;
      evictions := [];
    }

    /** `safeStore`: store the entry and count one more item. */
    method SafeStore(k: string, item: Item)
      modifies this`items, this`counter
      ensures items == old(items)[k := item]
      ensures counter == Inc32(old(counter))
    {
      items := items[k := item];
      counter := Inc32(counter);
    }

    /** `safeDelete`: remove the key and count one item fewer, whether or not
        the key was there. */
    method SafeDelete(k: string)
      modifies this`items, this`counter
      ensures items == old(items) - {k}
      ensures counter == Dec32(old(counter))
    {
      items := items - {k};
      counter := Dec32(counter);
    }

    /** `Set` (and `set`): store x under k with the expiry the duration asks
        for, replacing any entry. */
    method Set(k: string, x: Value, d: Nanos, now: Nanos)
      modifies this`items, this`counter
      ensures items == old(items)[k := Item(x, ExpirationFor(now, d, defaultExpiration))]
      ensures counter == Inc32(old(counter))
      ensures Found(items, k, now) && items[k].obj == x
    {
      var duration := d;
      var e: Nanos := 0;
      if duration == DefaultExpiration {
        duration := defaultExpiration;
      }
      if duration > 0 {
        e := Wrap64(now + duration);
      }
      SafeStore(k, Item(x, e));
      StoredEntryIsFound(old(items), k, x, now, d, defaultExpiration);
    }

    /** `SetDefault`: Set with the cache's default expiration. */
    method SetDefault(k: string, x: Value, now: Nanos)
      modifies this`items, this`counter
      ensures items == old(items)[k := Item(x, ExpirationFor(now, DefaultExpiration, defaultExpiration))]
      ensures counter == Inc32(old(counter))
    {
      Set(k, x, DefaultExpiration, now);
    }

    /** `Get` (and `get`): the object, if the key is present and not expired
        by the inline check. */
    method Get(k: string, now: Nanos) returns (r: Option<Value>)
      ensures r.Some? <==> Found(items, k, now)
      ensures r.Some? ==> r.value == items[k].obj
    {
      if k !in items {
        return None;
      }
      var item := items[k];
      if item.expiration > 0 {
        if now > item.expiration {
          return None;
        }
      }
      return Some(item.obj);
    }

    /** `GetWithExpiration`: as Get, plus the expiry when it is positive (the
        zero time.Time otherwise, modelled as None). */
    method GetWithExpiration(k: string, now: Nanos) returns (r: Option<Value>, expiresAt: Option<Nanos>)
      ensures r.Some? <==> Found(items, k, now)
      ensures r.Some? ==> r.value == items[k].obj
      ensures expiresAt.Some? <==> Found(items, k, now) && items[k].expiration > 0
      ensures expiresAt.Some? ==> expiresAt.value == items[k].expiration
    {
      if k !in items {
        return None, None;
      }
      var item := items[k];
      if item.expiration > 0 {
        if now > item.expiration {
          return None, None;
        }
        return Some(item.obj), Some(item.expiration);
      }
      return Some(item.obj), None;
    }

    /** `Add`: store only when no unexpired entry holds the key. */
    method Add(k: string, x: Value, d: Nanos, now: Nanos) returns (r: Outcome)
      modifies this`items, this`counter
      ensures r.Fail? <==> Found(old(items), k, now)
      ensures r.Fail? ==> r.error == AlreadyExists && items == old(items) && counter == old(counter)
      ensures r.Pass? ==> items == old(items)[k := Item(x, ExpirationFor(now, d, defaultExpiration))]
      ensures r.Pass? ==> counter == Inc32(old(counter))
    {
      var found := Get(k, now);
      if found.Some? {
        return Fail(AlreadyExists);
      }
      Set(k, x, d, now);
      return Pass;
    }

    /** `Replace`: store only when an unexpired entry holds the key. */
    method Replace(k: string, x: Value, d: Nanos, now: Nanos) returns (r: Outcome)
      modifies this`items, this`counter
      ensures r.Fail? <==> !Found(old(items), k, now)
      ensures r.Fail? ==> r.error == NotFound && items == old(items) && counter == old(counter)
      ensures r.Pass? ==> items == old(items)[k := Item(x, ExpirationFor(now, d, defaultExpiration))]
      ensures r.Pass? ==> counter == Inc32(old(counter))
    {
      var found := Get(k, now);
      if found.None? {
        return Fail(NotFound);
      }
      Set(k, x, d, now);
      return Pass;
    }

    /** The state after a read-modify-write whose outcome is res: on success
        the new entry is stored through SafeStore; on failure nothing changes. */
    ghost predicate Committed(items0: ItemMap, counter0: Count32, k: string, res: Result<Item>)
      reads this
    {
      match res
      case Success(item) => items == items0[k := item] && counter == Inc32(counter0)
      case Failure(_) => items == items0 && counter == counter0
    }

    /** `Increment`: add n to an integer or float object, narrowing n to the
        object's type. */
    method Increment(k: string, n: I64, now: Nanos) returns (r: Outcome)
      modifies this`items, this`counter
      ensures Committed(old(items), old(counter), k, MutateGeneric(old(items), k, now, n, Plus))
      ensures r.Pass? <==> MutateGeneric(old(items), k, now, n, Plus).Success?
      ensures r.Fail? ==> r.error == MutateGeneric(old(items), k, now, n, Plus).error
    {
      r := AdjustGeneric(k, n, Plus, now);
    }

    /** `Decrement`: subtract n likewise. */
    method Decrement(k: string, n: I64, now: Nanos) returns (r: Outcome)
      modifies this`items, this`counter
      ensures Committed(old(items), old(counter), k, MutateGeneric(old(items), k, now, n, Minus))
      ensures r.Pass? <==> MutateGeneric(old(items), k, now, n, Minus).Success?
      ensures r.Fail? ==> r.error == MutateGeneric(old(items), k, now, n, Minus).error
    {
      r := AdjustGeneric(k, n, Minus, now);
    }

    /** The body shared by Increment and Decrement. */
    method AdjustGeneric(k: string, n: I64, op: Op, now: Nanos) returns (r: Outcome)
      modifies this`items, this`counter
      ensures Committed(old(items), old(counter), k, MutateGeneric(old(items), k, now, n, op))
      ensures r.Pass? <==> MutateGeneric(old(items), k, now, n, op).Success?
      ensures r.Fail? ==> r.error == MutateGeneric(old(items), k, now, n, op).error
    {
      if k !in items || Expired(items[k], now) {
        return Fail(NotFound);
      }
      var v := items[k];
      var next := Shift(v.obj, n, op);
      if next.None? {
        return Fail(TypeMismatch);
      }
      SafeStore(k, Item(next.value, v.expiration));
      return Pass;
    }

    /** The body shared by the typed IncrementT and DecrementT. */
    method AdjustTyped(k: string, t: IntType, delta: int, op: Op, now: Nanos) returns (r: Result<Item>)
      modifies this`items, this`counter
      ensures r == Mutate(old(items), k, now, t, delta, op)
      ensures Committed(old(items), old(counter), k, r)
    {
      if k !in items || Expired(items[k], now) {
        return Failure(NotFound);
      }
      var v := items[k];
      if !(v.obj.Integer? && v.obj.t == t) {
        return Failure(TypeMismatch);
      }
      var nv := Apply(t, v.obj.n, delta, op);
      r := Success(Item(Integer(t, nv), v.expiration));
      SafeStore(k, r.value);
    }

    // IncrementT for each integer type T: the stored object must be exactly a T.

    /** `IncrementInt`: the new int value, old + n wrapping. */
    method IncrementInt(k: string, n: I64, now: Nanos) returns (r: Result<I64>)
      modifies this`items, this`counter
      ensures Committed(old(items), old(counter), k, Mutate(old(items), k, now, Int, n, Plus))
      ensures r.Success? <==> Mutate(old(items), k, now, Int, n, Plus).Success?
      ensures r.Failure? ==> r.error == Mutate(old(items), k, now, Int, n, Plus).error
      ensures r.Success? ==> r.value == Apply(Int, old(items)[k].obj.n, n, Plus) && items[k].obj == Integer(Int, r.value)
    {
      var res := AdjustTyped(k, Int, n, Plus, now);
      if res.Failure? {
        return Failure(res.error);
      }
      var nv: I64 := res.value.obj.n;
      return Success(nv);
    }

    /** `IncrementInt8`: the new int8 value, old + n wrapping. */
    method IncrementInt8(k: string, n: I8, now: Nanos) returns (r: Result<I8>)
      modifies this`items, this`counter
      ensures Committed(old(items), old(counter), k, Mutate(old(items), k, now, Int8, n, Plus))
      ensures r.Success? <==> Mutate(old(items), k, now, Int8, n, Plus).Success?
      ensures r.Failure? ==> r.error == Mutate(old(items), k, now, Int8, n, Plus).error
      ensures r.Success? ==> r.value == Apply(Int8, old(items)[k].obj.n, n, Plus) && items[k].obj == Integer(Int8, r.value)
    {
      var res := AdjustTyped(k, Int8, n, Plus, now);
      if res.Failure? {
        return Failure(res.error);
      }
      var nv: I8 := res.value.obj.n;
      return Success(nv);
    }

    /** `IncrementInt16`: the new int16 value, old + n wrapping. */
    method IncrementInt16(k: string, n: I16, now: Nanos) returns (r: Result<I16>)
      modifies this`items, this`counter
      ensures Committed(old(items), old(counter), k, Mutate(old(items), k, now, Int16, n, Plus))
      ensures r.Success? <==> Mutate(old(items), k, now, Int16, n, Plus).Success?
      ensures r.Failure? ==> r.error == Mutate(old(items), k, now, Int16, n, Plus).error
      ensures r.Success? ==> r.value == Apply(Int16, old(items)[k].obj.n, n, Plus) && items[k].obj == Integer(Int16, r.value)
    {
      var res := AdjustTyped(k, Int16, n, Plus, now);
      if res.Failure? {
        return Failure(res.error);
      }
      var nv: I16 := res.value.obj.n;
      return Success(nv);
    }

    /** `IncrementInt32`: the new int32 value, old + n wrapping. */
    method IncrementInt32(k: string, n: I32, now: Nanos) returns (r: Result<I32>)
      modifies this`items, this`counter
      ensures Committed(old(items), old(counter), k, Mutate(old(items), k, now, Int32, n, Plus))
      ensures r.Success? <==> Mutate(old(items), k, now, Int32, n, Plus).Success?
      ensures r.Failure? ==> r.error == Mutate(old(items), k, now, Int32, n, Plus).error
      ensures r.Success? ==> r.value == Apply(Int32, old(items)[k].obj.n, n, Plus) && items[k].obj == Integer(Int32, r.value)
    {
      var res := AdjustTyped(k, Int32, n, Plus, now);
      if res.Failure? {
        return Failure(res.error);
      }
      var nv: I32 := res.value.obj.n;
      return Success(nv);
    }

    /** `IncrementInt64`: the new int64 value, old + n wrapping. */
    method IncrementInt64(k: string, n: I64, now: Nanos) returns (r: Result<I64>)
      modifies this`items, this`counter
      ensures Committed(old(items), old(counter), k, Mutate(old(items), k, now, Int64, n, Plus))
      ensures r.Success? <==> Mutate(old(items), k, now, Int64, n, Plus).Success?
      ensures r.Failure? ==> r.error == Mutate(old(items), k, now, Int64, n, Plus).error
      ensures r.Success? ==> r.value == Apply(Int64, old(items)[k].obj.n, n, Plus) && items[k].obj == Integer(Int64, r.value)
    {
      var res := AdjustTyped(k, Int64, n, Plus, now);
      if res.Failure? {
        return Failure(res.error);
      }
      var nv: I64 := res.value.obj.n;
      return Success(nv);
    }

    /** `IncrementUint`: the new uint value, old + n wrapping. */
    method IncrementUint(k: string, n: U64, now: Nanos) returns (r: Result<U64>)
      modifies this`items, this`counter
      ensures Committed(old(items), old(counter), k, Mutate(old(items), k, now, Uint, n, Plus))
      ensures r.Success? <==> Mutate(old(items), k, now, Uint, n, Plus).Success?
      ensures r.Failure? ==> r.error == Mutate(old(items), k, now, Uint, n, Plus).error
      ensures r.Success? ==> r.value == Apply(Uint, old(items)[k].obj.n, n, Plus) && items[k].obj == Integer(Uint, r.value)
    {
      var res := AdjustTyped(k, Uint, n, Plus, now);
      if res.Failure? {
        return Failure(res.error);
      }
      var nv: U64 := res.value.obj.n;
      return Success(nv);
    }

    /** `IncrementUintptr`: the new uintptr value, old + n wrapping. */
    method IncrementUintptr(k: string, n: U64, now: Nanos) returns (r: Result<U64>)
      modifies this`items, this`counter
      ensures Committed(old(items), old(counter), k, Mutate(old(items), k, now, Uintptr, n, Plus))
      ensures r.Success? <==> Mutate(old(items), k, now, Uintptr, n, Plus).Success?
      ensures r.Failure? ==> r.error == Mutate(old(items), k, now, Uintptr, n, Plus).error
      ensures r.Success? ==> r.value == Apply(Uintptr, old(items)[k].obj.n, n, Plus) && items[k].obj == Integer(Uintptr, r.value)
    {
      var res := AdjustTyped(k, Uintptr, n, Plus, now);
      if res.Failure? {
        return Failure(res.error);
      }
      var nv: U64 := res.value.obj.n;
      return Success(nv);
    }

    /** `IncrementUint8`: the new uint8 value, old + n wrapping. */
    method IncrementUint8(k: string, n: U8, now: Nanos) returns (r: Result<U8>)
      modifies this`items, this`counter
      ensures Committed(old(items), old(counter), k, Mutate(old(items), k, now, Uint8, n, Plus))
      ensures r.Success? <==> Mutate(old(items), k, now, Uint8, n, Plus).Success?
      ensures r.Failure? ==> r.error == Mutate(old(items), k, now, Uint8, n, Plus).error
      ensures r.Success? ==> r.value == Apply(Uint8, old(items)[k].obj.n, n, Plus) && items[k].obj == Integer(Uint8, r.value)
    {
      var res := AdjustTyped(k, Uint8, n, Plus, now);
      if res.Failure? {
        return Failure(res.error);
      }
      var nv: U8 := res.value.obj.n;
      return Success(nv);
    }

    /** `IncrementUint16`: the new uint16 value, old + n wrapping. */
    method IncrementUint16(k: string, n: U16, now: Nanos) returns (r: Result<U16>)
      modifies this`items, this`counter
      ensures Committed(old(items), old(counter), k, Mutate(old(items), k, now, Uint16, n, Plus))
      ensures r.Success? <==> Mutate(old(items), k, now, Uint16, n, Plus).Success?
      ensures r.Failure? ==> r.error == Mutate(old(items), k, now, Uint16, n, Plus).error
      ensures r.Success? ==> r.value == Apply(Uint16, old(items)[k].obj.n, n, Plus) && items[k].obj == Integer(Uint16, r.value)
    {
      var res := AdjustTyped(k, Uint16, n, Plus, now);
      if res.Failure? {
        return Failure(res.error);
      }
      var nv: U16 := res.value.obj.n;
      return Success(nv);
    }

    /** `IncrementUint32`: the new uint32 value, old + n wrapping. */
    method IncrementUint32(k: string, n: U32, now: Nanos) returns (r: Result<U32>)
      modifies this`items, this`counter
      ensures Committed(old(items), old(counter), k, Mutate(old(items), k, now, Uint32, n, Plus))
      ensures r.Success? <==> Mutate(old(items), k, now, Uint32, n, Plus).Success?
      ensures r.Failure? ==> r.error == Mutate(old(items), k, now, Uint32, n, Plus).error
      ensures r.Success? ==> r.value == Apply(Uint32, old(items)[k].obj.n, n, Plus) && items[k].obj == Integer(Uint32, r.value)
    {
      var res := AdjustTyped(k, Uint32, n, Plus, now);
      if res.Failure? {
        return Failure(res.error);
      }
      var nv: U32 := res.value.obj.n;
      return Success(nv);
    }

    /** `IncrementUint64`: the new uint64 value, old + n wrapping. */
    method IncrementUint64(k: string, n: U64, now: Nanos) returns (r: Result<U64>)
      modifies this`items, this`counter
      ensures Committed(old(items), old(counter), k, Mutate(old(items), k, now, Uint64, n, Plus))
      ensures r.Success? <==> Mutate(old(items), k, now, Uint64, n, Plus).Success?
      ensures r.Failure? ==> r.error == Mutate(old(items), k, now, Uint64, n, Plus).error
      ensures r.Success? ==> r.value == Apply(Uint64, old(items)[k].obj.n, n, Plus) && items[k].obj == Integer(Uint64, r.value)
    {
      var res := AdjustTyped(k, Uint64, n, Plus, now);
      if res.Failure? {
        return Failure(res.error);
      }
      var nv: U64 := res.value.obj.n;
      return Success(nv);
    }
    // DecrementT for each integer type T: the stored object must be exactly a T.

    /** `DecrementInt`: the new int value, old - n wrapping. */
    method DecrementInt(k: string, n: I64, now: Nanos) returns (r: Result<I64>)
      modifies this`items, this`counter
      ensures Committed(old(items), old(counter), k, Mutate(old(items), k, now, Int, n, Minus))
      ensures r.Success? <==> Mutate(old(items), k, now, Int, n, Minus).Success?
      ensures r.Failure? ==> r.error == Mutate(old(items), k, now, Int, n, Minus).error
      ensures r.Success? ==> r.value == Apply(Int, old(items)[k].obj.n, n, Minus) && items[k].obj == Integer(Int, r.value)
    {
      var res := AdjustTyped(k, Int, n, Minus, now);
      if res.Failure? {
        return Failure(res.error);
      }
      var nv: I64 := res.value.obj.n;
      return Success(nv);
    }

    /** `DecrementInt8`: the new int8 value, old - n wrapping. */
    method DecrementInt8(k: string, n: I8, now: Nanos) returns (r: Result<I8>)
      modifies this`items, this`counter
      ensures Committed(old(items), old(counter), k, Mutate(old(items), k, now, Int8, n, Minus))
      ensures r.Success? <==> Mutate(old(items), k, now, Int8, n, Minus).Success?
      ensures r.Failure? ==> r.error == Mutate(old(items), k, now, Int8, n, Minus).error
      ensures r.Success? ==> r.value == Apply(Int8, old(items)[k].obj.n, n, Minus) && items[k].obj == Integer(Int8, r.value)
    {
      var res := AdjustTyped(k, Int8, n, Minus, now);
      if res.Failure? {
        return Failure(res.error);
      }
      var nv: I8 := res.value.obj.n;
      return Success(nv);
    }

    /** `DecrementInt16`: the new int16 value, old - n wrapping. */
    method DecrementInt16(k: string, n: I16, now: Nanos) returns (r: Result<I16>)
      modifies this`items, this`counter
      ensures Committed(old(items), old(counter), k, Mutate(old(items), k, now, Int16, n, Minus))
      ensures r.Success? <==> Mutate(old(items), k, now, Int16, n, Minus).Success?
      ensures r.Failure? ==> r.error == Mutate(old(items), k, now, Int16, n, Minus).error
      ensures r.Success? ==> r.value == Apply(Int16, old(items)[k].obj.n, n, Minus) && items[k].obj == Integer(Int16, r.value)
    {
      var res := AdjustTyped(k, Int16, n, Minus, now);
      if res.Failure? {
        return Failure(res.error);
      }
      var nv: I16 := res.value.obj.n;
      return Success(nv);
    }

    /** `DecrementInt32`: the new int32 value, old - n wrapping. */
    method DecrementInt32(k: string, n: I32, now: Nanos) returns (r: Result<I32>)
      modifies this`items, this`counter
      ensures Committed(old(items), old(counter), k, Mutate(old(items), k, now, Int32, n, Minus))
      ensures r.Success? <==> Mutate(old(items), k, now, Int32, n, Minus).Success?
      ensures r.Failure? ==> r.error == Mutate(old(items), k, now, Int32, n, Minus).error
      ensures r.Success? ==> r.value == Apply(Int32, old(items)[k].obj.n, n, Minus) && items[k].obj == Integer(Int32, r.value)
    {
      var res := AdjustTyped(k, Int32, n, Minus, now);
      if res.Failure? {
        return Failure(res.error);
      }
      var nv: I32 := res.value.obj.n;
      return Success(nv);
    }

    /** `DecrementInt64`: the new int64 value, old - n wrapping. */
    method DecrementInt64(k: string, n: I64, now: Nanos) returns (r: Result<I64>)
      modifies this`items, this`counter
      ensures Committed(old(items), old(counter), k, Mutate(old(items), k, now, Int64, n, Minus))
      ensures r.Success? <==> Mutate(old(items), k, now, Int64, n, Minus).Success?
      ensures r.Failure? ==> r.error == Mutate(old(items), k, now, Int64, n, Minus).error
      ensures r.Success? ==> r.value == Apply(Int64, old(items)[k].obj.n, n, Minus) && items[k].obj == Integer(Int64, r.value)
    {
      var res := AdjustTyped(k, Int64, n, Minus, now);
      if res.Failure? {
        return Failure(res.error);
      }
      var nv: I64 := res.value.obj.n;
      return Success(nv);
    }

    /** `DecrementUint`: the new uint value, old - n wrapping. */
    method DecrementUint(k: string, n: U64, now: Nanos) returns (r: Result<U64>)
      modifies this`items, this`counter
      ensures Committed(old(items), old(counter), k, Mutate(old(items), k, now, Uint, n, Minus))
      ensures r.Success? <==> Mutate(old(items), k, now, Uint, n, Minus).Success?
      ensures r.Failure? ==> r.error == Mutate(old(items), k, now, Uint, n, Minus).error
      ensures r.Success? ==> r.value == Apply(Uint, old(items)[k].obj.n, n, Minus) && items[k].obj == Integer(Uint, r.value)
    {
      var res := AdjustTyped(k, Uint, n, Minus, now);
      if res.Failure? {
        return Failure(res.error);
      }
      var nv: U64 := res.value.obj.n;
      return Success(nv);
    }

    /** `DecrementUintptr`: the new uintptr value, old - n wrapping. */
    method DecrementUintptr(k: string, n: U64, now: Nanos) returns (r: Result<U64>)
      modifies this`items, this`counter
      ensures Committed(old(items), old(counter), k, Mutate(old(items), k, now, Uintptr, n, Minus))
      ensures r.Success? <==> Mutate(old(items), k, now, Uintptr, n, Minus).Success?
      ensures r.Failure? ==> r.error == Mutate(old(items), k, now, Uintptr, n, Minus).error
      ensures r.Success? ==> r.value == Apply(Uintptr, old(items)[k].obj.n, n, Minus) && items[k].obj == Integer(Uintptr, r.value)
    {
      var res := AdjustTyped(k, Uintptr, n, Minus, now);
      if res.Failure? {
        return Failure(res.error);
      }
      var nv: U64 := res.value.obj.n;
      return Success(nv);
    }

    /** `DecrementUint8`: the new uint8 value, old - n wrapping. */
    method DecrementUint8(k: string, n: U8, now: Nanos) returns (r: Result<U8>)
      modifies this`items, this`counter
      ensures Committed(old(items), old(counter), k, Mutate(old(items), k, now, Uint8, n, Minus))
      ensures r.Success? <==> Mutate(old(items), k, now, Uint8, n, Minus).Success?
      ensures r.Failure? ==> r.error == Mutate(old(items), k, now, Uint8, n, Minus).error
      ensures r.Success? ==> r.value == Apply(Uint8, old(items)[k].obj.n, n, Minus) && items[k].obj == Integer(Uint8, r.value)
    {
      var res := AdjustTyped(k, Uint8, n, Minus, now);
      if res.Failure? {
        return Failure(res.error);
      }
      var nv: U8 := res.value.obj.n;
      return Success(nv);
    }

    /** `DecrementUint16`: the new uint16 value, old - n wrapping. */
    method DecrementUint16(k: string, n: U16, now: Nanos) returns (r: Result<U16>)
      modifies this`items, this`counter
      ensures Committed(old(items), old(counter), k, Mutate(old(items), k, now, Uint16, n, Minus))
      ensures r.Success? <==> Mutate(old(items), k, now, Uint16, n, Minus).Success?
      ensures r.Failure? ==> r.error == Mutate(old(items), k, now, Uint16, n, Minus).error
      ensures r.Success? ==> r.value == Apply(Uint16, old(items)[k].obj.n, n, Minus) && items[k].obj == Integer(Uint16, r.value)
    {
      var res := AdjustTyped(k, Uint16, n, Minus, now);
      if res.Failure? {
        return Failure(res.error);
      }
      var nv: U16 := res.value.obj.n;
      return Success(nv);
    }

    /** `DecrementUint32`: the new uint32 value, old - n wrapping. */
    method DecrementUint32(k: string, n: U32, now: Nanos) returns (r: Result<U32>)
      modifies this`items, this`counter
      ensures Committed(old(items), old(counter), k, Mutate(old(items), k, now, Uint32, n, Minus))
      ensures r.Success? <==> Mutate(old(items), k, now, Uint32, n, Minus).Success?
      ensures r.Failure? ==> r.error == Mutate(old(items), k, now, Uint32, n, Minus).error
      ensures r.Success? ==> r.value == Apply(Uint32, old(items)[k].obj.n, n, Minus) && items[k].obj == Integer(Uint32, r.value)
    {
      var res := AdjustTyped(k, Uint32, n, Minus, now);
      if res.Failure? {
        return Failure(res.error);
      }
      var nv: U32 := res.value.obj.n;
      return Success(nv);
    }

    /** `DecrementUint64`: the new uint64 value, old - n wrapping. */
    method DecrementUint64(k: string, n: U64, now: Nanos) returns (r: Result<U64>)
      modifies this`items, this`counter
      ensures Committed(old(items), old(counter), k, Mutate(old(items), k, now, Uint64, n, Minus))
      ensures r.Success? <==> Mutate(old(items), k, now, Uint64, n, Minus).Success?
      ensures r.Failure? ==> r.error == Mutate(old(items), k, now, Uint64, n, Minus).error
      ensures r.Success? ==> r.value == Apply(Uint64, old(items)[k].obj.n, n, Minus) && items[k].obj == Integer(Uint64, r.value)
    {
      var res := AdjustTyped(k, Uint64, n, Minus, now);
      if res.Failure? {
        return Failure(res.error);
      }
      var nv: U64 := res.value.obj.n;
      return Success(nv);
    }

    /** `delete`: always SafeDelete; the object is handed back for the hook
        only when a hook is registered and the key was present. */
    method Remove(k: string) returns (evicted: Option<Value>)
      modifies this`items, this`counter
      ensures items == old(items) - {k}
      ensures counter == Dec32(old(counter))
      ensures evicted.Some? <==> hooked && k in old(items)
      ensures evicted.Some? ==> evicted.value == old(items)[k].obj
    {
      if hooked {
        if k in items {
          var v := items[k];
          SafeDelete(k);
          return Some(v.obj);
        }
      }
      SafeDelete(k);
      return None;
    }

    /** `Delete`: remove the key, then call the hook on what was evicted. */
    method Delete(k: string)
      modifies this`items, this`counter, this`evictions
      ensures items == old(items) - {k}
      ensures counter == Dec32(old(counter))
      ensures evictions == if hooked && k in old(items)
                           then old(evictions) + [KeyAndValue(k, old(items)[k].obj)]
                           else old(evictions)
    {
      var v := Remove(k);
      if v.Some? {
        evictions := evictions + [KeyAndValue(k, v.value)];
      }
    }

    /** `DeleteExpired`: one scan removes every entry expired at `now` through
        `delete`, collecting what the hook is owed; the hook is called after
        the scan, once per removed key. */
    method DeleteExpired(now: Nanos)
      modifies this`items, this`counter, this`evictions
      ensures items == LiveEntries(old(items), now)
      ensures counter == Sub32(old(counter), |ExpiredKeys(old(items), now)|)
      ensures !hooked ==> evictions == old(evictions)
      ensures hooked ==> |old(evictions)| <= |evictions| && evictions[..|old(evictions)|] == old(evictions)
      ensures hooked ==> IsEvictionBatch(evictions[|old(evictions)|..], old(items), ExpiredKeys(old(items), now))
    {
      var evictedItems := Sweep(now);
      var i := 0;
      while i < |evictedItems|
        invariant 0 <= i <= |evictedItems|
        invariant evictions == old(evictions) + evictedItems[..i]
        modifies this`evictions
      {
        evictions := evictions + [evictedItems[i]];
        i := i + 1;
      }
      assert evictedItems[..i] == evictedItems;
      assert evictions[|old(evictions)|..] == evictedItems;
      LiveIsRestOfExpired(old(items), now);
    }

    /** The scan of DeleteExpired: `delete` on each key expired at `now`. */
    method Sweep(now: Nanos) returns (evictedItems: seq<KeyAndValue>)
      modifies this`items, this`counter
      ensures items == old(items) - ExpiredKeys(old(items), now)
      ensures counter == Sub32(old(counter), |ExpiredKeys(old(items), now)|)
      ensures hooked ==> IsEvictionBatch(evictedItems, old(items), ExpiredKeys(old(items), now))
      ensures !hooked ==> evictedItems == []
    {
      evictedItems := [];
      ghost var removed: set<string> := {};
      var pending := items.Keys;
      SweptStart(items, counter, hooked, now);
      while pending != {}
        invariant Swept(old(items), old(counter), hooked, now, pending, removed, items, counter, evictedItems)
        decreases pending
      {
        var k :| k in pending;
        SweptStep(old(items), old(counter), hooked, now, pending, removed, items, counter, evictedItems, k);
        ghost var gone := ExpiredOnRead(items[k], now);
        var evicted := SweepKey(k, now);
        if evicted.Some? {
          evictedItems := evictedItems + [evicted.value];
        }
        if gone {
          removed := removed + {k};
        }
        pending := pending - {k};
      }
      SweptDone(old(items), old(counter), hooked, now, removed, items, counter, evictedItems);
    }

    /** One step of the scan: `delete` the key if it is expired at `now`. */
    method SweepKey(k: string, now: Nanos) returns (evicted: Option<KeyAndValue>)
      requires k in items
      modifies this`items, this`counter
      ensures ExpiredOnRead(old(items)[k], now) ==> items == old(items) - {k} && counter == Dec32(old(counter))
      ensures !ExpiredOnRead(old(items)[k], now) ==> items == old(items) && counter == old(counter)
      ensures evicted.Some? <==> hooked && ExpiredOnRead(old(items)[k], now)
      ensures evicted.Some? ==> evicted.value == KeyAndValue(k, old(items)[k].obj)
    {
      var item := items[k];
      evicted := None;
      if item.expiration > 0 && now > item.expiration {
        var ov := Remove(k);
        if ov.Some? {
          evicted := Some(KeyAndValue(k, ov.value));
        }
      }
    }

    /** `OnEvicted`: register a hook, or remove it. */
    method OnEvicted(registered: bool)
      modifies this`hooked
      ensures hooked == registered
    {
      hooked := registered;
    }

    /** `Items` as written: the unexpired entries are written into a map that
        was declared but never made, so the first of them panics; only a
        cache with none returns, and then an empty map. */
    method Items(now: Nanos) returns (r: Snapshot)
      ensures r.Panicked? <==> LiveEntries(items, now) != map[]
      ensures r.Copied? ==> r.entries == map[]
    {
      var pending := items.Keys;
      while pending != {}
        invariant pending <= items.Keys
        invariant forall j | j in items && j !in pending :: ExpiredOnRead(items[j], now)
        decreases pending
      {
        var k :| k in pending;
        var item := items[k];
        if !(item.expiration > 0 && now > item.expiration) {
          assert k in LiveEntries(items, now);
          return Panicked;
        }
        pending := pending - {k};
      }
      assert LiveEntries(items, now).Keys == {};
      return Copied(map[]);
    }

    /** `Items` as documented: a copy of every unexpired entry. */
    method LiveSnapshot(now: Nanos) returns (m: ItemMap)
      ensures m == LiveEntries(items, now)
    {
      m := map[];
      var pending := items.Keys;
      while pending != {}
        invariant pending <= items.Keys
        invariant forall j :: j in m <==> j in items && j !in pending && !ExpiredOnRead(items[j], now)
        invariant forall j | j in m :: m[j] == items[j]
        decreases pending
      {
        var k :| k in pending;
        var item := items[k];
        if !(item.expiration > 0 && now > item.expiration) {
          m := m[k := item];
        }
        pending := pending - {k};
      }
      assert m.Keys == LiveEntries(items, now).Keys;
    }

    /** `ItemCount`: the counter, which may count expired entries and, after
        deletes of absent keys or a pre-populated start, drift from the map. */
    method ItemCount() returns (n: Count32)
      ensures n == counter
    {
      return counter;
    }

    /** `Flush`: SafeDelete every key; the hook is not called. */
    method Flush()
      modifies this`items, this`counter
      ensures items == map[]
      ensures counter == Sub32(old(counter), |old(items)|)
    {
      var pending := items.Keys;
      ghost var removed: nat := 0;
      Sub32Step(counter, 0);
      while pending != {}
        invariant items.Keys == pending
        invariant |pending| + removed == |old(items)|
        invariant counter == Sub32(old(counter), removed)
        decreases pending
      {
        var k :| k in pending;
        SafeDelete(k);
        Sub32Step(old(counter), removed);
        removed := removed + 1;
        pending := pending - {k};
      }
      assert items.Keys == {};
    }
  }
}
