/** The expiration policy: an entry's absolute expiry in Unix nanoseconds,
    the two ways the cache decides that an entry has expired, and the expiry
    computed when an entry is stored. The clock is a parameter `now`. */
module Expiration {
  import opened Values

  /** Times and durations in nanoseconds, Go's int64. */
  type Nanos = I64

  /** The duration argument that asks for the cache's default. */
  const DefaultExpiration: Nanos := 0
  /** The duration argument that asks for no expiry. */
  const NoExpiration: Nanos := -1

  /** A stored entry: the object and its absolute expiry (0 for none). */
  datatype Item = Item(obj: Value, expiration: Nanos)

  /** `Item.Expired`, used by the increment and decrement operations: an
      expiry of exactly 0 means never; any other expiry, negative ones
      included, has passed once `now` is strictly later. */
  predicate Expired(item: Item, now: Nanos)
    ensures item.expiration == 0 ==> !Expired(item, now)
    ensures Expired(item, now) ==> now > item.expiration
  {
    if item.expiration == 0 then false else now > item.expiration
  }

  /** The check that Get, GetWithExpiration, get, DeleteExpired and Items
      write out inline: only a positive expiry can have passed. */
  predicate ExpiredOnRead(item: Item, now: Nanos)
    ensures item.expiration <= 0 ==> !ExpiredOnRead(item, now)
    ensures ExpiredOnRead(item, now) ==> Expired(item, now)
  {
    item.expiration > 0 && now > item.expiration
  }

  /** Go's int64 wrap-around of a sum of two int64 values: a sum that fits
      is kept, one past the largest int64 comes out 2^64 lower (negative),
      one below the least 2^64 higher. */
  function Wrap64(x: int): (r: Nanos)
    ensures -0x8000_0000_0000_0000 <= x < 0x8000_0000_0000_0000 ==> r == x
    ensures 0x8000_0000_0000_0000 <= x < 0x1_0000_0000_0000_0000 ==> r == x - 0x1_0000_0000_0000_0000 < 0
    ensures -0x1_0000_0000_0000_0000 <= x < -0x8000_0000_0000_0000 ==> r == x + 0x1_0000_0000_0000_0000 >= 0
  {
    var z := x + 0x8000_0000_0000_0000;
    if -0x1_0000_0000_0000_0000 <= z < 0x2_0000_0000_0000_0000 then
      ModNear(z, 0x1_0000_0000_0000_0000);
      z % 0x1_0000_0000_0000_0000 - 0x8000_0000_0000_0000
    else
      z % 0x1_0000_0000_0000_0000 - 0x8000_0000_0000_0000
  }

  /** `newCache`: a default expiration of 0 is replaced by -1. */
  function NormaliseDefault(de: Nanos): (r: Nanos)
    ensures r != 0
    ensures de == 0 ==> r == NoExpiration
    ensures de != 0 ==> r == de
  {
    if de == 0 then NoExpiration else de
  }

  /** The expiry `set` gives a new entry: a duration of 0 takes the cache's
      default; a positive duration then ends at `now + d` (`time.Now().Add(d)`,
      wrapping as int64); any other gives no expiry. */
  function ExpirationFor(now: Nanos, d: Nanos, defaultExpiration: Nanos): (r: Nanos)
    ensures (if d == DefaultExpiration then defaultExpiration else d) <= 0 ==> r == 0
    ensures (if d == DefaultExpiration then defaultExpiration else d) > 0 ==>
              r == Wrap64(now + (if d == DefaultExpiration then defaultExpiration else d))
  {
    var effective := if d == DefaultExpiration then defaultExpiration else d;
    if effective > 0 then Wrap64(now + effective) else 0
  }

  /** The expiry `set` evidently means to give: as ExpirationFor, except that
      an end past the largest int64 is clamped to the largest int64, so the
      entry outlives every clock reading instead of getting a negative
      expiry. */
  function ClampedExpirationFor(now: Nanos, d: Nanos, defaultExpiration: Nanos): (r: Nanos)
    ensures (if d == DefaultExpiration then defaultExpiration else d) <= 0 ==> r == 0
    ensures (if d == DefaultExpiration then defaultExpiration else d) > 0 ==>
              (r > now || r == 0x7FFF_FFFF_FFFF_FFFF)
    ensures now + (if d == DefaultExpiration then defaultExpiration else d) < 0x8000_0000_0000_0000 ==>
              r == ExpirationFor(now, d, defaultExpiration)
  {
    var effective := if d == DefaultExpiration then defaultExpiration else d;
    if effective <= 0 then 0
    else if now + effective < 0x8000_0000_0000_0000 then now + effective
    else 0x7FFF_FFFF_FFFF_FFFF
  }

  /** An entry is live at the very instant of its expiry, and once expired it
      stays expired. */
  lemma ExpiryIsStrict(item: Item, t: Nanos, later: Nanos)
    requires t <= later
    ensures !Expired(item, item.expiration) && !ExpiredOnRead(item, item.expiration)
    ensures Expired(item, t) ==> Expired(item, later)
    ensures ExpiredOnRead(item, t) ==> ExpiredOnRead(item, later)
  {
  }

  /** The two checks agree on every expiry that is not negative. */
  lemma ChecksAgree(item: Item, now: Nanos)
    requires item.expiration >= 0
    ensures Expired(item, now) <==> ExpiredOnRead(item, now)
  {
  }

  /** On a negative expiry the read paths never see the entry expire while
      Item.Expired does. Such an expiry comes from a pre-populated map or from
      `set` with a duration whose end wraps past the largest int64. */
  lemma NegativeExpiryQuirk(item: Item, now: Nanos)
    requires item.expiration < 0
    ensures !ExpiredOnRead(item, now)
    ensures Expired(item, now) <==> now > item.expiration
  {
  }

  /** A duration that is not positive once the default is substituted gives
      an entry that never expires, by either check. */
  lemma NonPositiveDurationNeverExpires(now: Nanos, d: Nanos, de: Nanos, x: Value, t: Nanos)
    requires (if d == DefaultExpiration then de else d) <= 0
    ensures ExpirationFor(now, d, de) == 0
    ensures !Expired(Item(x, ExpirationFor(now, d, de)), t)
    ensures !ExpiredOnRead(Item(x, ExpirationFor(now, d, de)), t)
  {
  }

  /** Since the default is normalised, a cache created with default 0 stores
      entries given the default duration with no expiry. */
  lemma DefaultZeroNeverExpires(now: Nanos, x: Value, t: Nanos)
    ensures ExpirationFor(now, DefaultExpiration, NormaliseDefault(0)) == 0
    ensures !Expired(Item(x, ExpirationFor(now, DefaultExpiration, NormaliseDefault(0))), t)
    ensures !ExpiredOnRead(Item(x, ExpirationFor(now, DefaultExpiration, NormaliseDefault(0))), t)
  {
  }

  /** A positive duration whose end fits in int64 expires exactly after
      `now + d`: live up to and at that instant, expired strictly after it. */
  lemma PositiveDurationExpiresAfter(now: Nanos, d: Nanos, de: Nanos, x: Value, t: Nanos)
    requires (if d == DefaultExpiration then de else d) > 0
    requires now + (if d == DefaultExpiration then de else d) < 0x8000_0000_0000_0000
    ensures ExpirationFor(now, d, de) == now + (if d == DefaultExpiration then de else d)
    ensures ExpiredOnRead(Item(x, ExpirationFor(now, d, de)), t) <==> t > ExpirationFor(now, d, de) > 0
  {
    var e := now + (if d == DefaultExpiration then de else d);
    assert (e + 0x8000_0000_0000_0000) % 0x1_0000_0000_0000_0000 == e + 0x8000_0000_0000_0000;
  }

  /** Whatever the duration, an entry just stored is not expired, on the read
      paths, at the instant it was stored: a positive expiry lies after `now`
      unless the int64 sum wrapped, and then it is negative. */
  lemma FreshEntryIsFound(now: Nanos, d: Nanos, de: Nanos, x: Value)
    ensures !ExpiredOnRead(Item(x, ExpirationFor(now, d, de)), now)
  {
    var effective := if d == DefaultExpiration then de else d;
    if effective > 0 {
      var s := now + effective;
      if s < 0x8000_0000_0000_0000 {
        assert (s + 0x8000_0000_0000_0000) % 0x1_0000_0000_0000_0000 == s + 0x8000_0000_0000_0000;
      } else {
        assert (s + 0x8000_0000_0000_0000) % 0x1_0000_0000_0000_0000 == s + 0x8000_0000_0000_0000 - 0x1_0000_0000_0000_0000;
      }
    }
  }
}
