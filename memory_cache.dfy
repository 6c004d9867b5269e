/**
 * The in-memory tier (MemoryBitmapCache.java): an `android.util.LruCache` from key to bitmap.
 * The LRU map's own eviction order is not modelled; what is modelled is that a `put` keeps the
 * entry just written, may evict other entries but only when the map would exceed its maximum
 * size, and never changes an entry it keeps.
 */
module MemoryCache {
  import opened Optional
  import opened Images

  /** `Long.MAX_VALUE`, the largest value `Runtime.maxMemory()` can report. */
  const LONG_MAX: int := 0x7FFF_FFFF_FFFF_FFFF

  /** A Java `(int)` cast of a `long`: the low 32 bits, read as a two's-complement number. */
  function NarrowToInt(x: int): (r: int)
    ensures -0x8000_0000 <= r < 0x8000_0000
    ensures (x - r) % 0x1_0000_0000 == 0
    ensures -0x8000_0000 <= x < 0x8000_0000 ==> r == x
  {
    var low := x % 0x1_0000_0000;
    if low < 0x8000_0000 then low else low - 0x1_0000_0000
  }

  /**
   * `CACHE_SIZE_BYTES = (int) (Runtime.getRuntime().maxMemory() / 1024 / 2000)`, for a heap limit
   * of `maxMemory` bytes. LruCache's default `sizeOf` is 1, so this bounds the number of entries.
   */
  function CacheSizeBytes(maxMemory: int): (size: int)
    requires 0 <= maxMemory <= LONG_MAX
    ensures -0x8000_0000 <= size < 0x8000_0000
  {
    NarrowToInt(maxMemory / 1024 / 2000)
  }

  /** While the quotient fits in an `int`, the constant is the heap size divided by 2,048,000, and it is positive exactly when the heap holds at least 2,048,000 bytes. */
  lemma CacheSizeIsHeapFraction(maxMemory: int)
    requires 0 <= maxMemory < 2048000 * 0x8000_0000
    ensures CacheSizeBytes(maxMemory) == maxMemory / 2048000
    ensures CacheSizeBytes(maxMemory) >= 1 <==> maxMemory >= 2048000
  {
    var q := maxMemory / 1024;
    assert maxMemory == 1024 * q + maxMemory % 1024;
    assert q == 2000 * (q / 2000) + q % 2000;
    assert maxMemory == 2048000 * (q / 2000) + (1024 * (q % 2000) + maxMemory % 1024);
  }

  /** A heap limit of `Long.MAX_VALUE` (no limit) wraps the constant to a negative number, which LruCache's constructor rejects. */
  lemma UnlimitedHeapWrapsNegative()
    ensures CacheSizeBytes(LONG_MAX) == -1821066134
  {
  }

  /** `LruCache.get`: the bitmap stored under `key`, or null. */
  function Lookup(entries: map<string, Bitmap>, key: string): Option<Bitmap> {
    if key in entries then Some(entries[key]) else None
  }

  /**
   * What `LruCache.put(key, bitmap)` leaves behind, from `before`, with at most `capacity` entries:
   * `key` holds `bitmap`; every other entry is one of `before`, unchanged; when everything
   * fits, nothing is evicted, and otherwise entries are evicted only until the map is full again.
   */
  ghost predicate Put(before: map<string, Bitmap>, after: map<string, Bitmap>, key: string, bitmap: Bitmap, capacity: nat) {
    && Lookup(after, key) == Some(bitmap)
    && |after| <= capacity
    && (forall k :: k in after && k != key ==> k in before && after[k] == before[k])
    && (|before[key := bitmap]| <= capacity ==> after == before[key := bitmap])
    && (|before[key := bitmap]| > capacity ==> |after| == capacity)
  }

  /**
   * A `put` into a map within capacity keeps every key but at most one: exactly one entry, the
   * eldest, is removed by `trimToSize` when a new key makes the map overflow, and none otherwise.
   */
  lemma PutEvictsAtMostOne(before: map<string, Bitmap>, after: map<string, Bitmap>, key: string, bitmap: Bitmap, capacity: nat)
    requires |before| <= capacity
    requires Put(before, after, key, bitmap, capacity)
    ensures after.Keys <= before.Keys + {key}
    ensures |before.Keys - after.Keys| <= 1
    ensures |before[key := bitmap]| > capacity ==> |before.Keys - after.Keys| == 1
  {
    var grown := before[key := bitmap];
    if |grown| > capacity {
      assert key !in before;
      assert grown.Keys == before.Keys + {key};
      var evicted := before.Keys - after.Keys;
      assert grown.Keys == after.Keys + evicted;
      assert after.Keys * evicted == {};
    }
  }

  /** Saving over a key that is already present replaces its bitmap and evicts nothing. */
  lemma PutReplacesExisting(before: map<string, Bitmap>, after: map<string, Bitmap>, key: string, bitmap: Bitmap, capacity: nat)
    requires |before| <= capacity && key in before
    requires Put(before, after, key, bitmap, capacity)
    ensures after == before[key := bitmap]
  {
    assert before[key := bitmap].Keys == before.Keys;
  }

  /** A map with two entries or more has an entry under a key other than `key`. */
  lemma OtherKeyExists(m: map<string, Bitmap>, key: string)
    requires |m| >= 2
    ensures exists k :: k in m && k != key
  {
    var others := m.Keys - {key};
    assert |others| >= |m.Keys| - 1;
    var k :| k in others;
  }

  class MemoryBitmapCache {
    /** The LRU map's maximum size, `CACHE_SIZE_BYTES`. */
    const capacity: nat
    /** `mCache`: the entries the LRU map holds. */
    var entries: map<string, Bitmap>

    ghost predicate Valid()
      reads this
    {
      1 <= capacity && |entries| <= capacity
    }

    /** A fresh, empty cache sized for a heap limit of `maxMemory` bytes; LruCache refuses a size below 1. */
    constructor (maxMemory: int)
      requires 0 <= maxMemory <= LONG_MAX && CacheSizeBytes(maxMemory) >= 1
      ensures Valid() && capacity == CacheSizeBytes(maxMemory) && entries == map[]
    {
      capacity := CacheSizeBytes(maxMemory);
      entries := map[];
    }

    /** `get(key)`. */
    method Get(key: string) returns (r: Option<Bitmap>)
      ensures r == Lookup(entries, key)
      ensures r.Some? <==> key in entries
    {
      if key in entries {
        r := Some(entries[key]);
      } else {
        r := None;
      }
    }

    /** `containsKey(key)`: whether `get(key)` is non-null. */
    method ContainsKey(key: string) returns (b: bool)
      ensures b <==> key in entries
      ensures b <==> Lookup(entries, key).Some?
    {
      var existing := Get(key);
      b := existing.Some?;
    }

    /** `save(key, bitmap)`: `LruCache.put`, then `trimToSize` evicts entries until the map fits. */
    method Save(key: string, bitmap: Bitmap)
      requires Valid()
      modifies this
      ensures Valid()
      ensures Put(old(entries), entries, key, bitmap, capacity)
    {
      entries := entries[key := bitmap];
      while |entries| > capacity
        invariant key in entries && entries[key] == bitmap
        invariant forall k :: k in entries && k != key ==> k in old(entries) && entries[k] == old(entries)[k]
        invariant |old(entries)[key := bitmap]| <= capacity ==> entries == old(entries)[key := bitmap]
        invariant |old(entries)[key := bitmap]| > capacity ==> |entries| >= capacity
        decreases |entries|
      {
        OtherKeyExists(entries, key);
        var eldest :| eldest in entries && eldest != key;
        entries := entries - {eldest};
      }
    }

    /** `clear()`: `evictAll`. */
    method Clear()
      requires Valid()
      modifies this
      ensures Valid() && entries == map[]
    {
      entries := map[];
    }
  }
}
