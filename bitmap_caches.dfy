/**
 * The `BitmapCache` interface (BitmapCache.java). Its two implementations are the classes
 * `MemoryCache.MemoryBitmapCache` and `DiskCache.DiskBitmapCache`; the loader picks one of them
 * through a `Tier`. What every implementation promises for `containsKey`, `get`, `save` and
 * `clear` is stated on each class against its own lookup function.
 */
module BitmapCaches {
  import opened Images

  /** The implementations of the interface. */
  datatype Tier = MemoryTier | DiskTier

  /** `getSource()`: the fixed source each cache reports. */
  function SourceOf(tier: Tier): (source: Source)
    ensures source != NETWORK
  {
    match tier
    case MemoryTier => MEMORY
    case DiskTier => DISK
  }

  /** `getName()`, for debugging output. */
  function NameOf(tier: Tier): (name: string)
    ensures |name| > 6 && name[|name| - 6..] == " Cache"
  {
    match tier
    case MemoryTier => "Memory Cache"
    case DiskTier => "Disk Cache"
  }

  /** Each cache reports its own source: no two tiers report the same one. */
  lemma SourceIdentifiesTier(t: Tier, u: Tier)
    requires SourceOf(t) == SourceOf(u)
    ensures t == u
  {
  }
}
