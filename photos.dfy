/**
 * `PhotoLoader` (PhotoLoader.java): loads the bitmap for an image URL from the memory cache,
 * else from the disk cache (copying it into memory), else from the network (copying it into
 * both caches). `FindImageSource` is the Rx pipeline the loader builds, operator by operator;
 * `SequentialFallback` is the plain reading of it that the lemmas below are stated against.
 */
module Photos {
  import opened Optional
  import opened Images
  import opened BitmapCaches
  import opened Rx
  import MemoryCache
  import DiskCache

  /** The side effects one load can have, in the order they happen. */
  datatype Step = Read(tier: Tier) | Download | Write(tier: Tier, bitmap: Bitmap) | Clear(tier: Tier)

  /**
   * What the network call would produce for the URL: a decoded bitmap, which is null when the
   * response does not decode, or the exception the call throws.
   */
  datatype Fetch = Fetched(bitmap: Option<Bitmap>) | FetchFailed(cause: string)

  /** How a load can fail: `first` found no non-null bitmap, or the network call threw. */
  datatype LoadError = NoSuchElement | NetworkError(cause: string)

  /** One subscription to `load(url)`: its side effects and the signals its subscriber receives. */
  type Subscription = seq<Event<Step, Option<Bitmap>, LoadError>>

  /** What the subscriber of a load receives for an outcome. */
  function Delivered(r: Result<Bitmap, LoadError>): Subscription {
    match r
    case Success(bitmap) => Just(Some(bitmap))
    case Failure(error) => [Error(error)]
  }

  /** The action `saveToCache(url, cache)` builds: a write of the bitmap, nothing for null. */
  function SaveAction(tier: Tier): Option<Bitmap> -> seq<Step> {
    (bitmap: Option<Bitmap>) => if bitmap.Some? then [Write(tier, bitmap.value)] else []
  }

  /** The predicate given to `first`: `cachedBitmap != null`. */
  predicate NonNull(bitmap: Option<Bitmap>) {
    bitmap.Some?
  }

  /** `NetworkClient.loadImage(url)`, subscribed to: the download, then its bitmap or its exception. */
  function LoadImage(fetch: Fetch): Subscription {
    [Effect(Download)] +
    match fetch
    case Fetched(bitmap) => Just(bitmap)
    case FetchFailed(cause) => [Error(NetworkError(cause))]
  }

  /** The observable that reads the disk cache and copies a hit into memory. */
  function DiskObservable(onDisk: Option<Bitmap>): Subscription {
    DoOnNext(Just(onDisk), SaveAction(MemoryTier))
  }

  /** The deferred observable that downloads and copies the result into memory, then disk. */
  function NetworkObservable(fetch: Fetch): Subscription {
    DoOnNext(DoOnNext(LoadImage(fetch), SaveAction(MemoryTier)), SaveAction(DiskTier))
  }

  /**
   * `findImageSource()` applied to the URL, given what the two caches return for it. Both
   * `get` calls run while the pipeline is assembled; the network observable is deferred, so its
   * download happens only if `concat` reaches it.
   */
  function FindImageSource(inMemory: Option<Bitmap>, onDisk: Option<Bitmap>, fetch: Fetch): (s: Subscription)
    ensures |s| >= 2 && s[0] == Effect(Read(MemoryTier)) && s[1] == Effect(Read(DiskTier))
  {
    Lift(Reads)
      + First(Concat(Concat(Just(inMemory), DiskObservable(onDisk)), NetworkObservable(fetch)), NonNull, NoSuchElement)
  }

  /** The cache reads every load starts with. */
  const Reads: seq<Step> := [Read(MemoryTier), Read(DiskTier)]

  /** The documented fallback: memory, else disk (copied into memory), else network (copied into memory and disk). */
  function SequentialFallback(inMemory: Option<Bitmap>, onDisk: Option<Bitmap>, fetch: Fetch): Subscription {
    if inMemory.Some? then Lift(Reads) + Just(inMemory)
    else if onDisk.Some? then Lift(Reads + [Write(MemoryTier, onDisk.value)]) + Just(onDisk)
    else Lift(Reads) + NetworkFallback(fetch)
  }

  /** The network step of the fallback. */
  function NetworkFallback(fetch: Fetch): Subscription {
    match fetch
    case Fetched(Some(bitmap)) => Lift([Download, Write(MemoryTier, bitmap), Write(DiskTier, bitmap)]) + Just(Some(bitmap))
    case Fetched(None) => Lift([Download]) + [Error(NoSuchElement)]
    case FetchFailed(cause) => Lift([Download]) + [Error(NetworkError(cause))]
  }

  /** The disk observable: the copy into memory (nothing for null), then the value. */
  lemma DiskObservableSteps(onDisk: Option<Bitmap>)
    ensures DiskObservable(onDisk) == Lift(SaveAction(MemoryTier)(onDisk)) + Just(onDisk)
  {
    DoOnNextJust<Step, Option<Bitmap>, LoadError>(onDisk, SaveAction(MemoryTier));
  }

  /** A completed download: the download, the copies into memory and disk (nothing for null), then the value. */
  lemma NetworkObservableFetched(bitmap: Option<Bitmap>)
    ensures NetworkObservable(Fetched(bitmap))
         == Lift([Download] + SaveAction(MemoryTier)(bitmap) + SaveAction(DiskTier)(bitmap)) + Just(bitmap)
  {
    var toMemory := SaveAction(MemoryTier)(bitmap);
    var toDisk := SaveAction(DiskTier)(bitmap);
    var value: Subscription := Just(bitmap);
    calc {
      NetworkObservable(Fetched(bitmap));
      { assert LoadImage(Fetched(bitmap)) == Lift([Download]) + value; }
      DoOnNext(DoOnNext(Lift([Download]) + value, SaveAction(MemoryTier)), SaveAction(DiskTier));
      { DoOnNextAfterEffects([Download], value, SaveAction(MemoryTier));
        DoOnNextJust<Step, Option<Bitmap>, LoadError>(bitmap, SaveAction(MemoryTier));
        LiftAppend<Step, Option<Bitmap>, LoadError>([Download], toMemory);
        assert DoOnNext(Lift([Download]) + value, SaveAction(MemoryTier)) == Lift([Download] + toMemory) + value; }
      DoOnNext(Lift([Download] + toMemory) + value, SaveAction(DiskTier));
      { DoOnNextAfterEffects([Download] + toMemory, value, SaveAction(DiskTier));
        DoOnNextJust<Step, Option<Bitmap>, LoadError>(bitmap, SaveAction(DiskTier));
        LiftAppend<Step, Option<Bitmap>, LoadError>([Download] + toMemory, toDisk); }
      Lift([Download] + toMemory + toDisk) + value;
    }
  }

  /** Once reached, the network observable under `first` is the network step of the fallback. */
  lemma NetworkObservableSteps(fetch: Fetch)
    ensures First(NetworkObservable(fetch), NonNull, NoSuchElement) == NetworkFallback(fetch)
  {
    match fetch {
      case Fetched(bitmap) =>
        NetworkObservableFetched(bitmap);
        var effects := [Download] + SaveAction(MemoryTier)(bitmap) + SaveAction(DiskTier)(bitmap);
        var done: Subscription := [Completed];
        assert Just(bitmap) == [Next(bitmap)] + done;
        FirstAfterEffects(effects, [Next(bitmap)] + done, NonNull, NoSuchElement);
        FirstNext(bitmap, done, NonNull, NoSuchElement);
        if bitmap.None? {
          assert effects == [Download];
          assert First(done, NonNull, NoSuchElement) == [Error(NoSuchElement)];
        } else {
          assert effects == [Download, Write(MemoryTier, bitmap.value), Write(DiskTier, bitmap.value)];
        }
      case FetchFailed(cause) =>
        var failure: Subscription := [Error(NetworkError(cause))];
        assert NetworkObservable(fetch) == Lift([Download]) + failure by {
          assert LoadImage(fetch) == Lift([Download]) + failure;
          assert failure[1..] == [];
          assert DoOnNext(failure, SaveAction(MemoryTier)) == failure;
          assert DoOnNext(failure, SaveAction(DiskTier)) == failure;
          DoOnNextAfterEffects([Download], failure, SaveAction(MemoryTier));
          DoOnNextAfterEffects([Download], failure, SaveAction(DiskTier));
        }
        FirstAfterEffects([Download], failure, NonNull, NoSuchElement);
    }
  }

  /** With the memory cache missed, `first` reaches the disk observable, then the network one. */
  lemma AfterMemoryMiss(onDisk: Option<Bitmap>, fetch: Fetch)
    ensures First(Concat(DiskObservable(onDisk), NetworkObservable(fetch)), NonNull, NoSuchElement)
         == if onDisk.Some? then Lift([Write(MemoryTier, onDisk.value)]) + Just(onDisk) else NetworkFallback(fetch)
  {
    var networkObs := NetworkObservable(fetch);
    var copy := SaveAction(MemoryTier)(onDisk);
    var diskPrefix := Lift<Step, Option<Bitmap>, LoadError>(copy) + [Next(onDisk)];
    assert Concat(DiskObservable(onDisk), networkObs) == Lift(copy) + ([Next(onDisk)] + networkObs) by {
      DiskObservableSteps(onDisk);
      LiftFacts<Step, Option<Bitmap>, LoadError>(copy);
      assert DiskObservable(onDisk) == diskPrefix + [Completed];
      ConcatCompleted(diskPrefix, networkObs);
    }
    FirstAfterEffects(copy, [Next(onDisk)] + networkObs, NonNull, NoSuchElement);
    FirstNext(onDisk, networkObs, NonNull, NoSuchElement);
    if onDisk.None? {
      NetworkObservableSteps(fetch);
    }
  }

  /** The Rx pipeline behaves exactly as the sequential fallback, effects and signals alike. */
  lemma FindImageSourceIsSequentialFallback(inMemory: Option<Bitmap>, onDisk: Option<Bitmap>, fetch: Fetch)
    ensures FindImageSource(inMemory, onDisk, fetch) == SequentialFallback(inMemory, onDisk, fetch)
  {
    var diskObs := DiskObservable(onDisk);
    var networkObs := NetworkObservable(fetch);
    var rest := Concat(diskObs, networkObs);
    assert Concat(Concat(Just(inMemory), diskObs), networkObs) == [Next(inMemory)] + rest by {
      ConcatCompleted([Next(inMemory)], diskObs);
      ConcatAfterOpen([Next(inMemory)], diskObs, networkObs);
    }
    FirstNext(inMemory, rest, NonNull, NoSuchElement);
    if inMemory.None? {
      AfterMemoryMiss(onDisk, fetch);
      if onDisk.Some? {
        LiftAppend<Step, Option<Bitmap>, LoadError>(Reads, [Write(MemoryTier, onDisk.value)]);
      }
    }
  }

  // ---- What a load does, case by case ----

  /** A memory hit is delivered; the only effects are the two cache reads. */
  lemma MemoryHit(bitmap: Bitmap, onDisk: Option<Bitmap>, fetch: Fetch)
    ensures Effects(FindImageSource(Some(bitmap), onDisk, fetch)) == Reads
    ensures Signals(FindImageSource(Some(bitmap), onDisk, fetch)) == Delivered(Success(bitmap))
  {
    FindImageSourceIsSequentialFallback(Some(bitmap), onDisk, fetch);
    JustFacts<Step, Option<Bitmap>, LoadError>(Some(bitmap));
    LiftThen<Step, Option<Bitmap>, LoadError>(Reads, Just(Some(bitmap)));
  }

  /** A disk hit after a memory miss is copied into memory, then delivered; nothing is downloaded. */
  lemma DiskHit(bitmap: Bitmap, fetch: Fetch)
    ensures Effects(FindImageSource(None, Some(bitmap), fetch)) == Reads + [Write(MemoryTier, bitmap)]
    ensures Signals(FindImageSource(None, Some(bitmap), fetch)) == Delivered(Success(bitmap))
  {
    FindImageSourceIsSequentialFallback(None, Some(bitmap), fetch);
    JustFacts<Step, Option<Bitmap>, LoadError>(Some(bitmap));
    LiftThen<Step, Option<Bitmap>, LoadError>(Reads + [Write(MemoryTier, bitmap)], Just(Some(bitmap)));
  }

  /** After two misses the image is downloaded, copied into memory and then disk, and only then delivered. */
  lemma NetworkHit(bitmap: Bitmap)
    ensures Effects(FindImageSource(None, None, Fetched(Some(bitmap))))
         == Reads + [Download, Write(MemoryTier, bitmap), Write(DiskTier, bitmap)]
    ensures Signals(FindImageSource(None, None, Fetched(Some(bitmap)))) == Delivered(Success(bitmap))
  {
    FindImageSourceIsSequentialFallback(None, None, Fetched(Some(bitmap)));
    var effects := [Download, Write(MemoryTier, bitmap), Write(DiskTier, bitmap)];
    JustFacts<Step, Option<Bitmap>, LoadError>(Some(bitmap));
    LiftAppend<Step, Option<Bitmap>, LoadError>(Reads, effects);
    assert FindImageSource(None, None, Fetched(Some(bitmap))) == Lift(Reads + effects) + Just(Some(bitmap));
    LiftThen<Step, Option<Bitmap>, LoadError>(Reads + effects, Just(Some(bitmap)));
  }

  /**
   * After two misses, a download that throws fails the load with its exception, and one that
   * yields null fails it with `NoSuchElementException`; neither cache is written.
   */
  lemma NetworkMiss(fetch: Fetch)
    requires fetch.FetchFailed? || fetch.bitmap.None?
    ensures Effects(FindImageSource(None, None, fetch)) == Reads + [Download]
    ensures Signals(FindImageSource(None, None, fetch))
         == Delivered(Failure(if fetch.FetchFailed? then NetworkError(fetch.cause) else NoSuchElement))
  {
    FindImageSourceIsSequentialFallback(None, None, fetch);
    var failure: Subscription := [Error(if fetch.FetchFailed? then NetworkError(fetch.cause) else NoSuchElement)];
    assert Effects(failure) == [] && Signals(failure) == failure by {
      assert failure[1..] == [];
    }
    LiftAppend<Step, Option<Bitmap>, LoadError>(Reads, [Download]);
    assert FindImageSource(None, None, fetch) == Lift(Reads + [Download]) + failure;
    LiftThen<Step, Option<Bitmap>, LoadError>(Reads + [Download], failure);
  }

  // ---- What every load promises ----

  /**
   * A load delivers at most one bitmap, never null, and after it nothing but completion: every
   * copy into a cache has been made by the time the subscriber receives the bitmap.
   */
  lemma DeliversAtMostOneBitmap(inMemory: Option<Bitmap>, onDisk: Option<Bitmap>, fetch: Fetch)
    ensures var s := FindImageSource(inMemory, onDisk, fetch);
      && |Emitted(s)| <= 1
      && None !in Emitted(s)
      && (forall i :: 0 <= i < |s| && s[i].Next? ==> s[i + 1..] == [Completed])
  {
    var s := FindImageSource(inMemory, onDisk, fetch);
    var start: Subscription := Lift(Reads);
    var f := First(Concat(Concat(Just(inMemory), DiskObservable(onDisk)), NetworkObservable(fetch)), NonNull, NoSuchElement);
    FirstDeliversAtMostOne(Concat(Concat(Just(inMemory), DiskObservable(onDisk)), NetworkObservable(fetch)), NonNull, NoSuchElement);
    LiftFacts<Step, Option<Bitmap>, LoadError>(Reads);
    EffectsAppend(start, f);
    assert s == start + f;
    forall i | 0 <= i < |s| && s[i].Next?
      ensures s[i + 1..] == [Completed]
    {
      assert |start| == 2;
      assert start[0].Effect? && start[1].Effect?;
      assert s[i] == f[i - 2];
      assert s[i + 1..] == f[i - 1..];
    }
  }

  /** The network is used exactly once when both caches miss, and not at all otherwise. */
  lemma DownloadsOnlyWhenBothMiss(inMemory: Option<Bitmap>, onDisk: Option<Bitmap>, fetch: Fetch)
    ensures multiset(Effects(FindImageSource(inMemory, onDisk, fetch)))[Download]
         == if inMemory.None? && onDisk.None? then 1 else 0
  {
    PipelineOutcome(inMemory, onDisk, fetch);
    FallbackDownloads(inMemory, onDisk, fetch);
  }

  /** The sequential fallback downloads once after two misses, and never after a hit. */
  lemma FallbackDownloads(inMemory: Option<Bitmap>, onDisk: Option<Bitmap>, fetch: Fetch)
    ensures multiset(FallbackEffects(inMemory, onDisk, fetch))[Download]
         == if inMemory.None? && onDisk.None? then 1 else 0
  {
    var start := multiset(Reads);
    assert start[Download] == 0;
    if inMemory.None? && onDisk.Some? {
      assert multiset(Reads + [Write(MemoryTier, onDisk.value)]) == start + multiset{Write(MemoryTier, onDisk.value)};
    } else if inMemory.None? && fetch.Fetched? && fetch.bitmap.Some? {
      var bitmap := fetch.bitmap.value;
      var after := [Download, Write(MemoryTier, bitmap), Write(DiskTier, bitmap)];
      assert multiset(Reads + after) == start + multiset(after);
      assert multiset(after) == multiset{Download, Write(MemoryTier, bitmap), Write(DiskTier, bitmap)};
    } else if inMemory.None? {
      assert multiset(Reads + [Download]) == start + multiset{Download};
    }
  }

  /** Both caches are read, memory first, before anything else happens. */
  lemma ReadsBothCachesFirst(inMemory: Option<Bitmap>, onDisk: Option<Bitmap>, fetch: Fetch)
    ensures var effects := Effects(FindImageSource(inMemory, onDisk, fetch));
      |effects| >= 2 && effects[..2] == Reads
  {
    PipelineOutcome(inMemory, onDisk, fetch);
  }

  /** The bitmap a load copies into `tier`, if any. */
  function Written(tier: Tier, inMemory: Option<Bitmap>, onDisk: Option<Bitmap>, fetch: Fetch): Option<Bitmap> {
    if inMemory.Some? then None
    else if onDisk.Some? then (if tier == MemoryTier then onDisk else None)
    else if fetch.Fetched? then fetch.bitmap
    else None
  }

  /**
   * The copies a load makes are exactly those `Written` names; whatever is copied is what the
   * subscriber receives, and the disk is only written after a download.
   */
  lemma Backfill(tier: Tier, inMemory: Option<Bitmap>, onDisk: Option<Bitmap>, fetch: Fetch)
    ensures var s := FindImageSource(inMemory, onDisk, fetch);
      && (forall b :: Write(tier, b) in Effects(s) <==> Written(tier, inMemory, onDisk, fetch) == Some(b))
      && (Written(tier, inMemory, onDisk, fetch).Some? ==>
            Signals(s) == Delivered(Success(Written(tier, inMemory, onDisk, fetch).value)))
      && (tier == DiskTier && Written(tier, inMemory, onDisk, fetch).Some? ==> Download in Effects(s))
  {
    PipelineOutcome(inMemory, onDisk, fetch);
  }

  /**
   * After `clearCache`, a load of any URL misses both caches and downloads exactly once; the
   * downloaded bitmap is copied into memory, but the copy onto disk is lost, because `clear`
   * removed the cache directory itself.
   */
  lemma LoadAfterClear(dir: DiskCache.CacheDir, url: string, fetch: Fetch)
    ensures var inMemory := MemoryCache.Lookup(map[], url);
      var onDisk := DiskCache.Find(DiskCache.Emptied(dir), url);
      && multiset(Effects(FindImageSource(inMemory, onDisk, fetch)))[Download] == 1
      && Written(MemoryTier, inMemory, onDisk, fetch) == (if fetch.Fetched? then fetch.bitmap else None)
      && (Written(DiskTier, inMemory, onDisk, fetch).Some? ==>
            DiskCache.Stored(DiskCache.Emptied(dir), url, Written(DiskTier, inMemory, onDisk, fetch).value) == DiskCache.Emptied(dir))
  {
    DiskCache.FindAfterEmptied(dir, url);
    DownloadsOnlyWhenBothMiss(None, None, fetch);
  }

  /** The effects of the sequential fallback, in order: `Effects(SequentialFallback(...))` in closed form. */
  function FallbackEffects(inMemory: Option<Bitmap>, onDisk: Option<Bitmap>, fetch: Fetch): seq<Step> {
    if inMemory.Some? then Reads
    else if onDisk.Some? then Reads + [Write(MemoryTier, onDisk.value)]
    else if fetch.Fetched? && fetch.bitmap.Some? then
      Reads + [Download, Write(MemoryTier, fetch.bitmap.value), Write(DiskTier, fetch.bitmap.value)]
    else Reads + [Download]
  }

  /** The outcome of the sequential fallback, in closed form: the first non-null bitmap, or why there is none. */
  function FallbackResult(inMemory: Option<Bitmap>, onDisk: Option<Bitmap>, fetch: Fetch): Result<Bitmap, LoadError> {
    if inMemory.Some? then Success(inMemory.value)
    else if onDisk.Some? then Success(onDisk.value)
    else match fetch
      case Fetched(Some(bitmap)) => Success(bitmap)
      case Fetched(None) => Failure(NoSuchElement)
      case FetchFailed(cause) => Failure(NetworkError(cause))
  }

  /** The pipeline's effects and signals, for every combination of cache contents and network outcome. */
  lemma PipelineOutcome(inMemory: Option<Bitmap>, onDisk: Option<Bitmap>, fetch: Fetch)
    ensures Effects(FindImageSource(inMemory, onDisk, fetch)) == FallbackEffects(inMemory, onDisk, fetch)
    ensures Signals(FindImageSource(inMemory, onDisk, fetch)) == Delivered(FallbackResult(inMemory, onDisk, fetch))
  {
    if inMemory.Some? {
      MemoryHit(inMemory.value, onDisk, fetch);
    } else if onDisk.Some? {
      DiskHit(onDisk.value, fetch);
    } else if fetch.Fetched? && fetch.bitmap.Some? {
      NetworkHit(fetch.bitmap.value);
    } else {
      NetworkMiss(fetch);
    }
  }

  /** The closed forms are the effects and the signals of the sequential fallback. */
  lemma SequentialFallbackOutcome(inMemory: Option<Bitmap>, onDisk: Option<Bitmap>, fetch: Fetch)
    ensures Effects(SequentialFallback(inMemory, onDisk, fetch)) == FallbackEffects(inMemory, onDisk, fetch)
    ensures Signals(SequentialFallback(inMemory, onDisk, fetch)) == Delivered(FallbackResult(inMemory, onDisk, fetch))
  {
    FindImageSourceIsSequentialFallback(inMemory, onDisk, fetch);
    PipelineOutcome(inMemory, onDisk, fetch);
  }

  /** `PhotoLoader`: a memory cache and a disk cache; the network call is a parameter of `Load`. */
  class PhotoLoader {
    const memory: MemoryCache.MemoryBitmapCache
    const disk: DiskCache.DiskBitmapCache
    /** Every cache access and download made so far, in order. */
    ghost var trace: seq<Step>

    ghost predicate Valid()
      reads this, memory, disk
    {
      memory.Valid() && disk.Valid()
    }

    constructor (memory: MemoryCache.MemoryBitmapCache, disk: DiskCache.DiskBitmapCache)
      requires memory.Valid() && disk.Valid()
      ensures Valid() && this.memory == memory && this.disk == disk && trace == []
    {
      this.memory := memory;
      this.disk := disk;
      trace := [];
    }

    /** What `get(url)` on the cache of `tier` returns now. */
    function Cached(tier: Tier, url: string): Option<Bitmap>
      reads memory, disk
    {
      match tier
      case MemoryTier => MemoryCache.Lookup(memory.entries, url)
      case DiskTier => DiskCache.Find(disk.Dir(), url)
    }

    /** `loadFromCache(url, cache)`: reads the cache at once, when the pipeline is assembled. */
    method LoadFromCache(url: string, tier: Tier) returns (r: Option<Bitmap>)
      requires Valid()
      modifies this
      ensures Valid() && r == Cached(tier, url)
      ensures trace == old(trace) + [Read(tier)]
    {
      match tier {
        case MemoryTier => r := memory.Get(url);
        case DiskTier => r := disk.Get(url);
      }
      trace := trace + [Read(tier)];
    }

    /** `saveToCache(url, cache)` applied to a bitmap: saves it, unless it is null. */
    method SaveToCache(url: string, tier: Tier, bitmap: Option<Bitmap>)
      requires Valid()
      modifies this, memory, disk
      ensures Valid()
      ensures trace == old(trace) + if bitmap.Some? then [Write(tier, bitmap.value)] else []
      ensures if bitmap.Some? && tier == MemoryTier
              then MemoryCache.Put(old(memory.entries), memory.entries, url, bitmap.value, memory.capacity)
              else memory.entries == old(memory.entries)
      ensures disk.Dir() == if bitmap.Some? && tier == DiskTier
                            then DiskCache.Stored(old(disk.Dir()), url, bitmap.value)
                            else old(disk.Dir())
    {
      if bitmap.None? {
        return;
      }
      match tier {
        case MemoryTier => memory.Save(url, bitmap.value);
        case DiskTier => disk.Save(url, bitmap.value);
      }
      trace := trace + [Write(tier, bitmap.value)];
    }

    /**
     * `load(url)`, subscribed to once, with `fetch` the outcome the network call would have:
     * its effects are those of `FindImageSource` for what the caches held, its subscriber
     * receives the bitmap or the error `r`, and each cache ends up holding what was copied in.
     */
    method Load(url: string, fetch: Fetch) returns (r: Result<Bitmap, LoadError>)
      requires Valid()
      modifies this, memory, disk
      ensures Valid()
      ensures var s := FindImageSource(MemoryCache.Lookup(old(memory.entries), url), DiskCache.Find(old(disk.Dir()), url), fetch);
        trace == old(trace) + Effects(s) && Signals(s) == Delivered(r)
      ensures var copied := Written(MemoryTier, MemoryCache.Lookup(old(memory.entries), url), DiskCache.Find(old(disk.Dir()), url), fetch);
        if copied.Some?
        then MemoryCache.Put(old(memory.entries), memory.entries, url, copied.value, memory.capacity)
        else memory.entries == old(memory.entries)
      ensures var copied := Written(DiskTier, MemoryCache.Lookup(old(memory.entries), url), DiskCache.Find(old(disk.Dir()), url), fetch);
        disk.Dir() == if copied.Some? then DiskCache.Stored(old(disk.Dir()), url, copied.value) else old(disk.Dir())
    {
      ghost var before := trace;
      var inMemory := LoadFromCache(url, MemoryTier);
      var onDisk := LoadFromCache(url, DiskTier);
      assert trace == before + Reads;
      r := FirstCachedOrDownloaded(url, inMemory, onDisk, fetch, before);
      PipelineOutcome(inMemory, onDisk, fetch);
    }

    /**
     * The subscription to `concat(memory, disk, network).first(non-null)`, given what the two
     * cache reads returned and the trace before them: a memory hit ends it; otherwise a disk hit
     * is copied into memory and ends it; otherwise the deferred network observable downloads and
     * copies a non-null bitmap into memory and then into the disk cache.
     */
    method FirstCachedOrDownloaded(url: string, inMemory: Option<Bitmap>, onDisk: Option<Bitmap>, fetch: Fetch, ghost before: seq<Step>)
        returns (r: Result<Bitmap, LoadError>)
      requires Valid() && trace == before + Reads
      modifies this, memory, disk
      ensures Valid()
      ensures trace == before + FallbackEffects(inMemory, onDisk, fetch)
      ensures r == FallbackResult(inMemory, onDisk, fetch)
      ensures var copied := Written(MemoryTier, inMemory, onDisk, fetch);
        if copied.Some?
        then MemoryCache.Put(old(memory.entries), memory.entries, url, copied.value, memory.capacity)
        else memory.entries == old(memory.entries)
      ensures var copied := Written(DiskTier, inMemory, onDisk, fetch);
        disk.Dir() == if copied.Some? then DiskCache.Stored(old(disk.Dir()), url, copied.value) else old(disk.Dir())
    {
      if inMemory.Some? {
        return Success(inMemory.value);
      }
      SaveToCache(url, MemoryTier, onDisk);
      if onDisk.Some? {
        assert trace == before + (Reads + [Write(MemoryTier, onDisk.value)]);
        return Success(onDisk.value);
      }
      trace := trace + [Download];
      assert trace == before + (Reads + [Download]);
      match fetch {
        case FetchFailed(cause) =>
          r := Failure(NetworkError(cause));
        case Fetched(bitmap) =>
          SaveToCache(url, MemoryTier, bitmap);
          SaveToCache(url, DiskTier, bitmap);
          if bitmap.Some? {
            assert trace == before + (Reads + [Download, Write(MemoryTier, bitmap.value), Write(DiskTier, bitmap.value)]);
            r := Success(bitmap.value);
          } else {
            r := Failure(NoSuchElement);
          }
      }
    }

    /** `clearCache()`: clears the disk cache, then the memory cache; afterwards neither holds any URL. */
    method ClearCache()
      requires Valid()
      modifies this, memory, disk
      ensures Valid()
      ensures trace == old(trace) + [Clear(DiskTier), Clear(MemoryTier)]
      ensures memory.entries == map[] && disk.Dir() == DiskCache.Emptied(old(disk.Dir()))
      ensures forall url :: Cached(MemoryTier, url).None? && Cached(DiskTier, url).None?
    {
      disk.Clear();
      trace := trace + [Clear(DiskTier)];
      memory.Clear();
      trace := trace + [Clear(MemoryTier)];
      forall url
        ensures Cached(DiskTier, url).None?
      {
        DiskCache.FindAfterEmptied(old(disk.Dir()), url);
      }
    }
  }
}
