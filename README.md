# Rx-Image-Loader: a Dafny model of the photo loader and its two caches

`PhotoLoader` resolves an image URL to a bitmap from three sources, cheapest first:
1. the in-memory cache (`MemoryBitmapCache`, an `LruCache`);
2. the disk cache (`DiskBitmapCache`, one file per URL in the app's cache directory). A disk hit is copied into memory.
3. the network. A downloaded bitmap is copied into memory, then onto disk.

The loader builds this fallback from RxJava 1 operators:
`concat(memory, disk, defer(network)).first(bitmap -> bitmap != null)`.

The model has one module per core source file, plus three supporting modules: `Optional`, `FormUrlEncoding` and `Rx`.

| module | file | models |
|---|---|---|
| `Optional` | optional.dfy | Java `null` as `None`; outcomes that can fail as `Result` |
| `Images` | images.dfy | `Image.java`: the `Source` enum and the `Image` constructor's null check |
| `BitmapCaches` | bitmap_caches.dfy | `BitmapCache.java`: the two implementations as a `Tier`, and each tier's fixed source and name |
| `FormUrlEncoding` | form_url_encoding.dfy | `URLEncoder.encode(key, "UTF-8")`, used by `encodeKey`, with a decoder that undoes it |
| `MemoryCache` | memory_cache.dfy | `MemoryBitmapCache.java`: a class over a bounded map, and the `CACHE_SIZE_BYTES` constant |
| `DiskCache` | disk_cache.dfy | `DiskBitmapCache.java`: a class over a directory, which is a "directory exists" flag plus a map from file name to bitmap |
| `Rx` | rx.dfy | the operators the loader uses: `just`, `doOnNext`, `concat`, `first(predicate)` |
| `Photos` | photos.dfy | `PhotoLoader.java`: the pipeline, its sequential reading, and a `PhotoLoader` class that updates both caches |

## How the pieces fit

**Rx events.** An observable is modelled by what one subscription to it produces, in order. That is a sequence of events:
- `Effect(step)`: a cache read, a cache write, the download, or a clear;
- `Next`, `Error` or `Completed`: the signals the subscriber receives.

A source that `concat` never reaches, or that `first` abandons, adds no events. This is how the deferred network call is skipped on a cache hit.

**Pipeline.** `Photos.FindImageSource` is the pipeline written operator by operator. `Photos.FindImageSourceIsSequentialFallback` proves it equal to a plain memory → disk → network fallback, for every cache state and every network outcome. This covers effects and signals alike, in order.

**Loader class.** `Photos.PhotoLoader.Load` is the imperative loader. It holds both cache objects and keeps a ghost `trace` of the steps taken. Its postcondition ties three things to the pipeline:
- the new trace;
- what the subscriber receives;
- the new contents of both caches.

Every case lemma about the pipeline therefore describes `Load` as well.

**What the proofs establish about the code:**
- Both caches are read whenever a load starts, so the disk is read even on a memory hit (`ReadsBothCachesFirst`).
- The network is called exactly once after two misses, and never otherwise (`DownloadsOnlyWhenBothMiss`).
- A null bitmap is never written, and the disk is written only after a download (`Backfill`).
- Every back-fill happens before the bitmap reaches the subscriber (`DeliversAtMostOneBitmap`).
- A network result of null ends in `NoSuchElementException` (`NetworkMiss`).
- `clear` on the disk cache deletes the cache directory itself (DiskBitmapCache.java:103). Every later `save` then fails to open its file, and the exception is caught, so nothing more is stored on disk (`StoreAfterEmptiedIsLost`, `LoadAfterClear`).
- A key whose escape is longer than the file system's name limit (255 bytes on ext4 and f2fs) is never stored on disk. Escaping triples every `/ : ? = &`, so long image URLs reach it (`LongKeyIsLost`); keys of at most 21 characters always fit (`ShortKeyFits`).
- An overflowing `save` to the memory cache evicts exactly one other entry (`PutEvictsAtMostOne`).
- `CACHE_SIZE_BYTES` narrows a `long` to an `int`. For a heap limit of `Long.MAX_VALUE` it wraps to -1821066134 (`UnlimitedHeapWrapsNegative`).

**Notes on the code as written:**
- The back-fill runs synchronously in `doOnNext` (PhotoLoader.java:70, 78-79), before the bitmap reaches the subscriber. `load` returns a bare `Bitmap`, with no record of the cache it came from (PhotoLoader.java:56). `Image` and its `Source` (Image.java) are not used by the loader.
- `CACHE_SIZE_BYTES` is named and commented as a size in bytes (MemoryBitmapCache.java:12-16), but the `LruCache` is created without a `sizeOf` (MemoryBitmapCache.java:18), so every entry has size 1 and the constant bounds the number of entries.
- `DiskBitmapCache.getSource()` returns `ImageSource` (DiskBitmapCache.java:49-52), while the interface declares `Image.Source` (BitmapCache.java:19). This revision therefore does not compile as written. The model uses the one enum, `Images.Source`, with DISK for the disk cache.

## Model

| member | source | states |
|---|---|---|
| Images.NewImage | app/src/main/java/me/saket/rxtest/data/Image.java:41-45 | the constructor fails exactly when the bitmap is null; otherwise the image holds exactly the bitmap and the source passed in |
| Images.NewImageFromFields | app/src/main/java/me/saket/rxtest/data/Image.java:41-45 | building an image from any image's own bitmap and source gives back that image |
| BitmapCaches.SourceOf | app/src/main/java/me/saket/rxtest/data/MemoryBitmapCache.java:30-33 | a cache reports MEMORY or DISK as its source, never NETWORK |
| BitmapCaches.SourceIdentifiesTier | app/src/main/java/me/saket/rxtest/data/BitmapCache.java:16-19 | each cache reports a fixed source of its own: two tiers reporting the same source are the same tier |
| BitmapCaches.NameOf | app/src/main/java/me/saket/rxtest/data/MemoryBitmapCache.java:25-28 | each cache reports a fixed, non-empty name ending in " Cache" ("Memory Cache", "Disk Cache") |
| MemoryCache.CacheSizeBytes | app/src/main/java/me/saket/rxtest/data/MemoryBitmapCache.java:15-16 | `CACHE_SIZE_BYTES` for a heap limit: always a 32-bit `int`, after the narrowing cast |
| MemoryCache.NarrowToInt | app/src/main/java/me/saket/rxtest/data/MemoryBitmapCache.java:15-16 | the `(int)` cast yields a 32-bit value congruent to its argument modulo 2^32, and the argument itself when that fits |
| MemoryCache.CacheSizeIsHeapFraction | app/src/main/java/me/saket/rxtest/data/MemoryBitmapCache.java:15-16 | while it fits in an `int`, the constant is `maxMemory / 1024 / 2000` in integer division, i.e. `maxMemory / 2048000`, and it is at least 1 exactly when the heap holds 2,048,000 bytes |
| MemoryCache.UnlimitedHeapWrapsNegative | app/src/main/java/me/saket/rxtest/data/MemoryBitmapCache.java:15-18 | a heap limit of `Long.MAX_VALUE` narrows to the negative size -1821066134 |
| MemoryCache.PutReplacesExisting | app/src/main/java/me/saket/rxtest/data/MemoryBitmapCache.java:48-51 | saving over a key already present replaces its bitmap and evicts nothing |
| MemoryCache.PutEvictsAtMostOne | app/src/main/java/me/saket/rxtest/data/MemoryBitmapCache.java:48-51 | a `put` into a map within capacity adds only its own key and removes at most one other entry, exactly one when the map overflows |
| MemoryCache.MemoryBitmapCache.constructor | app/src/main/java/me/saket/rxtest/data/MemoryBitmapCache.java:15-18 | the cache starts empty with capacity `CACHE_SIZE_BYTES`, which must be at least 1 |
| MemoryCache.MemoryBitmapCache.Get | app/src/main/java/me/saket/rxtest/data/MemoryBitmapCache.java:43-46 | returns the bitmap stored under the key, and null exactly when the key is absent |
| MemoryCache.MemoryBitmapCache.ContainsKey | app/src/main/java/me/saket/rxtest/data/MemoryBitmapCache.java:35-41 | true exactly when `get` would return non-null |
| MemoryCache.MemoryBitmapCache.Save | app/src/main/java/me/saket/rxtest/data/MemoryBitmapCache.java:48-51 | afterwards the key holds the bitmap and the map is within capacity; every other entry is an unchanged earlier one; nothing is evicted when everything fits, and an overflowing save leaves the map exactly full |
| MemoryCache.MemoryBitmapCache.Clear | app/src/main/java/me/saket/rxtest/data/MemoryBitmapCache.java:53-56 | the map is empty, so `get` returns null for every key |
| DiskCache.Find | app/src/main/java/me/saket/rxtest/data/DiskBitmapCache.java:62-78 | `get(key)` on a directory value: a non-null result comes from an existing directory and is the content of one of its files |
| DiskCache.Stored | app/src/main/java/me/saket/rxtest/data/DiskBitmapCache.java:80-92 | `save(key, bitmap)` on a directory value: the directory neither appears nor disappears, no file but the key's own is added, and every other file is unchanged |
| DiskCache.Emptied | app/src/main/java/me/saket/rxtest/data/DiskBitmapCache.java:94-105 | `clear()` on a directory value: the result is well formed and `get` finds nothing in it for any key |
| DiskCache.EncodeKey | app/src/main/java/me/saket/rxtest/data/DiskBitmapCache.java:116-123 | the file name of a key contains neither `/` nor `\` |
| DiskCache.KeyFileName | app/src/main/java/me/saket/rxtest/data/DiskBitmapCache.java:81-86 | the escaped key can be opened as a file inside the directory exactly when the key is not "", "." or ".." and its escape is at most 255 characters |
| DiskCache.DistinctKeysDistinctFiles | app/src/main/java/me/saket/rxtest/data/DiskBitmapCache.java:116-118 | distinct keys are stored in distinct files |
| DiskCache.ShortKeyFits | app/src/main/java/me/saket/rxtest/data/DiskBitmapCache.java:81-86 | a key of at most 21 characters has an escape short enough to open as a file |
| DiskCache.LongKeyIsLost | app/src/main/java/me/saket/rxtest/data/DiskBitmapCache.java:81-91 | a key whose escape exceeds the name limit is never stored, and `get` never finds it |
| DiskCache.FindAfterStore | app/src/main/java/me/saket/rxtest/data/DiskBitmapCache.java:81-87 | `get` after `save` returns the saved bitmap, when the directory exists and the key's escape can be opened as a file |
| DiskCache.StoreTwice | app/src/main/java/me/saket/rxtest/data/DiskBitmapCache.java:81-87 | saving a key twice leaves only the later bitmap |
| DiskCache.StoreKeepsOtherKeys | app/src/main/java/me/saket/rxtest/data/DiskBitmapCache.java:81-83 | saving one key leaves `get` of every other key unchanged |
| DiskCache.FindAfterEmptied | app/src/main/java/me/saket/rxtest/data/DiskBitmapCache.java:94-105 | after `clear`, `get` returns null for every key |
| DiskCache.StoreAfterEmptiedIsLost | app/src/main/java/me/saket/rxtest/data/DiskBitmapCache.java:81-105 | once `clear` has deleted the directory, `save` stores nothing |
| DiskCache.StoreKeepsWellFormed | app/src/main/java/me/saket/rxtest/data/DiskBitmapCache.java:81-105 | `save` and `clear` keep the invariant: a missing directory holds no files, and every file has a proper name |
| DiskCache.DiskBitmapCache.constructor | app/src/main/java/me/saket/rxtest/data/DiskBitmapCache.java:26-28 | the cache starts over the existing cache directory and the files already in it |
| DiskCache.DiskBitmapCache.Get | app/src/main/java/me/saket/rxtest/data/DiskBitmapCache.java:62-78 | returns the bitmap in the file named exactly by the escaped key; null when there is no such file or no directory |
| DiskCache.DiskBitmapCache.ContainsKey | app/src/main/java/me/saket/rxtest/data/DiskBitmapCache.java:54-60 | true exactly when `get` would return non-null |
| DiskCache.DiskBitmapCache.Save | app/src/main/java/me/saket/rxtest/data/DiskBitmapCache.java:80-92 | writes or overwrites the key's file; when opening the file fails, the state is unchanged and no error escapes |
| DiskCache.DiskBitmapCache.Clear | app/src/main/java/me/saket/rxtest/data/DiskBitmapCache.java:94-105 | every listed file is deleted, then the directory itself |
| FormUrlEncoding.Encode | app/src/main/java/me/saket/rxtest/data/DiskBitmapCache.java:116-118 | `URLEncoder.encode(s, "UTF-8")`: the escape is at least as long as `s` and at most twelve characters per character of `s` |
| FormUrlEncoding.Utf8Bytes | app/src/main/java/me/saket/rxtest/data/DiskBitmapCache.java:116-118 | a character's UTF-8 encoding is one to four bytes; its first byte gives their number, and together they carry the character |
| FormUrlEncoding.PercentRoundTrip | app/src/main/java/me/saket/rxtest/data/DiskBitmapCache.java:116-118 | reading back the `%XY` escapes of some bytes recovers those bytes, whatever follows |
| FormUrlEncoding.DecodeCharRoundTrip | app/src/main/java/me/saket/rxtest/data/DiskBitmapCache.java:116-118 | decoding the escape of a character gives back the character and the length of its escape |
| FormUrlEncoding.DecodeEncode | app/src/main/java/me/saket/rxtest/data/DiskBitmapCache.java:116-118 | decoding undoes `URLEncoder.encode(s, "UTF-8")` for every string |
| FormUrlEncoding.EncodeInjective | app/src/main/java/me/saket/rxtest/data/DiskBitmapCache.java:116-118 | two keys with the same escape are equal |
| FormUrlEncoding.EncodedChars | app/src/main/java/me/saket/rxtest/data/DiskBitmapCache.java:116-118 | the escape consists only of letters, digits, `- _ . *`, `+` and `%` |
| FormUrlEncoding.NoPathSeparator | app/src/main/java/me/saket/rxtest/data/DiskBitmapCache.java:109-118 | the escape contains neither `/` nor `\` |
| Rx.FirstNext | app/src/main/java/me/saket/rxtest/data/PhotoLoader.java:82-88 | `first` delivers an accepted value and completes; a rejected one is skipped |
| Rx.ConcatCompleted | app/src/main/java/me/saket/rxtest/data/PhotoLoader.java:82-83 | once the first source completes, `concat` continues with the second |
| Rx.FirstDeliversAtMostOne | app/src/main/java/me/saket/rxtest/data/PhotoLoader.java:82-88 | `first` delivers at most one value, only one that satisfies the predicate, and nothing after it but completion |
| Photos.DiskObservableSteps | app/src/main/java/me/saket/rxtest/data/PhotoLoader.java:67-70 | the disk observable copies a non-null bitmap into memory, then emits it |
| Photos.NetworkObservableSteps | app/src/main/java/me/saket/rxtest/data/PhotoLoader.java:72-80 | once subscribed, the network observable under `first` downloads; a non-null result is copied into memory, then onto disk, then delivered; null and a thrown exception end in an error |
| Photos.AfterMemoryMiss | app/src/main/java/me/saket/rxtest/data/PhotoLoader.java:67-88 | after a memory miss, a disk hit is copied into memory and delivered; otherwise the network step follows |
| Photos.FindImageSource | app/src/main/java/me/saket/rxtest/data/PhotoLoader.java:60-90 | the subscription to the pipeline starts with the memory read, then the disk read, before anything else |
| Photos.FindImageSourceIsSequentialFallback | app/src/main/java/me/saket/rxtest/data/PhotoLoader.java:60-90 | the Rx pipeline equals the memory → disk → network fallback, effects and signals alike |
| Photos.MemoryHit | app/src/main/java/me/saket/rxtest/data/PhotoLoader.java:82-88 | on a memory hit the bitmap is delivered; the only effects are the two reads, with no download and no write |
| Photos.DiskHit | app/src/main/java/me/saket/rxtest/data/PhotoLoader.java:67-70 | on a memory miss and a disk hit, the disk bitmap is copied into memory and delivered, with no download |
| Photos.NetworkHit | app/src/main/java/me/saket/rxtest/data/PhotoLoader.java:72-80 | after two misses, a downloaded bitmap is copied into memory, then onto disk, and only then delivered |
| Photos.NetworkMiss | app/src/main/java/me/saket/rxtest/data/PhotoLoader.java:74-88 | after two misses, a failing download ends in its exception and a null one in `NoSuchElementException`; no cache is written |
| Photos.DeliversAtMostOneBitmap | app/src/main/java/me/saket/rxtest/data/PhotoLoader.java:82-88 | a load delivers at most one bitmap, never null, and nothing but completion after it |
| Photos.DownloadsOnlyWhenBothMiss | app/src/main/java/me/saket/rxtest/data/PhotoLoader.java:72-80 | the network is called exactly once when both caches miss, and never otherwise |
| Photos.FallbackDownloads | app/src/main/java/me/saket/rxtest/data/PhotoLoader.java:50-55 | the documented fallback downloads once after two misses and never after a hit |
| Photos.ReadsBothCachesFirst | app/src/main/java/me/saket/rxtest/data/PhotoLoader.java:64-69 | every load first reads the memory cache, then the disk cache, even on a memory hit |
| Photos.Backfill | app/src/main/java/me/saket/rxtest/data/PhotoLoader.java:92-101 | a cache is written exactly with the bitmap `Written` names, never null; that bitmap is what the subscriber receives, and the disk is written only after a download |
| Photos.PipelineOutcome | app/src/main/java/me/saket/rxtest/data/PhotoLoader.java:60-90 | the pipeline's effects and signals, for every cache state and network outcome |
| Photos.LoadAfterClear | app/src/main/java/me/saket/rxtest/data/PhotoLoader.java:132-135 | after `clearCache`, a load downloads exactly once; the download is copied into memory, and its copy onto disk is lost |
| Photos.SequentialFallbackOutcome | app/src/main/java/me/saket/rxtest/data/PhotoLoader.java:50-55 | the closed-form effects and outcome are exactly those of the sequential fallback |
| Photos.PhotoLoader.constructor | app/src/main/java/me/saket/rxtest/data/PhotoLoader.java:25-30 | the loader holds the two caches it is given |
| Photos.PhotoLoader.LoadFromCache | app/src/main/java/me/saket/rxtest/data/PhotoLoader.java:107-112 | reads the cache at once and returns what its `get` returns |
| Photos.PhotoLoader.SaveToCache | app/src/main/java/me/saket/rxtest/data/PhotoLoader.java:92-101 | a null bitmap changes nothing; a non-null one is saved in the chosen cache only |
| Photos.PhotoLoader.Load | app/src/main/java/me/saket/rxtest/data/PhotoLoader.java:56-58 | a load's steps and delivered signals are those of the pipeline for what the caches held; each cache afterwards holds exactly what was copied in |
| Photos.PhotoLoader.FirstCachedOrDownloaded | app/src/main/java/me/saket/rxtest/data/PhotoLoader.java:82-88 | given the two reads, the load's steps, its outcome and both caches' new contents follow the fallback |
| Photos.PhotoLoader.ClearCache | app/src/main/java/me/saket/rxtest/data/PhotoLoader.java:132-135 | clears the disk, then memory; afterwards neither cache holds any URL |

## Left out

- Network client: OkHttp, the HTTP request and bitmap decoding are not modelled. The outcome of `NetworkClient.loadImage` is a parameter of `Load`: a bitmap, null, or a thrown exception.
- Timeout: `TIMEOUT_DELAY_SECS` is never applied to the client, so no timeout is modelled.
- Singletons and locking: the lazy singletons with double-checked locking and the `synchronized` blocks are concurrency concerns. A load is one subscription on one thread.
- Concurrency and cancellation: concurrent loads, a `clearCache` racing with a load's back-fill, and a subscriber that unsubscribes from a load still in progress (MainActivity.java:47-49, 57-60) are not modelled. An unsubscription can stop a load part way, for example after the download but before the back-fill; in the model, `Load` always runs to the end.
- Image encoding: PNG compression on `save` and `BitmapFactory` decoding on `get` are taken as inverse. A bitmap is an opaque, non-null value.
- Other I/O failures: a file that cannot be read, and a failed `delete`, are not modelled. The failures modelled are a missing directory, a key whose escape is "", "." or "..", and an escape longer than 255 characters.
- `DiskCache.DiskBitmapCache.Save`: does not model the write failures that depend on the device rather than on the key. Permission denied and a read-only file system fail when the file is opened, and store nothing. No space left fails during the write, after the open has already created or truncated the file: an earlier copy of the key is lost, and an empty or partial file remains, which `get` decodes as null or as a damaged bitmap. The model stores the whole bitmap in every one of these cases.
- `MemoryCache.MemoryBitmapCache.constructor`: requires `CACHE_SIZE_BYTES` to be at least 1. For a smaller or negative value, such as the -1821066134 of an unlimited heap (`UnlimitedHeapWrapsNegative`), `LruCache` throws `IllegalArgumentException` and the class `MemoryBitmapCache` fails to initialise; that failure is not modelled.
- `Images.NewImage`: Java's `Image` has public, non-final fields that can be reassigned after construction, and it accepts a null `source`. The model's `Image` is an immutable value whose source is never null.
- Unclosed stream: `readBitmapFromFile` never closes its input stream. Resources are not modelled.
- Logging: `Log.*`, `logCacheSource`, `printStackTrace`, and `getName` beyond its fixed value (`BitmapCaches.NameOf`) are not modelled.
- `DiskCache.EncodeKey`: the `UnsupportedEncodingException` branch that returns null is not modelled. Every Java platform must support UTF-8, so the branch is unreachable.
- Unpaired surrogates: strings are sequences of Unicode scalar values. Java strings may hold unpaired UTF-16 surrogates, which `URLEncoder` writes as `%3F`, and these are not modelled.
- `MemoryCache.MemoryBitmapCache.Save`: does not claim least-recently-used order. The entry `LruCache.trimToSize` evicts is any entry other than the one just saved; how many are evicted is modelled (one, and only when the map overflows), which one is not.
- `MemoryCache.MemoryBitmapCache.Get`: does not model the recency update `LruCache.get` makes, since eviction order is not modelled.
- `Photos.PhotoLoader.Load`: the trace of steps is ghost state. Multiple subscriptions to the same observable are not modelled.
- Duplicate enum: `ImageSource.java` duplicates `Image.Source`. The model has a single `Source` enum.
- UI: `MainActivity` and `SourceIdentifiableDrawable` are not part of this model.
