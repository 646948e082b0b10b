# DNS LRU cache — a verified model

This project models `dns_cache::DNSCache`, a fixed-capacity cache that maps
host names to IP addresses and evicts the least recently used entry.

- The cache has a capacity `maxSize`, an index `umap` from name to a handle
  into the recency list, and the recency list `listDataBlock` itself.
- The list holds `DataBlock(ip, pname)` entries, the most recently used first.
- `update(name, ip)`:
  - a cached name gets the new address, and its entry is spliced to the front;
  - a new name arrives at a full cache: the back entry is popped and its name
    erased from the index first;
  - a new entry is then placed at the front and indexed.
- `resolve(name)`:
  - returns the stored address and splices the entry to the front;
  - returns the empty string on a miss and changes nothing.
- `TrySetMaxSize` sets the process-wide default capacity when it lies strictly
  between 128 and 2^20.

The project has four modules.

- `lru.dfy` (module `Lru`) holds the recency list as a value.
  - `Updated`, `Resolved` and `ResolvedValue` state what `update` and `resolve`
    do to the list.
  - `ToMap` is the name-to-address dictionary the list stands for.
  - The lemmas state the promises: round trips, exact eviction of the back
    entry, the dictionary view of each operation, and invariants kept.
- `dns_cache.dfy` (module `DnsCache`) holds the cache object.
  - The class `DNSCache` has the three fields of the C++ class.
  - Its methods change them step by step, as the C++ code does.
  - Each method is proved to leave the list equal to the specification
    function of the old list, and to keep the index and the list in agreement
    (`Valid`).
  - A handle is modelled as the entry's position in the list. The steps that
    move entries (splice, push to the front) therefore recompute the handles
    they shift.
  - The class `Settings` holds the default capacity and `TrySetMaxSize`.
- `retention.dfy` (module `Retention`) follows a run of updates.
  - It proves that after at most `maxSize` updates, every name stored resolves
    to the last address stored under it, however full the cache was before.
- `scenarios.dfy` (module `Scenarios`) holds the single-threaded test
  scenarios and the protection from eviction that a lookup gives.
  - The scenarios are written as clients that only rely on the method
    contracts.

## Model

| member | source | states |
|---|---|---|
| `Lru.Find` | dns_cache.cpp:30 | the lookup of a name: a found position holds that name and is its first occurrence; not found means no entry has that name |
| `Lru.Without` | dns_cache.cpp:33 | the list left when a name's entry is unlinked: no longer, and no entry of it carries that name |
| `Lru.MoveToFront` | dns_cache.cpp:33 | the splice to the front keeps the length, puts the chosen entry first and is a permutation of the list |
| `Lru.Updated` | dns_cache.cpp:26-50 | after `update` the list is non-empty, within the capacity, and starts with the new `(ip, name)` entry |
| `Lru.Resolved` | dns_cache.cpp:56-69 | `resolve` only reorders the list (same multiset of entries), and puts an entry stored under the name first exactly when the name is in the list |
| `Lru.ResolvedValue` | dns_cache.cpp:60-68 | the answer of `resolve` is either the empty string or the address of an entry stored under that name |
| `Lru.ToMap` | dns_cache.h:29-30 | the name-to-address dictionary that the index and the list stand for; its meaning is stated by `Lru.ToMapFind` and `DnsCache.HandlesKeys` |
| `Lru.FindDistinct` | dns_cache.h:29-30 | when names are distinct, the entry at each position is the one found under its name |
| `Lru.ToMapFind` | dns_cache.h:29-30 | the dictionary binds exactly the names present in the list, each to its entry's address |
| `Lru.CutIsWithout` | dns_cache.cpp:33 | with distinct names, unlinking the entry at a position is removing its name, the rest kept in order |
| `Lru.ToMapWithout` | dns_cache.cpp:37-38 | removing a name's entries from the list removes that name, and only it, from the dictionary |
| `Lru.MoveToFrontDistinct` | dns_cache.cpp:33 | the splice keeps names distinct |
| `Lru.UpdatePresent` | dns_cache.cpp:30-33 | updating a cached name gives the new entry followed by every other entry in its old order; the size is unchanged |
| `Lru.UpdateNewWithRoom` | dns_cache.cpp:44-49 | a new name below capacity is put in front of the unchanged list; the size grows by one |
| `Lru.UpdateNewWhenFull` | dns_cache.cpp:35-49 | a new name at capacity evicts exactly the back entry: that name is gone, the rest keep their order, the size stays at the capacity |
| `Lru.UpdateKeepsInvariant` | dns_cache.cpp:26-50 | `update` keeps the names in the list distinct |
| `Lru.UpdateThenResolve` | dns_cache.cpp:26-69 | round trip: right after `update(name, ip)`, `resolve(name)` returns `ip` and does not reorder the list |
| `Lru.UpdateAsMap` | dns_cache.cpp:26-50 | as a dictionary, `update` binds the name to the new address; the only other change is the removal of the back entry's name when a new name meets a full cache |
| `Lru.ResolveHit` | dns_cache.cpp:61-64 | resolving a cached name returns its address and moves its entry to the front; the others keep their order |
| `Lru.ResolveMiss` | dns_cache.cpp:60-68 | resolving an uncached name returns the empty string and leaves the list unchanged |
| `Lru.ResolveKeepsContents` | dns_cache.cpp:61-65 | `resolve` only reorders: the dictionary, the multiset of entries and distinct names are all kept |
| `DnsCache.HandlesAgreeWithFind` | dns_cache.h:29-30 | a consistent index implies distinct names in the list, and the index lookup agrees with a search of the list |
| `DnsCache.HandlesMatch` | dns_cache.h:29-30 | each indexed name holds the position of the entry stored under it, and each entry's name is indexed with that entry's position; its consequences are stated by `DnsCache.HandlesAgreeWithFind` and `DnsCache.HandlesKeys` |
| `DnsCache.HandlesKeys` | dns_cache.h:29-30 | a consistent index holds exactly the names of the dictionary the list stands for |
| `DnsCache.UpdatedByHandles` | dns_cache.cpp:30-49 | the outcome of `update` read off the index: the overwrite and splice of the indexed entry, or the push after an optional eviction |
| `DnsCache.ResolvedByHandles` | dns_cache.cpp:61-64 | the outcome of `resolve` read off the index: a splice of the indexed entry and its address, or no change and the empty string |
| `DnsCache.SpliceKeepsHandles` | dns_cache.cpp:33 | after a splice to the front, the recomputed handles point exactly at the entries; the index keeps its size |
| `DnsCache.PushFrontKeepsHandles` | dns_cache.cpp:44-49 | inserting a new name at the front with handle 0, the shifted handles still agree with the list; the index grows by one |
| `DnsCache.PopBackKeepsHandles` | dns_cache.cpp:36-38 | popping the back entry and erasing its name keeps index and list in agreement; the index shrinks by one |
| `DnsCache.OverwriteKeepsHandles` | dns_cache.cpp:31-32 | overwriting an entry's address in place leaves every handle valid |
| `DnsCache.DNSCache.constructor` | dns_cache.cpp:23-24 | a new cache has the given capacity and empty index and list |
| `DnsCache.DNSCache.Valid` | dns_cache.h:28-30 | the cache invariant: positive capacity, as many index entries as list entries and no more than the capacity, and a consistent index (`DnsCache.HandlesMatch`) |
| `DnsCache.DNSCache.Update` | dns_cache.cpp:26-54 | keeps the cache consistent and the capacity fixed, and leaves the list equal to `Updated` of the old list |
| `DnsCache.DNSCache.Splice` | dns_cache.cpp:33 | moves the entry at a position to the front, recomputing handles, and keeps the cache consistent |
| `DnsCache.DNSCache.EvictBack` | dns_cache.cpp:35-42 | drops the back entry from the list and exactly its name from the index; the defensive branch for a back name missing from the index is proved unreachable |
| `DnsCache.DNSCache.PushFront` | dns_cache.cpp:44-49 | places an entry with an uncached name at the front and indexes it, keeping the cache consistent |
| `DnsCache.DNSCache.Resolve` | dns_cache.cpp:56-69 | returns `ResolvedValue` of the old list, leaves the list equal to `Resolved` of it, and on a miss leaves index and list unchanged |
| `DnsCache.Settings.constructor` | dns_cache.cpp:8 | the default capacity starts at 1024 |
| `DnsCache.Settings.TrySetMaxSize` | dns_cache.cpp:11-17 | accepts exactly the sizes strictly between 128 and 2^20, stores an accepted one, keeps the old value otherwise, and reports which |
| `Scenarios.MissThenRoundTrip` | test.cpp:38-46 | a fresh cache of capacity 10 misses on `""` and `"aaa"`, then resolves `"aaa"` to `"bbb"` after storing it |
| `Scenarios.FillThenEvict` | test.cpp:48-69 | filling to capacity, then a second round of lookups: all hit; list and index sizes equal the capacity after the fill, after the second round and after one more store; the new name resolves; the first name stored is evicted |
| `Scenarios.Fill` | test.cpp:53-58 | storing distinct names and resolving each at once: every lookup hits, and the list holds the entries newest first |
| `Scenarios.FillOne` | test.cpp:54-55 | one store of a fresh name and the lookup right after it: the lookup hits, and the name becomes the newest entry |
| `Scenarios.Recall` | test.cpp:59-62 | resolving every entry again in storage order: every lookup hits, and the list ends in the order it started |
| `Scenarios.RecallOne` | test.cpp:60 | one lookup of the second round hits and moves the entry from the back to the front |
| `Scenarios.RecallStep` | test.cpp:60 | each lookup of the second round finds its entry at the back, returns its address and moves it to the front |
| `Scenarios.TouchBack` | dns_cache.cpp:63 | resolving the back entry moves it to the front and keeps the others in order |
| `Scenarios.ResolveProtectsFromEviction` | dns_cache.cpp:61-63 | on a full cache, resolving the least recently used name and then storing a new name keeps the resolved name and evicts the second-to-last entry instead |
| `Retention.Apply` | dns_cache.cpp:26-50 | the list after a run of updates never exceeds the capacity |
| `Retention.Recent` | test.cpp:79-85 | one entry per name stored in a run, so never more entries than updates |
| `Retention.ToMapRecent` | test.cpp:79-85 | the recent entries bind each name of the run to the last address stored under it, like the test's dictionary |
| `Retention.ApplyKeepsRecent` | dns_cache.cpp:26-50 | after at most `maxSize` updates, the recent entries form a prefix of the list, and names stay distinct |
| `Retention.ToMapAppend` | dns_cache.h:29-30 | a name bound by the front part of the list keeps that binding whatever follows |
| `Retention.RecentUpdatesRetained` | dns_cache.cpp:26-50 | retention: after at most `maxSize` updates on any cache, every name stored resolves to the last address stored under it |
| `Scenarios.TwoRounds` | test.cpp:71-102 | two rounds of at most `maxSize` updates with any names, each followed by lookups of names stored in it: every lookup returns the last address stored under that name in its round |
| `Scenarios.Round` | test.cpp:91-101 | one round on a cache in any state: every lookup of a name stored in the round returns its last address |
| `Scenarios.StoreAll` | test.cpp:92-97 | storing a run of updates through `Update` leaves the list that `Retention.Apply` describes |
| `Scenarios.ResolveAll` | test.cpp:99-101 | a run of lookups keeps the dictionary, and each answer is the dictionary's binding or the empty string |
| `Scenarios.ResolveOne` | dns_cache.cpp:56-69 | one lookup answers from the dictionary and does not change it |

## Left out

- Concurrency is not modelled: the mutex, the condition variable and the
  `countUpdater` counter (dns_cache.h:32-34, dns_cache.cpp:27-28, 52-53,
  57-58, 67). The model is the sequential behaviour, one call at a time.
- The `Cache()` singleton (dns_cache.cpp:18-21) and the macros around it are
  not modelled. It builds one cache from the default capacity on first use;
  `Settings` keeps only that capacity.
- main.cpp is not part of this model.
- The hash table's and the list's cost (constant-time lookup, splice and
  eviction) is not modelled.
- `DataBlock.pname` is a pointer into the index's key in dns_cache.h:25. The model
  stores the name itself, so the pointer's lifetime and aliasing are not
  modelled.
- List iterators are not modelled. A handle is the entry's position, and the
  model recomputes the positions that a splice or a push to the front shifts.
  Iterator stability across these operations is therefore not captured.
- The `insertOk` check after `emplace` (dns_cache.cpp:44-47) has an empty
  branch. In the model the name is known not to be in the index at that
  point (a requirement of `PushFront`), so the insertion always succeeds.
- `size_t` arithmetic is modelled with unbounded naturals. The sizes involved
  never exceed the capacity, so no wrap-around can occur.
- `DnsCache.DNSCache.constructor` requires a positive capacity. With capacity
  0 the first `update` of a new name in dns_cache.cpp would read the back of
  an empty list. Every capacity the C++ code builds a cache with is
  positive: the default is above 128, and the tests use 10, 512 and 10000.
- test.cpp's third test draws its names and addresses at random. The model
  takes them as parameters of `Scenarios.TwoRounds`: any two rounds of at
  most `maxSize` updates, with any repeated names.
- test.cpp's fourth test is not modelled: it updates and resolves from
  several threads at once.
- test.cpp's key and value strings (`MakeString("key", i)`) become an
  arbitrary sequence of entries with distinct names, plus one extra entry
  whose name is new.
- `resolve` returns the empty string both on a miss and for a name stored
  with an empty address. The model keeps this ambiguity, as dns_cache.cpp
  does.
