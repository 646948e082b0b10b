/**
 Sequential uses of the cache: the single-threaded test scenarios, written
 as clients that can only rely on the contracts of `Update` and `Resolve`,
 and the protection a lookup gives an entry against eviction.
 */
module Scenarios {
  import opened Lru
  import opened DnsCache
  import opened Retention

  /** The entries newest first: the recency order that storing them one
      after the other, each under a fresh name, leaves behind. */
  function NewestFirst(s: seq<DataBlock>): (r: seq<DataBlock>)
    ensures |r| == |s|
  {
    if s == [] then [] else [s[|s| - 1]] + NewestFirst(s[..|s| - 1])
  }

  lemma {:induction false} NewestFirstAt(s: seq<DataBlock>, k: nat)
    requires k < |s|
    ensures NewestFirst(s)[k] == s[|s| - 1 - k]
  {
    if k > 0 {
      NewestFirstAt(s[..|s| - 1], k - 1);
    }
  }

  /** A fresh cache of capacity 10 misses on "" and on "aaa", and after
      `update("aaa", "bbb")` resolves "aaa" to "bbb". */
  method MissThenRoundTrip() returns (missEmpty: string, missAaa: string, hit: string)
    ensures missEmpty == "" && missAaa == "" && hit == "bbb"
  {
    var cache := new DNSCache(10);
    missEmpty := cache.Resolve("");
    missAaa := cache.Resolve("aaa");
    cache.Update("aaa", "bbb");
    hit := cache.Resolve("aaa");
  }

  /** Filling a cache of capacity |entries| with entries of distinct names,
      each resolved right after it is stored, resolving them all once more
      in the order they were stored, then storing one more new name: every
      lookup of both rounds hits, both structures hold exactly the capacity
      after the fill, after the second round and after the last store, the
      new name resolves, and the first name stored (again the least
      recently used one) is gone. */
  method FillThenEvict(entries: seq<DataBlock>, extra: DataBlock)
    returns (fillHit: bool, recallHit: bool, filled: nat, recalled: nat, evicted: nat, sizesAgree: bool,
             extraHit: string, firstMiss: string)
    requires 0 < |entries| && DistinctNames(entries)
    requires forall j :: 0 <= j < |entries| ==> entries[j].pname != extra.pname
    ensures fillHit && recallHit
    ensures filled == recalled == evicted == |entries| && sizesAgree
    ensures extraHit == extra.ip
    ensures firstMiss == ""
  {
    var n := |entries|;
    var cache := new DNSCache(n);
    fillHit := Fill(cache, entries);
    filled, sizesAgree := |cache.listDataBlock|, |cache.listDataBlock| == |cache.umap|;
    recallHit := Recall(cache, entries);
    recalled, sizesAgree := |cache.listDataBlock|, sizesAgree && |cache.listDataBlock| == |cache.umap|;
    FullFacts(entries, extra);
    ghost var full := NewestFirst(entries);
    UpdateNewWhenFull(full, n, extra.pname, extra.ip);
    UpdateThenResolve(full, n, extra.pname, extra.ip);
    cache.Update(extra.pname, extra.ip);
    evicted, sizesAgree := |cache.listDataBlock|, sizesAgree && |cache.listDataBlock| == |cache.umap|;
    extraHit := cache.Resolve(extra.pname);
    firstMiss := cache.Resolve(entries[0].pname);
  }

  /** Stores the entries one after the other into an empty cache of
      capacity |entries|, resolving each right after storing it; reports
      whether every one of those lookups hit. */
  method Fill(cache: DNSCache, entries: seq<DataBlock>) returns (allHit: bool)
    requires cache.Valid() && cache.maxSize == |entries| && cache.listDataBlock == []
    requires DistinctNames(entries)
    modifies cache
    ensures cache.Valid() && cache.maxSize == |entries|
    ensures cache.listDataBlock == NewestFirst(entries)
    ensures allHit
  {
    var n := |entries|;
    allHit := true;
    var i := 0;
    while i < n
      invariant 0 <= i <= n
      invariant cache.Valid() && cache.maxSize == n
      invariant cache.listDataBlock == NewestFirst(entries[..i])
      invariant allHit
    {
      var hit := FillOne(cache, entries, i);
      allHit := allHit && hit;
      i := i + 1;
    }
    assert entries[..n] == entries;
  }

  /** The `i`-th store of the fill and the lookup right after it. */
  method FillOne(cache: DNSCache, entries: seq<DataBlock>, i: nat) returns (hit: bool)
    requires i < |entries| && DistinctNames(entries)
    requires cache.Valid() && cache.maxSize == |entries|
    requires cache.listDataBlock == NewestFirst(entries[..i])
    modifies cache
    ensures cache.Valid() && cache.maxSize == |entries|
    ensures cache.listDataBlock == NewestFirst(entries[..i + 1])
    ensures hit
  {
    var e := entries[i];
    FillStep(entries, i);
    UpdateNewWithRoom(NewestFirst(entries[..i]), |entries|, e.pname, e.ip);
    UpdateThenResolve(NewestFirst(entries[..i]), |entries|, e.pname, e.ip);
    cache.Update(e.pname, e.ip);
    var got := cache.Resolve(e.pname);
    hit := got == e.ip;
  }

  /** Resolves every entry once more, in the order they were stored, on a
      cache that holds them newest first; reports whether every lookup
      returned the stored address. Each lookup takes the back entry to the
      front, so the order the cache ends in is the one it started from. */
  method Recall(cache: DNSCache, entries: seq<DataBlock>) returns (allHit: bool)
    requires cache.Valid() && cache.listDataBlock == NewestFirst(entries)
    modifies cache
    ensures cache.Valid() && cache.maxSize == old(cache.maxSize)
    ensures cache.listDataBlock == NewestFirst(entries)
    ensures allHit
  {
    ghost var m := cache.maxSize;
    allHit := true;
    var j := 0;
    RecallEnds(entries);
    while j < |entries|
      invariant j <= |entries|
      invariant cache.Valid() && cache.maxSize == m
      invariant cache.listDataBlock == SecondRound(entries, j)
      invariant allHit
    {
      var hit := RecallOne(cache, entries, j);
      allHit := allHit && hit;
      j := j + 1;
    }
  }

  /** The `j`-th lookup of the second round. */
  method RecallOne(cache: DNSCache, entries: seq<DataBlock>, j: nat) returns (hit: bool)
    requires j < |entries|
    requires cache.Valid() && cache.listDataBlock == SecondRound(entries, j)
    modifies cache
    ensures cache.Valid() && cache.maxSize == old(cache.maxSize)
    ensures cache.listDataBlock == SecondRound(entries, j + 1)
    ensures hit
  {
    var e := entries[j];
    HandlesAgreeWithFind(cache.umap, cache.listDataBlock, e.pname);
    RecallStep(entries, j);
    var got := cache.Resolve(e.pname);
    hit := got == e.ip;
  }

  /** The list after the first `j` lookups of the second round: the
      entries looked up so far, newest first, in front of the others. */
  function SecondRound(entries: seq<DataBlock>, j: nat): seq<DataBlock>
    requires j <= |entries|
  {
    NewestFirst(entries[..j]) + NewestFirst(entries[j..])
  }

  /** Before the first and after the last lookup of the second round the
      list is the newest-first order of all entries. */
  lemma RecallEnds(entries: seq<DataBlock>)
    ensures SecondRound(entries, 0) == NewestFirst(entries)
    ensures SecondRound(entries, |entries|) == NewestFirst(entries)
  {
    assert entries[..0] == [] && entries[0..] == entries;
    assert entries[..|entries|] == entries && entries[|entries|..] == [];
  }

  /** One lookup of the second round: the entry stored `j`-th is at the
      back; resolving it returns its address and moves it to the front. */
  lemma RecallStep(entries: seq<DataBlock>, j: nat)
    requires j < |entries|
    requires DistinctNames(SecondRound(entries, j))
    ensures ResolvedValue(SecondRound(entries, j), entries[j].pname) == entries[j].ip
    ensures Resolved(SecondRound(entries, j), entries[j].pname) == SecondRound(entries, j + 1)
  {
    var before := NewestFirst(entries[..j]);
    var after := NewestFirst(entries[j + 1..]);
    var l := before + NewestFirst(entries[j..]);
    NewestFirstFront(entries[j..]);
    assert entries[j..][1..] == entries[j + 1..];
    assert l == (before + after) + [entries[j]];
    var n := |l|;
    assert l[n - 1] == entries[j];
    assert l[..n - 1] == before + after;
    TouchBack(l);
    FindDistinct(l, n - 1);
    NewestFirstStep(entries, j);
    assert Resolved(l, entries[j].pname) == [entries[j]] + (before + after);
    ConsAssoc(entries[j], before, after);
  }

  lemma ConsAssoc(x: DataBlock, a: seq<DataBlock>, b: seq<DataBlock>)
    ensures [x] + (a + b) == ([x] + a) + b
  {
  }

  /** Storing the entry at `i` after the ones before it puts it first. */
  lemma NewestFirstStep(entries: seq<DataBlock>, i: nat)
    requires i < |entries|
    ensures NewestFirst(entries[..i + 1]) == [entries[i]] + NewestFirst(entries[..i])
  {
    assert entries[..i + 1][..i] == entries[..i];
  }

  /** The oldest entry is the last one of the newest-first order. */
  lemma {:induction false} NewestFirstFront(s: seq<DataBlock>)
    requires s != []
    ensures NewestFirst(s) == NewestFirst(s[1..]) + [s[0]]
  {
    var n := |s|;
    if n > 1 {
      NewestFirstFront(s[..n - 1]);
      assert s[..n - 1][1..] == s[1..][..n - 2];
      assert s[1..][n - 2] == s[n - 1];
    }
  }

  /** Storing the next fresh name of the fill puts it in front of the
      earlier ones. */
  lemma FillStep(entries: seq<DataBlock>, i: nat)
    requires DistinctNames(entries) && i < |entries|
    ensures Find(NewestFirst(entries[..i]), entries[i].pname).None?
    ensures NewestFirst(entries[..i + 1]) == [entries[i]] + NewestFirst(entries[..i])
  {
    var before := NewestFirst(entries[..i]);
    forall k | 0 <= k < i ensures before[k].pname != entries[i].pname {
      NewestFirstAt(entries[..i], k);
    }
    FindAbsent(before, entries[i].pname);
    NewestFirstStep(entries, i);
  }

  /** After the fill the names are distinct, the first entry stored is at
      the back, and the extra name is not among them. */
  lemma FullFacts(entries: seq<DataBlock>, extra: DataBlock)
    requires 0 < |entries| && DistinctNames(entries)
    requires forall j :: 0 <= j < |entries| ==> entries[j].pname != extra.pname
    ensures DistinctNames(NewestFirst(entries))
    ensures Find(NewestFirst(entries), extra.pname).None?
    ensures NewestFirst(entries)[|entries| - 1] == entries[0]
  {
    var full := NewestFirst(entries);
    forall a, b | 0 <= a < b < |full| ensures full[a].pname != full[b].pname {
      NewestFirstAt(entries, a);
      NewestFirstAt(entries, b);
    }
    forall k | 0 <= k < |full| ensures full[k].pname != extra.pname {
      NewestFirstAt(entries, k);
    }
    FindAbsent(full, extra.pname);
    NewestFirstAt(entries, |entries| - 1);
  }

  /** Resolving the back entry of a list with distinct names moves it to
      the front and keeps the others in order. */
  lemma TouchBack(l: seq<DataBlock>)
    requires DistinctNames(l) && l != []
    ensures Resolved(l, l[|l| - 1].pname) == [l[|l| - 1]] + l[..|l| - 1]
  {
    var n := |l|;
    FindDistinct(l, n - 1);
    MoveToFrontIsCut(l, n - 1);
    assert l[..n - 1] + l[n..] == l[..n - 1];
  }

  /** A lookup protects an entry from eviction: on a full cache, resolving
      the least recently used name and then storing a new name keeps the
      resolved name and evicts the entry that was second to last instead. */
  lemma ResolveProtectsFromEviction(l: seq<DataBlock>, maxSize: nat, name: string, ip: string)
    requires DistinctNames(l) && 2 <= |l| == maxSize
    requires Find(l, name).None?
    ensures l[|l| - 1].pname in ToMap(Updated(Resolved(l, l[|l| - 1].pname), maxSize, name, ip))
    ensures l[|l| - 2].pname !in ToMap(Updated(Resolved(l, l[|l| - 1].pname), maxSize, name, ip))
  {
    var n := |l|;
    var lru := l[n - 1].pname;
    TouchBack(l);
    var touched := [l[n - 1]] + l[..n - 1];
    ResolveKeepsContents(l, lru);
    ToMapFind(l, name);
    ToMapFind(touched, name);
    UpdateNewWhenFull(touched, maxSize, name, ip);
    var r := Updated(touched, maxSize, name, ip);
    assert touched[n - 1] == l[n - 2];
    ToMapFind(r, l[n - 2].pname);
    EvictionKeepsFront(touched, r, name, ip);
    ToMapFind(r, lru);
  }

  /** Evicting the back entry of a list of two or more keeps its front
      entry right behind the new one. */
  lemma EvictionKeepsFront(touched: seq<DataBlock>, r: seq<DataBlock>, name: string, ip: string)
    requires DistinctNames(touched) && 2 <= |touched|
    requires r == [DataBlock(ip, name)] + Without(touched, touched[|touched| - 1].pname)
    ensures r[1] == touched[0]
  {
    var n := |touched|;
    CutIsWithout(touched, n - 1);
    assert touched[..n - 1] + touched[n..] == touched[..n - 1];
  }

  /** The answer a lookup gives on a cache whose dictionary is `m`. */
  function Lookup(m: map<string, string>, name: string): string
  {
    if name in m then m[name] else ""
  }

  /** Two rounds, each of at most `maxSize` updates under arbitrary,
      possibly repeated names, followed by lookups of names stored in that
      round: every lookup returns the last address stored under its name in
      its round, whatever the first round left in the cache. */
  method TwoRounds(maxSize: nat, first: seq<DataBlock>, firstNames: seq<string>,
                   second: seq<DataBlock>, secondNames: seq<string>)
    returns (firstGot: seq<string>, secondGot: seq<string>)
    requires 0 < maxSize && |first| <= maxSize && |second| <= maxSize
    requires forall k :: 0 <= k < |firstNames| ==> firstNames[k] in LastWrites(first)
    requires forall k :: 0 <= k < |secondNames| ==> secondNames[k] in LastWrites(second)
    ensures |firstGot| == |firstNames| && |secondGot| == |secondNames|
    ensures forall k :: 0 <= k < |firstNames| ==> firstGot[k] == LastWrites(first)[firstNames[k]]
    ensures forall k :: 0 <= k < |secondNames| ==> secondGot[k] == LastWrites(second)[secondNames[k]]
  {
    var cache := new DNSCache(maxSize);
    firstGot := Round(cache, first, firstNames);
    secondGot := Round(cache, second, secondNames);
  }

  /** One round: store `us`, then look up `names`, all stored in `us`. */
  method Round(cache: DNSCache, us: seq<DataBlock>, names: seq<string>) returns (got: seq<string>)
    requires cache.Valid() && |us| <= cache.maxSize
    requires forall k :: 0 <= k < |names| ==> names[k] in LastWrites(us)
    modifies cache
    ensures cache.Valid() && cache.maxSize == old(cache.maxSize)
    ensures |got| == |names|
    ensures forall k :: 0 <= k < |names| ==> got[k] == LastWrites(us)[names[k]]
  {
    ghost var l0 := cache.listDataBlock;
    HandlesAgreeWithFind(cache.umap, l0, "");
    StoreAll(cache, us);
    ghost var m := ToMap(cache.listDataBlock);
    forall k | 0 <= k < |names| ensures Lookup(m, names[k]) == LastWrites(us)[names[k]] {
      RecentUpdatesRetained(l0, cache.maxSize, us, names[k]);
    }
    got := ResolveAll(cache, names);
  }

  /** Stores each `(ip, pname)` of `us`, in order. */
  method StoreAll(cache: DNSCache, us: seq<DataBlock>)
    requires cache.Valid()
    modifies cache
    ensures cache.Valid() && cache.maxSize == old(cache.maxSize)
    ensures cache.listDataBlock == Apply(old(cache.listDataBlock), cache.maxSize, us)
  {
    ghost var l0 := cache.listDataBlock;
    var i := 0;
    assert us[..0] == [];
    while i < |us|
      invariant 0 <= i <= |us|
      invariant cache.Valid() && cache.maxSize == old(cache.maxSize) && |l0| <= cache.maxSize
      invariant cache.listDataBlock == Apply(l0, cache.maxSize, us[..i])
    {
      assert us[..i + 1][..i] == us[..i];
      cache.Update(us[i].pname, us[i].ip);
      i := i + 1;
    }
    assert us[..|us|] == us;
  }

  /** Resolves each of `names` in order and reports what each lookup
      returned; lookups only reorder, so every answer comes from the
      dictionary the cache started with. */
  method ResolveAll(cache: DNSCache, names: seq<string>) returns (got: seq<string>)
    requires cache.Valid()
    modifies cache
    ensures cache.Valid() && cache.maxSize == old(cache.maxSize)
    ensures ToMap(cache.listDataBlock) == ToMap(old(cache.listDataBlock))
    ensures |got| == |names|
    ensures forall k :: 0 <= k < |names| ==> got[k] == Lookup(ToMap(old(cache.listDataBlock)), names[k])
  {
    ghost var m := ToMap(cache.listDataBlock);
    got := [];
    var k := 0;
    while k < |names|
      invariant 0 <= k <= |names|
      invariant cache.Valid() && cache.maxSize == old(cache.maxSize)
      invariant ToMap(cache.listDataBlock) == m
      invariant |got| == k
      invariant forall j :: 0 <= j < k ==> got[j] == Lookup(m, names[j])
    {
      var r := ResolveOne(cache, names[k]);
      got := got + [r];
      k := k + 1;
    }
  }

  /** One lookup: its answer comes from the cache's dictionary, which it
      does not change. */
  method ResolveOne(cache: DNSCache, name: string) returns (r: string)
    requires cache.Valid()
    modifies cache
    ensures cache.Valid() && cache.maxSize == old(cache.maxSize)
    ensures ToMap(cache.listDataBlock) == ToMap(old(cache.listDataBlock))
    ensures r == Lookup(ToMap(old(cache.listDataBlock)), name)
  {
    HandlesAgreeWithFind(cache.umap, cache.listDataBlock, name);
    ResolveKeepsContents(cache.listDataBlock, name);
    if name in ToMap(cache.listDataBlock) {
      ResolveHit(cache.listDataBlock, name);
    } else {
      ResolveMiss(cache.listDataBlock, name);
    }
    r := cache.Resolve(name);
  }
}
