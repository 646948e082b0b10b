/**
 The DNS cache object: a fixed capacity, an index from host name to a
 handle into the recency list, and the recency list itself (most recently
 used first). A handle is modelled as the entry's position in the list, so
 the operations that reorder the list also recompute the handles they move.
 */
module DnsCache {
  import opened Lru

  /** Exclusive bounds on the capacity that `TrySetMaxSize` accepts. */
  const MinMaxSizeExclusive: nat := 128
  const MaxMaxSizeExclusive: nat := 0x10_0000

  /** The capacity used when nothing has been configured. */
  const InitialDefaultMaxSize: nat := 1024

  /** The index and the list describe the same entries: each name in the
      index holds the position of the entry stored under that name, and
      each entry's name is in the index with that entry's position. */
  ghost predicate HandlesMatch(umap: map<string, nat>, l: seq<DataBlock>)
  {
    && (forall name :: name in umap ==> umap[name] < |l| && l[umap[name]].pname == name)
    && (forall i :: 0 <= i < |l| ==> l[i].pname in umap && umap[l[i].pname] == i)
  }

  /** The handles after the entry at position `i` is spliced to the front:
      that entry is now at 0, the ones before it move back by one. */
  function SplicedHandles(umap: map<string, nat>, i: nat): map<string, nat>
  {
    map name | name in umap ::
      if umap[name] == i then 0
      else if umap[name] < i then umap[name] + 1
      else umap[name]
  }

  /** The handles after a new entry is placed at the front. */
  function ShiftedHandles(umap: map<string, nat>): map<string, nat>
  {
    map name | name in umap :: umap[name] + 1
  }

  /** A consistent index makes the list's names distinct and answers the
      same lookup as a search of the list. */
  lemma HandlesAgreeWithFind(umap: map<string, nat>, l: seq<DataBlock>, name: string)
    requires HandlesMatch(umap, l)
    ensures DistinctNames(l)
    ensures name in umap ==> Find(l, name) == Some(umap[name])
    ensures name !in umap ==> Find(l, name).None?
  {
    if name in umap {
      FindDistinct(l, umap[name]);
    }
  }

  /** The index holds exactly the names of the dictionary the list stands
      for. */
  lemma HandlesKeys(umap: map<string, nat>, l: seq<DataBlock>)
    requires HandlesMatch(umap, l)
    ensures umap.Keys == ToMap(l).Keys
  {
    forall name ensures name in umap <==> name in ToMap(l) {
      HandlesAgreeWithFind(umap, l, name);
      ToMapFind(l, name);
    }
  }

  /** What `Updated` is, read off the index instead of a search. */
  lemma UpdatedByHandles(umap: map<string, nat>, l: seq<DataBlock>, maxSize: nat, name: string, ip: string)
    requires HandlesMatch(umap, l) && 0 < maxSize && |l| <= maxSize
    ensures name in umap ==>
      && umap[name] < |l|
      && Updated(l, maxSize, name, ip) == MoveToFront(l[umap[name] := DataBlock(ip, name)], umap[name])
    ensures name !in umap ==>
      Updated(l, maxSize, name, ip) == [DataBlock(ip, name)] + (if |l| == maxSize then l[..|l| - 1] else l)
  {
    HandlesAgreeWithFind(umap, l, name);
  }

  /** What `Resolved` and `ResolvedValue` are, read off the index. */
  lemma ResolvedByHandles(umap: map<string, nat>, l: seq<DataBlock>, name: string)
    requires HandlesMatch(umap, l)
    ensures name in umap ==>
      && umap[name] < |l|
      && Resolved(l, name) == MoveToFront(l, umap[name])
      && ResolvedValue(l, name) == l[umap[name]].ip
    ensures name !in umap ==> Resolved(l, name) == l && ResolvedValue(l, name) == ""
  {
    HandlesAgreeWithFind(umap, l, name);
  }

  /** Splicing the entry at `i` to the front keeps the index and the list
      in agreement, once the handles are recomputed. */
  lemma SpliceKeepsHandles(umap: map<string, nat>, l: seq<DataBlock>, i: nat)
    requires HandlesMatch(umap, l) && i < |l|
    ensures HandlesMatch(SplicedHandles(umap, i), MoveToFront(l, i))
    ensures |SplicedHandles(umap, i)| == |umap|
  {
    assert SplicedHandles(umap, i).Keys == umap.Keys;
    SplicedHandlesPoint(umap, l, i);
    SplicedListPoint(umap, l, i);
  }

  lemma SplicedHandlesPoint(umap: map<string, nat>, l: seq<DataBlock>, i: nat)
    requires HandlesMatch(umap, l) && i < |l|
    ensures forall name :: name in SplicedHandles(umap, i) ==>
      SplicedHandles(umap, i)[name] < |l| && MoveToFront(l, i)[SplicedHandles(umap, i)[name]].pname == name
  {
    var h := SplicedHandles(umap, i);
    var r := MoveToFront(l, i);
    forall name | name in h ensures h[name] < |r| && r[h[name]].pname == name {
      var p := umap[name];
      if p < i {
        assert r[p + 1] == l[p];
      } else if p > i {
        assert r[p] == l[p];
      }
    }
  }

  lemma SplicedListPoint(umap: map<string, nat>, l: seq<DataBlock>, i: nat)
    requires HandlesMatch(umap, l) && i < |l|
    ensures forall j :: 0 <= j < |l| ==>
      MoveToFront(l, i)[j].pname in SplicedHandles(umap, i) && SplicedHandles(umap, i)[MoveToFront(l, i)[j].pname] == j
  {
    var h := SplicedHandles(umap, i);
    var r := MoveToFront(l, i);
    forall j | 0 <= j < |r| ensures r[j].pname in h && h[r[j].pname] == j {
      if 0 < j <= i {
        assert r[j] == l[j - 1];
      } else if j > i {
        assert r[j] == l[j];
      }
    }
  }

  lemma PushFrontKeepsHandles(umap: map<string, nat>, l: seq<DataBlock>, b: DataBlock)
    requires HandlesMatch(umap, l) && b.pname !in umap
    ensures HandlesMatch(ShiftedHandles(umap)[b.pname := 0], [b] + l)
    ensures |ShiftedHandles(umap)[b.pname := 0]| == |umap| + 1
  {
    var h := ShiftedHandles(umap)[b.pname := 0];
    var r := [b] + l;
    assert ShiftedHandles(umap).Keys == umap.Keys;
    forall j | 0 <= j < |r| ensures r[j].pname in h && h[r[j].pname] == j {
      if j > 0 {
        assert r[j] == l[j - 1];
      }
    }
  }

  lemma PopBackKeepsHandles(umap: map<string, nat>, l: seq<DataBlock>)
    requires HandlesMatch(umap, l) && l != []
    ensures HandlesMatch(umap - {l[|l| - 1].pname}, l[..|l| - 1])
    ensures |umap - {l[|l| - 1].pname}| == |umap| - 1
  {
    var back := l[|l| - 1].pname;
    assert (umap - {back}).Keys == umap.Keys - {back};
  }

  /** Overwriting an entry's address keeps every handle valid. */
  lemma OverwriteKeepsHandles(umap: map<string, nat>, l: seq<DataBlock>, i: nat, ip: string)
    requires HandlesMatch(umap, l) && i < |l|
    ensures HandlesMatch(umap, l[i := DataBlock(ip, l[i].pname)])
  {
  }

  class DNSCache {
    var maxSize: nat
    var umap: map<string, nat>
    var listDataBlock: seq<DataBlock>

    /** The cache's invariant: a positive capacity, as many index entries
        as list entries and no more than the capacity, and an index that
        points at exactly the list's entries. */
    ghost predicate Valid()
      reads this
    {
      && 0 < maxSize
      && |umap| == |listDataBlock| <= maxSize
      && HandlesMatch(umap, listDataBlock)
    }

    /** A new, empty cache of capacity `max_size`. */
    constructor (max_size: nat)
      requires 0 < max_size
      ensures Valid()
      ensures maxSize == max_size && umap == map[] && listDataBlock == []
    {
      maxSize := max_size;
      umap := map[];
      listDataBlock := [];
    }

    /** Stores `ip` under `name` and makes it the most recently used entry,
        evicting the least recently used entry when a new name arrives at a
        full cache. */
    method Update(name: string, ip: string)
      requires Valid()
      modifies this
      ensures Valid()
      ensures maxSize == old(maxSize)
      ensures listDataBlock == Updated(old(listDataBlock), maxSize, name, ip)
    {
      ghost var l := listDataBlock;
      UpdatedByHandles(umap, l, maxSize, name, ip);
      if name in umap {
        var i := umap[name];
        OverwriteKeepsHandles(umap, listDataBlock, i, ip);
        listDataBlock := listDataBlock[i := DataBlock(ip, name)];
        Splice(i);
      } else {
        if |umap| == maxSize {
          EvictBack();
        }
        PushFront(DataBlock(ip, name));
      }
    }

    /** Moves the entry at position `i` to the front, as a splice of the
        list into itself, and updates the handles of the entries it moves. */
    method Splice(i: nat)
      requires Valid() && i < |listDataBlock|
      modifies this
      ensures Valid()
      ensures maxSize == old(maxSize)
      ensures listDataBlock == MoveToFront(old(listDataBlock), i)
    {
      SpliceKeepsHandles(umap, listDataBlock, i);
      listDataBlock := MoveToFront(listDataBlock, i);
      umap := SplicedHandles(umap, i);
    }

    /** Drops the least recently used entry from the list and its name
        from the index. */
    method EvictBack()
      requires Valid() && listDataBlock != []
      modifies this
      ensures Valid()
      ensures maxSize == old(maxSize)
      ensures listDataBlock == old(listDataBlock[..|listDataBlock| - 1])
      ensures umap == old(umap) - {old(listDataBlock[|listDataBlock| - 1].pname)}
    {
      var back := listDataBlock[|listDataBlock| - 1].pname;
      if back in umap {
        PopBackKeepsHandles(umap, listDataBlock);
        listDataBlock := listDataBlock[..|listDataBlock| - 1];
        umap := umap - {back};
      } else {
        // The back entry's name is always in the index while Valid holds.
        assert false;
      }
    }

    /** Places a new entry, whose name is not cached, at the front. */
    method PushFront(entry: DataBlock)
      requires Valid() && |listDataBlock| < maxSize && entry.pname !in umap
      modifies this
      ensures Valid()
      ensures maxSize == old(maxSize)
      ensures listDataBlock == [entry] + old(listDataBlock)
    {
      PushFrontKeepsHandles(umap, listDataBlock, entry);
      umap := ShiftedHandles(umap)[entry.pname := 0];
      listDataBlock := [entry] + listDataBlock;
    }

    /** Returns the address stored under `name` and makes it the most
        recently used entry; returns the empty string and changes nothing
        when `name` is not cached. */
    method Resolve(name: string) returns (result: string)
      requires Valid()
      modifies this
      ensures Valid()
      ensures maxSize == old(maxSize)
      ensures result == ResolvedValue(old(listDataBlock), name)
      ensures listDataBlock == Resolved(old(listDataBlock), name)
      ensures name !in old(umap) ==> umap == old(umap) && listDataBlock == old(listDataBlock)
    {
      ResolvedByHandles(umap, listDataBlock, name);
      result := "";
      if name in umap {
        Splice(umap[name]);
        result := listDataBlock[0].ip;
      }
    }
  }

  /** The process-wide default capacity that a cache is built with. */
  class Settings {
    var defaultMaxSize: nat

    ghost predicate Valid()
      reads this
    {
      MinMaxSizeExclusive < defaultMaxSize < MaxMaxSizeExclusive
    }

    constructor ()
      ensures Valid() && defaultMaxSize == InitialDefaultMaxSize
    {
      defaultMaxSize := InitialDefaultMaxSize;
    }

    /** Sets the default capacity when `maxSize` lies strictly between 128
        and 2^20, and reports whether it did. */
    method TrySetMaxSize(maxSize: nat) returns (ok: bool)
      modifies this
      ensures ok <==> MinMaxSizeExclusive < maxSize < MaxMaxSizeExclusive
      ensures defaultMaxSize == if ok then maxSize else old(defaultMaxSize)
      ensures old(Valid()) ==> Valid()
    {
      if maxSize > MinMaxSizeExclusive && maxSize < MaxMaxSizeExclusive {
        defaultMaxSize := maxSize;
        return true;
      }
      return false;
    }
  }
}
