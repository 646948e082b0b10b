/**
 The recency list of the DNS cache, as a value.

 Entry 0 is the most recently used entry and the last entry is the least
 recently used one. Each entry (a `DataBlock`) carries the address and the
 host name it is stored under. The functions `Updated`, `Resolved` and
 `ResolvedValue` say what the cache's `update` and `resolve` do to this list;
 the lemmas below state what those operations promise.
 */
module Lru {

  datatype Option<T> = None | Some(value: T)

  /** One node of the recency list: the resolved address and the host name
      (the key of the index entry that points at this node). */
  datatype DataBlock = DataBlock(ip: string, pname: string)

  /** No two entries of the list are stored under the same name. */
  ghost predicate DistinctNames(l: seq<DataBlock>)
  {
    forall i, j :: 0 <= i < j < |l| ==> l[i].pname != l[j].pname
  }

  /** The position of the first entry stored under `name`, if there is one. */
  function Find(l: seq<DataBlock>, name: string): (r: Option<nat>)
    ensures r.Some? ==> r.value < |l| && l[r.value].pname == name
    ensures r.Some? ==> forall j :: 0 <= j < r.value ==> l[j].pname != name
    ensures r.None? ==> forall j :: 0 <= j < |l| ==> l[j].pname != name
  {
    if l == [] then None
    else if l[0].pname == name then Some(0)
    else match Find(l[1..], name)
      case None => None
      case Some(i) => Some(i + 1)
  }

  /** The dictionary from name to address that the list stands for. */
  function ToMap(l: seq<DataBlock>): map<string, string>
  {
    if l == [] then map[]
    else ToMap(l[1..])[l[0].pname := l[0].ip]
  }

  /** The list with every entry stored under `name` taken out, the others
      kept in their order. */
  function Without(l: seq<DataBlock>, name: string): (r: seq<DataBlock>)
    ensures |r| <= |l|
    ensures forall j :: 0 <= j < |r| ==> r[j].pname != name
  {
    if l == [] then []
    else if l[0].pname == name then Without(l[1..], name)
    else [l[0]] + Without(l[1..], name)
  }

  /** Splicing the entry at position `i` to the front of the list. */
  function MoveToFront(l: seq<DataBlock>, i: nat): (r: seq<DataBlock>)
    requires i < |l|
    ensures |r| == |l| && r[0] == l[i]
    ensures multiset(r) == multiset(l)
  {
    assert l == l[..i] + [l[i]] + l[i + 1..];
    [l[i]] + l[..i] + l[i + 1..]
  }

  /** The recency list after `update(name, ip)` on a cache of capacity
      `maxSize`: a present entry gets the new address and goes to the
      front; a new entry goes to the front after the back entry has been
      evicted if the cache was full. */
  function Updated(l: seq<DataBlock>, maxSize: nat, name: string, ip: string): (r: seq<DataBlock>)
    requires 0 < maxSize && |l| <= maxSize
    ensures 0 < |r| <= maxSize
    ensures r[0] == DataBlock(ip, name)
  {
    match Find(l, name)
    case Some(i) => MoveToFront(l[i := DataBlock(ip, name)], i)
    case None =>
      var kept := if |l| == maxSize then l[..|l| - 1] else l;
      [DataBlock(ip, name)] + kept
  }

  /** The recency list after `resolve(name)`: a hit moves the entry to the
      front, a miss leaves the list as it is. */
  function Resolved(l: seq<DataBlock>, name: string): (r: seq<DataBlock>)
    ensures multiset(r) == multiset(l)
    ensures r != [] && r[0].pname == name <==> exists i :: 0 <= i < |l| && l[i].pname == name
  {
    match Find(l, name)
    case Some(i) => MoveToFront(l, i)
    case None => l
  }

  /** The string `resolve(name)` returns: the stored address on a hit, the
      empty string on a miss. */
  function ResolvedValue(l: seq<DataBlock>, name: string): (r: string)
    ensures r == "" || exists i :: 0 <= i < |l| && l[i].pname == name && l[i].ip == r
  {
    match Find(l, name)
    case Some(i) => l[i].ip
    case None => ""
  }

  // ---------------------------------------------------------------------
  // Facts about the list functions

  /** A name no entry is stored under is not found. */
  lemma FindAbsent(l: seq<DataBlock>, name: string)
    requires forall j :: 0 <= j < |l| ==> l[j].pname != name
    ensures Find(l, name).None?
  {
  }

  /** In a list without repeated names, the entry at `i` is the one found
      under its name. */
  lemma FindDistinct(l: seq<DataBlock>, i: nat)
    requires DistinctNames(l) && i < |l|
    ensures Find(l, l[i].pname) == Some(i)
  {
    var r := Find(l, l[i].pname);
    assert r.Some?;
    assert r.value <= i;
  }

  /** The dictionary binds exactly the names found in the list, each to
      the address of the first entry stored under it. */
  lemma {:induction false} ToMapFind(l: seq<DataBlock>, name: string)
    ensures name in ToMap(l) <==> Find(l, name).Some?
    ensures name in ToMap(l) ==> ToMap(l)[name] == l[Find(l, name).value].ip
  {
    if l != [] && l[0].pname != name {
      ToMapFind(l[1..], name);
    }
  }

  lemma ToMapCons(b: DataBlock, l: seq<DataBlock>)
    ensures ToMap([b] + l) == ToMap(l)[b.pname := b.ip]
  {
    assert ([b] + l)[1..] == l;
  }

  lemma {:induction false} WithoutAbsent(l: seq<DataBlock>, name: string)
    requires forall j :: 0 <= j < |l| ==> l[j].pname != name
    ensures Without(l, name) == l
  {
    if l != [] {
      WithoutAbsent(l[1..], name);
    }
  }

  lemma DistinctTail(l: seq<DataBlock>)
    requires DistinctNames(l) && l != []
    ensures DistinctNames(l[1..])
  {
    var t := l[1..];
    forall a, b | 0 <= a < b < |t| ensures t[a].pname != t[b].pname {
      assert t[a] == l[a + 1] && t[b] == l[b + 1];
    }
  }

  lemma CutOfTail(l: seq<DataBlock>, i: nat)
    requires 0 < i < |l|
    ensures l[..i] + l[i + 1..] == [l[0]] + (l[1..][..i - 1] + l[1..][i..])
  {
    assert l[..i] == [l[0]] + l[1..][..i - 1];
    assert l[i + 1..] == l[1..][i..];
  }

  /** Cutting out the entry at `i` is taking out its name, when names are
      distinct. */
  lemma {:induction false} CutIsWithout(l: seq<DataBlock>, i: nat)
    requires DistinctNames(l) && i < |l|
    ensures l[..i] + l[i + 1..] == Without(l, l[i].pname)
  {
    if i == 0 {
      assert l[..0] + l[1..] == l[1..];
      WithoutAbsent(l[1..], l[0].pname);
    } else {
      assert l[1..][i - 1] == l[i];
      DistinctTail(l);
      CutIsWithout(l[1..], i - 1);
      CutOfTail(l, i);
      assert l[0].pname != l[i].pname;
    }
  }

  /** Taking a name out of the list takes it out of the dictionary and
      nothing else. */
  lemma {:induction false} ToMapWithout(l: seq<DataBlock>, name: string)
    ensures ToMap(Without(l, name)) == ToMap(l) - {name}
  {
    if l != [] {
      var t := l[1..];
      ToMapWithout(t, name);
      if l[0].pname == name {
        assert ToMap(l) - {name} == ToMap(t) - {name};
      } else {
        var w := Without(t, name);
        assert ([l[0]] + w)[1..] == w;
        assert ToMap(Without(l, name)) == ToMap(w)[l[0].pname := l[0].ip];
        assert (ToMap(t) - {name})[l[0].pname := l[0].ip] == ToMap(t)[l[0].pname := l[0].ip] - {name};
      }
    }
  }

  lemma MoveToFrontIsCut(l: seq<DataBlock>, i: nat)
    requires i < |l|
    ensures MoveToFront(l, i) == [l[i]] + (l[..i] + l[i + 1..])
  {
  }

  /** Distinct names survive the splice to the front. */
  lemma MoveToFrontDistinct(l: seq<DataBlock>, i: nat)
    requires DistinctNames(l) && i < |l|
    ensures DistinctNames(MoveToFront(l, i))
  {
    var r := MoveToFront(l, i);
    forall a, b | 0 <= a < b < |r| ensures r[a].pname != r[b].pname {
      var pa := if a == 0 then i else if a <= i then a - 1 else a;
      var pb := if b == 0 then i else if b <= i then b - 1 else b;
      assert r[a] == l[pa] && r[b] == l[pb] && pa != pb;
    }
  }

  // ---------------------------------------------------------------------
  // What update promises

  /** `update` of a present name: its entry, with the new address, comes
      first, every other entry keeps its address and relative order, and
      the size does not change. */
  lemma UpdatePresent(l: seq<DataBlock>, maxSize: nat, name: string, ip: string)
    requires 0 < maxSize && |l| <= maxSize && DistinctNames(l)
    requires Find(l, name).Some?
    ensures Updated(l, maxSize, name, ip) == [DataBlock(ip, name)] + Without(l, name)
    ensures |Updated(l, maxSize, name, ip)| == |l|
  {
    var i := Find(l, name).value;
    var l' := l[i := DataBlock(ip, name)];
    assert l'[..i] == l[..i] && l'[i + 1..] == l[i + 1..];
    CutIsWithout(l, i);
  }

  /** `update` of a new name while there is room: the new entry comes first
      and nothing is evicted. */
  lemma UpdateNewWithRoom(l: seq<DataBlock>, maxSize: nat, name: string, ip: string)
    requires |l| < maxSize
    requires Find(l, name).None?
    ensures Updated(l, maxSize, name, ip) == [DataBlock(ip, name)] + l
    ensures |Updated(l, maxSize, name, ip)| == |l| + 1
  {
  }

  /** `update` of a new name on a full cache: exactly the back (least
      recently used) entry is evicted, the new entry comes first, and the
      size stays at the capacity. */
  lemma UpdateNewWhenFull(l: seq<DataBlock>, maxSize: nat, name: string, ip: string)
    requires 0 < maxSize && |l| == maxSize && DistinctNames(l)
    requires Find(l, name).None?
    ensures Updated(l, maxSize, name, ip) == [DataBlock(ip, name)] + Without(l, l[|l| - 1].pname)
    ensures |Updated(l, maxSize, name, ip)| == maxSize
    ensures Find(Updated(l, maxSize, name, ip), l[|l| - 1].pname).None?
  {
    var n := |l|;
    CutIsWithout(l, n - 1);
    assert l[..n - 1] + l[n..] == l[..n - 1];
    var r := Updated(l, maxSize, name, ip);
    forall j | 0 <= j < |r| ensures r[j].pname != l[n - 1].pname {
      if j > 0 {
        assert r[j] == l[j - 1];
      }
    }
  }

  /** `update` keeps the names in the list distinct. */
  lemma UpdateKeepsInvariant(l: seq<DataBlock>, maxSize: nat, name: string, ip: string)
    requires 0 < maxSize && |l| <= maxSize && DistinctNames(l)
    ensures DistinctNames(Updated(l, maxSize, name, ip))
  {
    var r := Updated(l, maxSize, name, ip);
    match Find(l, name)
    case Some(i) =>
      var l' := l[i := DataBlock(ip, name)];
      assert forall j :: 0 <= j < |l| ==> l'[j].pname == l[j].pname;
      MoveToFrontDistinct(l', i);
    case None =>
      forall a, b | 0 <= a < b < |r| ensures r[a].pname != r[b].pname {
        assert r[b] == l[b - 1];
        if a > 0 {
          assert r[a] == l[a - 1];
        }
      }
  }

  /** Round trip: right after `update(name, ip)`, `resolve(name)` returns
      `ip` and leaves the list as it is. */
  lemma UpdateThenResolve(l: seq<DataBlock>, maxSize: nat, name: string, ip: string)
    requires 0 < maxSize && |l| <= maxSize
    ensures ResolvedValue(Updated(l, maxSize, name, ip), name) == ip
    ensures Resolved(Updated(l, maxSize, name, ip), name) == Updated(l, maxSize, name, ip)
  {
    var r := Updated(l, maxSize, name, ip);
    assert Find(r, name) == Some(0);
    assert r == [r[0]] + r[..0] + r[1..];
  }

  /** `update` seen on the dictionary: the name is bound to the new
      address, and the only other change is the eviction of the back
      entry's name when a new name arrives at a full cache. */
  lemma UpdateAsMap(l: seq<DataBlock>, maxSize: nat, name: string, ip: string)
    requires 0 < maxSize && |l| <= maxSize && DistinctNames(l)
    ensures name in ToMap(l) ==>
      ToMap(Updated(l, maxSize, name, ip)) == ToMap(l)[name := ip]
    ensures name !in ToMap(l) && |l| < maxSize ==>
      ToMap(Updated(l, maxSize, name, ip)) == ToMap(l)[name := ip]
    ensures name !in ToMap(l) && |l| == maxSize ==>
      ToMap(Updated(l, maxSize, name, ip)) == (ToMap(l) - {l[|l| - 1].pname})[name := ip]
  {
    ToMapFind(l, name);
    var r := Updated(l, maxSize, name, ip);
    if name in ToMap(l) {
      UpdatePresent(l, maxSize, name, ip);
      ToMapOfFront(r, l, name, ip);
      RebindAfterRemove(ToMap(l), name, ip);
    } else if |l| < maxSize {
      UpdateNewWithRoom(l, maxSize, name, ip);
      ToMapCons(r[0], l);
    } else {
      UpdateNewWhenFull(l, maxSize, name, ip);
      ToMapOfFront(r, l, l[|l| - 1].pname, ip);
    }
  }

  lemma RebindAfterRemove(m: map<string, string>, k: string, v: string)
    ensures (m - {k})[k := v] == m[k := v]
    ensures k in m && m[k] == v ==> m[k := v] == m
  {
    assert (m - {k})[k := v].Keys == m[k := v].Keys;
    if k in m && m[k] == v {
      assert m[k := v].Keys == m.Keys;
    }
  }

  /** The dictionary of a list that starts with the updated entry followed
      by the old list without one name. */
  lemma ToMapOfFront(r: seq<DataBlock>, l: seq<DataBlock>, gone: string, ip: string)
    requires r != [] && r[1..] == Without(l, gone) && r[0].ip == ip
    ensures ToMap(r) == (ToMap(l) - {gone})[r[0].pname := ip]
  {
    assert r == [r[0]] + r[1..];
    ToMapCons(r[0], r[1..]);
    ToMapWithout(l, gone);
  }

  // ---------------------------------------------------------------------
  // What resolve promises

  /** `resolve` of a present name returns its address and moves its entry
      to the front, keeping every other entry's address and relative
      order. */
  lemma ResolveHit(l: seq<DataBlock>, name: string)
    requires DistinctNames(l) && name in ToMap(l)
    ensures ResolvedValue(l, name) == ToMap(l)[name]
    ensures Resolved(l, name) == [DataBlock(ToMap(l)[name], name)] + Without(l, name)
  {
    ToMapFind(l, name);
    var i := Find(l, name).value;
    CutIsWithout(l, i);
    MoveToFrontIsCut(l, i);
  }

  /** `resolve` of an absent name returns the empty string and changes
      nothing. */
  lemma ResolveMiss(l: seq<DataBlock>, name: string)
    requires name !in ToMap(l)
    ensures ResolvedValue(l, name) == ""
    ensures Resolved(l, name) == l
  {
    ToMapFind(l, name);
  }

  /** `resolve` only reorders: the dictionary, the multiset of entries and
      the distinctness of names are all kept. */
  lemma ResolveKeepsContents(l: seq<DataBlock>, name: string)
    requires DistinctNames(l)
    ensures ToMap(Resolved(l, name)) == ToMap(l)
    ensures multiset(Resolved(l, name)) == multiset(l)
    ensures DistinctNames(Resolved(l, name))
  {
    if name in ToMap(l) {
      ToMapFind(l, name);
      var i := Find(l, name).value;
      ResolveHit(l, name);
      ToMapOfFront(Resolved(l, name), l, name, l[i].ip);
      RebindAfterRemove(ToMap(l), name, l[i].ip);
      MoveToFrontDistinct(l, i);
    } else {
      ResolveMiss(l, name);
    }
  }
}
