/**
 What a run of updates leaves in the cache.

 A run of updates is a sequence of `(ip, pname)` pairs stored in order.
 However full the cache was before, once at most `maxSize` updates have been
 stored, every name among them resolves to the last address stored under
 it. The names stored, most recent first, form a prefix of the recency list.
 */
module Retention {
  import opened Lru

  /** The recency list after storing each `(ip, pname)` of `us`, in order,
      into a cache of capacity `maxSize` whose list was `l`. */
  function Apply(l: seq<DataBlock>, maxSize: nat, us: seq<DataBlock>): (r: seq<DataBlock>)
    requires 0 < maxSize && |l| <= maxSize
    ensures |r| <= maxSize
    decreases |us|
  {
    if us == [] then l
    else
      var u := us[|us| - 1];
      Updated(Apply(l, maxSize, us[..|us| - 1]), maxSize, u.pname, u.ip)
  }

  /** The last address stored under each name of `us`: what a dictionary
      assigned in the same order holds. */
  function LastWrites(us: seq<DataBlock>): map<string, string>
  {
    if us == [] then map[]
    else LastWrites(us[..|us| - 1])[us[|us| - 1].pname := us[|us| - 1].ip]
  }

  /** One entry per name of `us`, holding its last address, the most
      recently stored name first. */
  function Recent(us: seq<DataBlock>): (r: seq<DataBlock>)
    ensures |r| <= |us|
  {
    if us == [] then []
    else
      var u := us[|us| - 1];
      [u] + Without(Recent(us[..|us| - 1]), u.pname)
  }

  /** `Recent` holds exactly the last writes. */
  lemma {:induction false} ToMapRecent(us: seq<DataBlock>)
    ensures ToMap(Recent(us)) == LastWrites(us)
  {
    if us != [] {
      var prev := us[..|us| - 1];
      var u := us[|us| - 1];
      var r := Recent(prev);
      ToMapRecent(prev);
      ToMapCons(u, Without(r, u.pname));
      ToMapWithout(r, u.pname);
      RebindAfterRemove(ToMap(r), u.pname, u.ip);
    }
  }

  /** The entries in front decide the dictionary: a name bound by `p` keeps
      its binding whatever follows. */
  lemma {:induction false} ToMapAppend(p: seq<DataBlock>, q: seq<DataBlock>, name: string)
    requires name in ToMap(p)
    ensures name in ToMap(p + q) && ToMap(p + q)[name] == ToMap(p)[name]
  {
    assert p != [];
    assert (p + q)[1..] == p[1..] + q;
    if p[0].pname != name {
      ToMapAppend(p[1..], q, name);
    }
  }

  lemma {:induction false} WithoutAppend(a: seq<DataBlock>, b: seq<DataBlock>, name: string)
    ensures Without(a + b, name) == Without(a, name) + Without(b, name)
  {
    if a == [] {
      assert a + b == b;
    } else {
      assert (a + b)[1..] == a[1..] + b;
      WithoutAppend(a[1..], b, name);
    }
  }

  /** After at most `maxSize` updates, the list starts with `Recent`, and its
      names stay distinct. */
  lemma {:induction false} ApplyKeepsRecent(l: seq<DataBlock>, maxSize: nat, us: seq<DataBlock>)
    requires 0 < maxSize && |l| <= maxSize && DistinctNames(l) && |us| <= maxSize
    ensures DistinctNames(Apply(l, maxSize, us))
    ensures |Recent(us)| <= |Apply(l, maxSize, us)|
    ensures Apply(l, maxSize, us)[..|Recent(us)|] == Recent(us)
  {
    if us != [] {
      var prev := us[..|us| - 1];
      var u := us[|us| - 1];
      ApplyKeepsRecent(l, maxSize, prev);
      var before := Apply(l, maxSize, prev);
      UpdateKeepsInvariant(before, maxSize, u.pname, u.ip);
      RecentStep(before, maxSize, Recent(prev), u);
    }
  }

  /** One more update keeps the recent entries in front, as long as they
      fit in the cache. */
  lemma RecentStep(before: seq<DataBlock>, maxSize: nat, rec: seq<DataBlock>, u: DataBlock)
    requires 0 < maxSize && |before| <= maxSize && DistinctNames(before)
    requires |rec| <= |before| && before[..|rec|] == rec
    requires |[u] + Without(rec, u.pname)| <= maxSize
    ensures |[u] + Without(rec, u.pname)| <= |Updated(before, maxSize, u.pname, u.ip)|
    ensures Updated(before, maxSize, u.pname, u.ip)[..|[u] + Without(rec, u.pname)|] == [u] + Without(rec, u.pname)
  {
    assert u == DataBlock(u.ip, u.pname);
    assert before == rec + before[|rec|..];
    if Find(before, u.pname).Some? {
      UpdatePresent(before, maxSize, u.pname, u.ip);
      WithoutAppend(rec, before[|rec|..], u.pname);
      PrefixOfFront(u, Without(rec, u.pname), Without(before[|rec|..], u.pname));
    } else {
      RecentStepNew(before, maxSize, rec, u);
    }
  }

  lemma RecentStepNew(before: seq<DataBlock>, maxSize: nat, rec: seq<DataBlock>, u: DataBlock)
    requires 0 < maxSize && |before| <= maxSize
    requires |rec| <= |before| && before[..|rec|] == rec
    requires |[u] + Without(rec, u.pname)| <= maxSize
    requires Find(before, u.pname).None?
    ensures Without(rec, u.pname) == rec
    ensures Updated(before, maxSize, u.pname, u.ip)[..|rec| + 1] == [u] + rec
  {
    assert u == DataBlock(u.ip, u.pname);
    forall j | 0 <= j < |rec| ensures rec[j].pname != u.pname {
      assert rec[j] == before[j];
    }
    WithoutAbsent(rec, u.pname);
    KeptPrefix(if |before| == maxSize then before[..|before| - 1] else before, rec, u);
  }

  lemma KeptPrefix(kept: seq<DataBlock>, rec: seq<DataBlock>, u: DataBlock)
    requires |rec| <= |kept| && kept[..|rec|] == rec
    ensures ([u] + kept)[..|rec| + 1] == [u] + rec
  {
    assert kept == rec + kept[|rec|..];
    PrefixOfFront(u, rec, kept[|rec|..]);
  }

  lemma PrefixOfFront(u: DataBlock, a: seq<DataBlock>, b: seq<DataBlock>)
    ensures ([u] + (a + b))[..|a| + 1] == [u] + a
  {
    assert [u] + (a + b) == ([u] + a) + b;
  }

  /** Retention: after at most `maxSize` updates on any cache, every name
      stored resolves to the last address stored under it. */
  lemma RecentUpdatesRetained(l: seq<DataBlock>, maxSize: nat, us: seq<DataBlock>, name: string)
    requires 0 < maxSize && |l| <= maxSize && DistinctNames(l) && |us| <= maxSize
    requires name in LastWrites(us)
    ensures name in ToMap(Apply(l, maxSize, us))
    ensures ToMap(Apply(l, maxSize, us))[name] == LastWrites(us)[name]
  {
    var r := Apply(l, maxSize, us);
    var rec := Recent(us);
    ApplyKeepsRecent(l, maxSize, us);
    ToMapRecent(us);
    assert r == rec + r[|rec|..];
    ToMapAppend(rec, r[|rec|..], name);
  }
}
