/** The freelist: pages that can be allocated, and pages freed by a transaction that must wait
    until no reader can see them any more. */
module Freelists {
  import opened Pgids

  const PGID_SIZE := 8
  const COUNT_OVERFLOW := 0xFFFF  // page.count is 16 bits; this value says the count is elsewhere

  type Pending = map<Txid, seq<Pgid>>

  ghost function PendingIds(pending: Pending): set<Pgid>
  {
    set t, x | t in pending && x in pending[t] :: x
  }

  /** The freed pages by transaction, without their order. */
  ghost function Waiting(pending: Pending): map<Txid, set<Pgid>>
  {
    map t | t in pending :: Elems(pending[t])
  }

  /** No page is freed twice, and none is a meta page. */
  ghost predicate PendingOk(pending: Pending)
  {
    && (forall t :: t in pending ==> NoRepeat(pending[t]) && forall x :: x in pending[t] ==> x >= 2)
    && (forall t, u :: t in pending && u in pending && t != u ==> Elems(pending[t]) !! Elems(pending[u]))
  }

  ghost predicate FreeOk(ids: seq<Pgid>, pending: Pending)
  {
    Ascending(ids) && Elems(ids) !! PendingIds(pending) && forall x :: x in ids ==> x >= 2
  }

  ghost function UpTo(pending: Pending, txid: int): Pending
  {
    map t | t in pending && t <= txid :: pending[t]
  }

  ghost function After(pending: Pending, txid: int): Pending
  {
    map t | t in pending && t > txid :: pending[t]
  }

  // ---- the lowest run of consecutive ids ----

  /** The ids before position i end in a run of consecutive ids that starts at initial and
      cannot be extended downwards. */
  ghost predicate Streak(ids: seq<Pgid>, i: nat, initial: Pgid)
    requires 0 < i <= |ids|
  {
    var len := ids[i - 1] - initial + 1;
    && 1 <= len <= i
    && (forall k :: i - len <= k < i ==> ids[k] == initial + (k - (i - len)))
    && (i - len > 0 ==> ids[i - len - 1] < initial - 1)
  }

  ghost predicate HasRun(ids: seq<Pgid>, s: Pgid, n: nat)
  {
    forall x :: s <= x < s + n ==> x in ids
  }

  lemma {:induction false} StreakNext(ids: seq<Pgid>, i: nat, initial: Pgid)
    requires Ascending(ids) && i < |ids|
    requires i > 0 ==> Streak(ids, i, initial)
    ensures Streak(ids, i + 1, if i > 0 && ids[i] - ids[i - 1] == 1 then initial else ids[i])
  {
  }

  lemma {:induction false} RunsEarlier(ids: seq<Pgid>, i: nat, s: Pgid, n: nat)
    requires Ascending(ids) && i < |ids| && HasRun(ids, s, n) && s + n <= ids[i]
    ensures HasRun(ids[..i], s, n)
  {
    forall x | s <= x < s + n ensures x in ids[..i] {
      assert x in ids;
      var k :| 0 <= k < |ids| && ids[k] == x;
      assert k < i;
      assert ids[..i][k] == x;
    }
  }

  lemma {:induction false} NotIn(ids: seq<Pgid>, i: nat, initial: Pgid)
    requires Ascending(ids) && i < |ids| && Streak(ids, i + 1, initial)
    ensures initial - 1 !in ids[..i + 1]
  {
  }

  /** A streak shorter than n adds no run of n ids. */
  lemma {:induction false} NoRunYet(ids: seq<Pgid>, i: nat, initial: Pgid, n: nat, s: Pgid)
    requires Ascending(ids) && i < |ids| && Streak(ids, i + 1, initial) && ids[i] - initial + 1 < n
    requires !HasRun(ids[..i], s, n)
    ensures !HasRun(ids[..i + 1], s, n)
  {
    var pre := ids[..i + 1];
    assert pre[..i] == ids[..i];
    if s + n <= ids[i] {
      if HasRun(pre, s, n) {
        RunsEarlier(pre, i, s, n);
      }
    } else if s + n - 1 > ids[i] {
      assert s + n - 1 !in pre;
    } else {
      NotIn(ids, i, initial);
      assert s <= initial - 1;
    }
  }

  /** The first streak of n ids is the lowest run of n ids. */
  lemma {:induction false} LowestRun(ids: seq<Pgid>, i: nat, initial: Pgid, n: nat, s: Pgid)
    requires Ascending(ids) && i < |ids| && Streak(ids, i + 1, initial) && ids[i] - initial + 1 == n
    requires !HasRun(ids[..i], s, n) && HasRun(ids, s, n)
    ensures initial <= s
  {
    if s < initial {
      RunsEarlier(ids, i, s, n);
    }
  }

  /** n consecutive ids of the list are a run. */
  lemma {:induction false} PartRun(ids: seq<Pgid>, j: nat, initial: Pgid, n: nat)
    requires j + n <= |ids| && forall k :: j <= k < j + n ==> ids[k] == initial + (k - j)
    ensures Elems(ids[j..j + n]) == Run(initial, n)
  {
    var m := ids[j..j + n];
    forall x | x in Run(initial, n) ensures x in m {
      assert m[x - initial] == ids[j + (x - initial)];
    }
  }

  /** The ids before and after a part of an ascending list are not in that part. */
  lemma {:induction false} PartApart(ids: seq<Pgid>, j: nat, n: nat)
    requires Ascending(ids) && j + n <= |ids|
    ensures Ascending(ids[..j] + ids[j + n..]) && Elems(ids[..j] + ids[j + n..]) !! Elems(ids[j..j + n])
  {
    var r, m := ids[..j] + ids[j + n..], ids[j..j + n];
    forall k, i | 0 <= k < |r| && 0 <= i < |m| ensures r[k] != m[i] {
      assert r[k] == ids[if k < j then k else k + n] && m[i] == ids[j + i];
    }
  }

  /** Cutting n consecutive ids out of the list removes exactly that run. */
  lemma {:induction false} CutRun(ids: seq<Pgid>, j: nat, initial: Pgid, n: nat)
    requires Ascending(ids) && j + n <= |ids| && forall k :: j <= k < j + n ==> ids[k] == initial + (k - j)
    ensures Ascending(ids[..j] + ids[j + n..]) && Run(initial, n) <= Elems(ids)
    ensures Elems(ids[..j] + ids[j + n..]) == Elems(ids) - Run(initial, n)
  {
    PartRun(ids, j, initial, n);
    PartApart(ids, j, n);
    ElemsParts(ids[..j], ids[j..j + n], ids[j + n..]);
    assert ids == ids[..j] + ids[j..j + n] + ids[j + n..];
  }

  lemma {:induction false} ElemsParts(a: seq<Pgid>, m: seq<Pgid>, b: seq<Pgid>)
    ensures Elems(a + m + b) == Elems(a + b) + Elems(m)
  {
  }

  // ---- pending lists ----

  lemma {:induction false} PendingAdd(p: Pending, t: Txid)
    requires t in p
    ensures PendingIds(p) == PendingIds(p - {t}) + Elems(p[t])
  {
    forall x | x in PendingIds(p) && x !in p[t] ensures x in PendingIds(p - {t}) {
      var u :| u in p && x in p[u];
      assert u in p - {t} && x in (p - {t})[u];
    }
    forall x | x in PendingIds(p - {t}) ensures x in PendingIds(p) {
      var u :| u in p - {t} && x in (p - {t})[u];
      assert x in p[u];
    }
  }

  lemma {:induction false} PendingApart(p: Pending, t: Txid)
    requires PendingOk(p) && t in p
    ensures Elems(p[t]) !! PendingIds(p - {t})
  {
    forall x | x in PendingIds(p - {t}) ensures x !in Elems(p[t]) {
      var u :| u in p - {t} && x in p[u];
      assert x in Elems(p[u]);
    }
  }

  lemma {:induction false} CountAdd(p: Pending, t: Txid)
    requires PendingOk(p) && t in p
    ensures |PendingIds(p)| == |PendingIds(p - {t})| + |p[t]|
  {
    PendingAdd(p, t);
    PendingApart(p, t);
    ElemsCount(p[t]);
  }

  lemma {:induction false} PartOk(p: Pending, q: Pending)
    requires PendingOk(p) && forall t :: t in q ==> t in p && q[t] == p[t]
    ensures PendingOk(q)
  {
  }

  // ---- the page it is stored on ----

  /** A freelist page: the 16-bit count of its header and the ids after it. */
  class FreelistPage {
    var count: nat
    const data: array<Pgid>

    constructor (capacity: nat)
      ensures count == 0 && fresh(data) && data.Length == capacity
    {
      count := 0;
      data := new Pgid[capacity];
    }

    /** The page on which a list of ids is stored. */
    constructor Of(ids: seq<Pgid>)
      ensures Ok() && Stored() == ids && fresh(data)
    {
      var n := if |ids| < COUNT_OVERFLOW then |ids| else COUNT_OVERFLOW;
      var raw := if |ids| < COUNT_OVERFLOW then ids else [|ids|] + ids;
      count := n;
      data := new Pgid[|raw|](i requires 0 <= i < |raw| => raw[i]);
      new;
      assert data[..] == raw;
    }

    /** The ids as freelist.read copies them: with idx 1 the slice up to count is one short. */
    method Load() returns (s: seq<Pgid>)
      requires Ok()
      ensures s == if count == 0xFFFF then data[1..data[0]] else data[..count]
      ensures s == ReadBack(Stored())
    {
      var idx, n := 0, count;
      if n == COUNT_OVERFLOW {
        idx := 1;
        n := data[0];
      }
      s := data[idx..n];
    }

    /** All the ids on the page. */
    method Image() returns (s: seq<Pgid>)
      requires Ok()
      ensures s == Stored()
    {
      s := if count == COUNT_OVERFLOW then data[1..1 + data[0]] else data[..count];
    }

    ghost predicate Ok()
      reads this, data
    {
      if count == 0xFFFF then data.Length > 0 && 0xFFFF <= data[0] < data.Length
      else count < 0xFFFF && count <= data.Length
    }

    /** The ids the page holds. */
    ghost function Stored(): seq<Pgid>
      requires Ok()
      reads this, data
    {
      if count == 0xFFFF then data[1..1 + data[0]] else data[..count]
    }
  }

  /** What reading makes of the stored ids: from 0xFFFF ids on, the last one is lost. */
  ghost function ReadBack(s: seq<Pgid>): seq<Pgid>
  {
    if |s| >= 0xFFFF then s[..|s| - 1] else s
  }

  /** Reading gives back what was stored exactly when there are fewer than 0xFFFF ids;
      otherwise all but the largest id. */
  lemma {:induction false} ReadBackIs(s: seq<Pgid>)
    requires Ascending(s)
    ensures Ascending(ReadBack(s))
    ensures Elems(ReadBack(s)) == Elems(s) <==> |s| < 0xFFFF
    ensures |s| >= 0xFFFF ==> Elems(ReadBack(s)) == Elems(s) - {s[|s| - 1]}
  {
    if |s| >= 0xFFFF {
      var r, last := s[..|s| - 1], s[|s| - 1];
      assert s == r + [last];
      assert Elems(s) == Elems(r) + {last} && last !in Elems(r);
    }
  }

  class Freelist {
    var ids: seq<Pgid>
    var pending: Pending
    var cache: set<Pgid>

    ghost predicate Valid()
      reads this
    {
      PendingOk(pending) && FreeOk(ids, pending) && cache == Elems(ids) + PendingIds(pending)
    }

    constructor ()
      ensures Valid() && ids == [] && pending == map[]
    {
      ids := [];
      pending := map[];
      cache := {};
    }

    /** count: free and pending pages. */
    method Count() returns (n: nat)
      requires Valid()
      ensures n == |cache|
    {
      var c := PendingCount();
      n := |ids| + c;
      ElemsCount(ids);
      assert Elems(ids) !! PendingIds(pending);
    }

    method PendingCount() returns (count: nat)
      requires PendingOk(pending)
      ensures count == |PendingIds(pending)|
    {
      count := 0;
      var todo := pending.Keys;
      while todo != {}
        invariant todo <= pending.Keys && count == |PendingIds(pending - todo)|
      {
        var t :| t in todo;
        ghost var seen := pending - (todo - {t});
        CountAdd(seen, t);
        assert seen - {t} == pending - todo;
        count := count + |pending[t]|;
        todo := todo - {t};
      }
      assert pending - todo == pending;
    }

    /** The ids of all pending lists, in some order. */
    method PendingList() returns (m: seq<Pgid>)
      requires PendingOk(pending)
      ensures NoRepeat(m) && Elems(m) == PendingIds(pending)
    {
      m := [];
      var todo := pending.Keys;
      while todo != {}
        invariant todo <= pending.Keys && NoRepeat(m) && Elems(m) == PendingIds(pending - todo)
      {
        var t :| t in todo;
        ghost var seen := pending - (todo - {t});
        PendingAdd(seen, t);
        PendingApart(seen, t);
        assert seen - {t} == pending - todo;
        NoRepeatConcat(m, pending[t]);
        m := m + pending[t];
        todo := todo - {t};
      }
      assert pending - todo == pending;
    }

    /** size: the bytes the freelist takes on a page. */
    method Size() returns (sz: nat)
      requires Valid()
      ensures sz == SizeOf(|cache|)
    {
      var n := Count();
      if n >= COUNT_OVERFLOW {
        n := n + 1;
      }
      sz := PAGE_HEADER_SIZE + PGID_SIZE * n;
    }

    /** copyall: all free and pending ids into dst, sorted. */
    method Copyall(dst: array<Pgid>, at: nat)
      requires Valid() && at + |cache| <= dst.Length
      modifies dst
      ensures dst[..at] == old(dst[..at])
      ensures Ascending(dst[at..at + |cache|]) && Elems(dst[at..at + |cache|]) == cache
    {
      var m := PendingList();
      SortApart(m);
      ElemsCount(ids);
      ElemsCount(Sort(m));
      assert |cache| == |ids| + |Sort(m)|;
      MergePgids(dst, at, ids, Sort(m));
      MergedAscending(dst[at..at + |ids| + |Sort(m)|], ids, Sort(m));
    }

    /** allocate: the start of the lowest run of n free ids, which is taken out; 0 if there is none. */
    method Allocate(n: nat) returns (p: Pgid)
      requires Valid() && n > 0
      modifies `ids, `cache
      ensures Valid()
      ensures p == 0 ==> ids == old(ids) && forall s :: !(Run(s, n) <= old(Elems(ids)))
      ensures p != 0 ==> Run(p, n) <= old(Elems(ids)) && Elems(ids) == old(Elems(ids)) - Run(p, n)
      ensures p != 0 ==> forall s :: Run(s, n) <= old(Elems(ids)) ==> p <= s
    {
      var initial: Pgid, previd: Pgid := 0, 0;
      forall s ensures !HasRun(ids[..0], s, n) {
        assert s !in ids[..0];
      }
      for i := 0 to |ids|
        invariant ids == old(ids) && cache == old(cache)
        invariant i == 0 ==> previd == 0
        invariant i > 0 ==> previd == ids[i - 1] && previd > 0 && Streak(ids, i, initial) && previd - initial + 1 < n
        invariant forall s :: !HasRun(ids[..i], s, n)
      {
        var id := ids[i];
        assert id in ids;
        StreakNext(ids, i, initial);
        if previd == 0 || id - previd != 1 {
          initial := id;
        }
        if id - initial + 1 == n {
          Take(i, initial, n);
          return initial;
        }
        previd := id;
        forall s {:trigger HasRun(ids[..i + 1], s, n)} ensures !HasRun(ids[..i + 1], s, n) {
          NoRunYet(ids, i, initial, n, s);
        }
      }
      p := 0;
      forall s ensures !(Run(s, n) <= Elems(ids)) {
        assert ids[..|ids|] == ids;
        RunIs(ids, s, n);
      }
    }

    /** The end of allocate: the run of n ids that ends at position i is taken out. */
    method Take(i: nat, initial: Pgid, n: nat)
      requires Valid() && n > 0 && i < |ids| && Streak(ids, i + 1, initial) && ids[i] - initial + 1 == n
      requires forall s {:trigger HasRun(ids[..i], s, n)} :: !HasRun(ids[..i], s, n)
      modifies `ids, `cache
      ensures Valid() && initial != 0
      ensures Run(initial, n) <= old(Elems(ids)) && Elems(ids) == old(Elems(ids)) - Run(initial, n)
      ensures forall s :: Run(s, n) <= old(Elems(ids)) ==> initial <= s
    {
      var j := i + 1 - n;
      CutRun(ids, j, initial, n);
      forall s | Run(s, n) <= Elems(ids) ensures initial <= s {
        RunIs(ids, s, n);
        LowestRun(ids, i, initial, n, s);
      }
      assert initial in Run(initial, n);
      ghost var rest := ids[..j] + ids[j + n..];
      if i + 1 == n {
        ids := ids[i + 1..];
      } else {
        ids := ids[..i - n + 1] + ids[i + 1..];
      }
      assert ids == rest;
      TakeOk(old(ids), ids, pending);
      Uncache(initial, n);
    }

    method Uncache(initial: Pgid, n: nat)
      modifies `cache
      ensures cache == old(cache) - Run(initial, n)
    {
      for k := 0 to n
        invariant cache == old(cache) - Run(initial, k)
      {
        cache := cache - {initial + k};
      }
    }

    /** free: a page and its overflow pages wait for the end of the readers that can see them. */
    method Free(txid: Txid, p: Pgid, overflow: nat)
      requires Valid() && p > 1 && Run(p, overflow + 1) !! cache
      modifies `pending, `cache
      ensures Valid() && cache == old(cache) + Run(p, overflow + 1)
      ensures Waiting(pending) == old(Waiting(pending))[txid :=
        (if txid in old(pending) then old(Elems(pending[txid])) else {}) + Run(p, overflow + 1)]
    {
      var list := if txid in pending then pending[txid] else [];
      assert Elems(list) <= PendingIds(pending);
      list := Append(list, p, overflow);
      FreedOk(pending, txid, list, Run(p, overflow + 1));
      pending := pending[txid := list];
    }

    /** The loop of free. */
    method Append(list: seq<Pgid>, p: Pgid, overflow: nat) returns (r: seq<Pgid>)
      requires NoRepeat(list) && Elems(list) <= cache && Run(p, overflow + 1) !! cache
      modifies `cache
      ensures NoRepeat(r) && Elems(r) == Elems(list) + Run(p, overflow + 1)
      ensures cache == old(cache) + Run(p, overflow + 1)
    {
      r := list;
      for id := p to p + overflow + 1
        invariant NoRepeat(r) && Elems(r) == Elems(list) + Run(p, id - p)
        invariant cache == old(cache) + Run(p, id - p)
      {
        AppendId(r, id);
        assert Run(p, id + 1 - p) == Run(p, id - p) + {id};
        r := r + [id];
        cache := cache + {id};
      }
    }

    /** release: what transactions up to txid freed becomes available. */
    method Release(txid: int)
      requires Valid()
      modifies `ids, `pending
      ensures Valid() && cache == old(cache) && pending == After(old(pending), txid)
      ensures Elems(ids) == old(Elems(ids)) + PendingIds(UpTo(old(pending), txid))
      ensures forall t :: t in pending <==> t in old(pending) && t > txid
      ensures forall t :: t in pending ==> pending[t] == old(pending)[t]
    {
      var m := TakeUpTo(txid);
      SortApart(m);
      ReleaseOk(old(pending), txid);
      var all := Merge(ids, Sort(m));
      MergedAscending(all, ids, Sort(m));
      ReleasedOk(ids, old(pending), txid, all);
      ids := all;
    }

    /** The loop of release. */
    method TakeUpTo(txid: int) returns (m: seq<Pgid>)
      requires PendingOk(pending)
      modifies `pending
      ensures pending == After(old(pending), txid)
      ensures NoRepeat(m) && Elems(m) == PendingIds(UpTo(old(pending), txid))
    {
      m := [];
      var todo := pending.Keys;
      ghost var old' := pending;
      while todo != {}
        invariant todo <= old'.Keys && pending == map t | t in old' && (t in todo || t > txid) :: old'[t]
        invariant NoRepeat(m) && Elems(m) == PendingIds(UpTo(old' - todo, txid))
      {
        var t :| t in todo;
        TakeOne(old', todo, t, txid, m);
        if t <= txid {
          m := m + pending[t];
          pending := pending - {t};
        }
        todo := todo - {t};
      }
      assert old' - todo == old';
    }

    /** rollback: what a transaction freed is in use again. */
    method Rollback(txid: Txid)
      requires Valid()
      modifies `pending, `cache
      ensures Valid() && pending == old(pending) - {txid}
      ensures cache == old(cache) - (if txid in old(pending) then old(Elems(pending[txid])) else {})
    {
      var list := if txid in pending then pending[txid] else [];
      for i := 0 to |list|
        invariant cache == old(cache) - Elems(list[..i]) && pending == old(pending)
      {
        assert list[..i + 1] == list[..i] + [list[i]];
        cache := cache - {list[i]};
      }
      assert list[..|list|] == list;
      pending := pending - {txid};
      if txid in old(pending) {
        PendingAdd(old(pending), txid);
        PendingApart(old(pending), txid);
      } else {
        assert pending == old(pending);
      }
    }

    /** reindex: the cache of all free and pending ids. */
    method Reindex()
      modifies `cache
      ensures cache == Elems(ids) + PendingIds(pending)
    {
      cache := {};
      for i := 0 to |ids|
        invariant cache == Elems(ids[..i])
      {
        assert ids[..i + 1] == ids[..i] + [ids[i]];
        cache := cache + {ids[i]};
      }
      assert ids[..|ids|] == ids;
      var todo := pending.Keys;
      while todo != {}
        invariant todo <= pending.Keys && cache == Elems(ids) + PendingIds(pending - todo)
      {
        var t :| t in todo;
        ghost var seen := pending - (todo - {t});
        PendingAdd(seen, t);
        assert seen - {t} == pending - todo;
        cache := cache + (set x | x in pending[t]);
        todo := todo - {t};
      }
      assert pending - todo == pending;
    }

    /** write: all free and pending ids go to the page. */
    method Write(p: FreelistPage)
      requires Valid() && SizeOf(|cache|) <= 16 + 8 * p.data.Length
      modifies p, p.data
      ensures p.Ok() && Ascending(p.Stored()) && Elems(p.Stored()) == cache
      ensures |cache| < 0xFFFF ==> p.count == |cache|
      ensures |cache| >= 0xFFFF ==> p.count == 0xFFFF && p.data[0] == |cache|
    {
      var lenids := Count();
      if lenids == 0 {
        p.count := 0;
      } else if lenids < COUNT_OVERFLOW {
        WriteShort(p, lenids);
      } else {
        WriteLong(p, lenids);
      }
    }

    method WriteShort(p: FreelistPage, lenids: nat)
      requires Valid() && lenids == |cache| <= p.data.Length && lenids < COUNT_OVERFLOW
      modifies p, p.data
      ensures p.Ok() && Ascending(p.Stored()) && Elems(p.Stored()) == cache && p.count == lenids
    {
      p.count := lenids;
      Copyall(p.data, 0);
      assert p.data[0..0 + |cache|] == p.data[..lenids];
    }

    /** The count does not fit its field: it goes before the ids. */
    method WriteLong(p: FreelistPage, lenids: nat)
      requires Valid() && lenids == |cache| < p.data.Length && lenids >= COUNT_OVERFLOW
      modifies p, p.data
      ensures p.Ok() && Ascending(p.Stored()) && Elems(p.Stored()) == cache
      ensures p.count == 0xFFFF && p.data[0] == lenids
    {
      p.count := COUNT_OVERFLOW;
      p.data[0] := lenids;
      Copyall(p.data, 1);
      assert p.data[0] == lenids by { assert p.data[..1][0] == lenids; }
      assert p.Stored() == p.data[1..1 + lenids];
    }

    /** read: the ids from a page, sorted. */
    method Read(p: FreelistPage)
      requires p.Ok()
      modifies `ids, `cache
      ensures Sorted(ids) && multiset(ids) == multiset(ReadBack(p.Stored()))
      ensures cache == Elems(ids) + PendingIds(pending)
    {
      var list := p.Load();
      SetIds(list);
    }

    method SetIds(list: seq<Pgid>)
      modifies `ids, `cache
      ensures Sorted(ids) && multiset(ids) == multiset(list) && cache == Elems(ids) + PendingIds(pending)
    {
      ids := Sort(list);
      Reindex();
    }

    /** reload: the ids from a page without those that are pending. */
    method Reload(p: FreelistPage)
      requires PendingOk(pending) && p.Ok()
      modifies `ids, `cache
      ensures Sorted(ids) && Elems(ids) == Elems(ReadBack(p.Stored())) - PendingIds(pending)
      ensures cache == Elems(ids) + PendingIds(pending)
      ensures Proper(ReadBack(p.Stored())) ==> Valid()
    {
      Read(p);
      SameIds(ids, ReadBack(p.Stored()));
      DropPending();
    }

    method DropPending()
      requires PendingOk(pending) && Sorted(ids)
      modifies `ids, `cache
      ensures Sorted(ids) && Elems(ids) == old(Elems(ids)) - PendingIds(pending)
      ensures cache == Elems(ids) + PendingIds(pending)
      ensures Proper(old(ids)) ==> Valid()
    {
      var a := Unpending();
      WithoutPendingOk(ids, pending, a);
      ids := a;
      Reindex();
    }

    /** The loop of reload: the ids that are not pending. */
    method Unpending() returns (a: seq<Pgid>)
      requires PendingOk(pending) && Sorted(ids)
      ensures Sorted(a) && (Proper(ids) ==> Proper(a)) && Elems(a) == Elems(ids) - PendingIds(pending)
    {
      var m := PendingList();
      var pcache := set x | x in m;
      a := [];
      for i := 0 to |ids|
        invariant Sorted(a) && (Proper(ids) ==> Proper(a)) && Elems(a) == Elems(ids[..i]) - PendingIds(pending)
      {
        assert Elems(ids[..i + 1]) == Elems(ids[..i]) + {ids[i]} by { assert ids[..i + 1] == ids[..i] + [ids[i]]; }
        if ids[i] !in pcache {
          AppendKept(ids, i, a);
          a := a + [ids[i]];
        }
      }
      assert ids[..|ids|] == ids;
    }
  }

  lemma {:induction false} AppendKept(ids: seq<Pgid>, i: nat, a: seq<Pgid>)
    requires i < |ids| && Sorted(ids) && Sorted(a) && Elems(a) <= Elems(ids[..i])
    ensures Elems(a + [ids[i]]) == Elems(a) + {ids[i]} && Sorted(a + [ids[i]])
    ensures Proper(ids) && Proper(a) ==> Proper(a + [ids[i]])
  {
    assert ids[i] in ids;
    forall k | 0 <= k < |a| ensures a[k] in ids[..i] {
      assert a[k] in Elems(a);
    }
  }

  /** Ids that a freelist may hold. */
  ghost predicate Proper(s: seq<Pgid>)
  {
    NoRepeat(s) && forall x :: x in s ==> x >= 2
  }

  lemma {:induction false} SameIds(a: seq<Pgid>, b: seq<Pgid>)
    requires multiset(a) == multiset(b)
    ensures Elems(a) == Elems(b) && (Proper(b) ==> Proper(a))
  {
    forall x ensures x in a <==> x in b {
      assert multiset(a)[x] == multiset(b)[x];
    }
    if NoRepeat(b) {
      forall i, j | 0 <= i < j < |a| ensures a[i] != a[j] {
        if a[i] == a[j] {
          Repeated(a, i, j);
          OnceEach(b, a[i]);
        }
      }
    }
  }

  /** Ids that are stored in order are read as they are. */
  lemma {:induction false} ReadInOrder(ids: seq<Pgid>, s: seq<Pgid>)
    requires Ascending(s) && Sorted(ids) && multiset(ids) == multiset(ReadBack(s))
    ensures ids == ReadBack(s)
  {
    ReadBackIs(s);
    assert NoRepeat(ReadBack(s));
    forall i, j | 0 <= i < j < |ids| ensures ids[i] < ids[j] {
      if ids[i] == ids[j] {
        Repeated(ids, i, j);
        OnceEach(ReadBack(s), ids[i]);
      }
    }
    forall x ensures x in ids <==> x in ReadBack(s) {
      assert multiset(ids)[x] == multiset(ReadBack(s))[x];
    }
    AscendingUnique(ids, ReadBack(s));
  }

  lemma {:induction false} WithoutPendingOk(ids: seq<Pgid>, pending: Pending, a: seq<Pgid>)
    requires Sorted(a) && (Proper(ids) ==> Proper(a)) && Elems(a) == Elems(ids) - PendingIds(pending)
    ensures Proper(ids) ==> FreeOk(a, pending)
  {
  }

  /** The bytes n ids take on a freelist page; one more id if the count does not fit its field. */
  ghost function SizeOf(n: nat): nat
  {
    16 + 8 * (if n >= 0xFFFF then n + 1 else n)
  }

  lemma {:induction false} RunIs(ids: seq<Pgid>, s: Pgid, n: nat)
    ensures Run(s, n) <= Elems(ids) <==> HasRun(ids, s, n)
  {
    if HasRun(ids, s, n) {
      assert forall x :: x in Run(s, n) ==> x in ids;
    } else {
      var x :| s <= x < s + n && x !in ids;
      assert x in Run(s, n) && x !in Elems(ids);
    }
  }

  lemma {:induction false} NoRepeatConcat(a: seq<Pgid>, b: seq<Pgid>)
    requires NoRepeat(a) && NoRepeat(b) && Elems(a) !! Elems(b)
    ensures NoRepeat(a + b) && Elems(a + b) == Elems(a) + Elems(b)
  {
    forall i, j | 0 <= i < j < |a + b| ensures (a + b)[i] != (a + b)[j] {
      if i < |a| <= j {
        assert a[i] in Elems(a) && b[j - |a|] in Elems(b);
      }
    }
  }

  lemma {:induction false} AppendId(list: seq<Pgid>, id: Pgid)
    requires NoRepeat(list) && id !in Elems(list)
    ensures NoRepeat(list + [id]) && Elems(list + [id]) == Elems(list) + {id}
  {
    assert forall x :: x in list ==> x in Elems(list);
  }

  /** Sorting keeps ids apart. */
  lemma {:induction false} SortApart(m: seq<Pgid>)
    requires NoRepeat(m)
    ensures Ascending(Sort(m)) && NoRepeat(Sort(m)) && Elems(Sort(m)) == Elems(m)
  {
    MergedAscending(Sort(m), m, []);
  }

  lemma {:induction false} TakeOk(ids: seq<Pgid>, ids': seq<Pgid>, pending: Pending)
    requires FreeOk(ids, pending) && Ascending(ids') && Elems(ids') <= Elems(ids)
    ensures FreeOk(ids', pending)
  {
    assert forall x :: x in ids' ==> x in Elems(ids');
  }

  lemma {:induction false} FreedOk(pending: Pending, txid: Txid, list: seq<Pgid>, run: set<Pgid>)
    requires PendingOk(pending) && NoRepeat(list) && run !! PendingIds(pending) && forall x :: x in run ==> x >= 2
    requires Elems(list) == (if txid in pending then Elems(pending[txid]) else {}) + run
    ensures PendingOk(pending[txid := list]) && PendingIds(pending[txid := list]) == PendingIds(pending) + run
  {
    var p' := pending[txid := list];
    assert forall x :: x in list ==> x in Elems(list);
    PendingAdd(p', txid);
    assert p' - {txid} == pending - {txid};
    if txid in pending {
      PendingAdd(pending, txid);
    } else {
      assert pending - {txid} == pending;
    }
    forall t, u | t in p' && u in p' && t != u ensures Elems(p'[t]) !! Elems(p'[u]) {
      assert t in pending ==> Elems(pending[t]) <= PendingIds(pending);
      assert u in pending ==> Elems(pending[u]) <= PendingIds(pending);
    }
  }

  lemma {:induction false} ReleaseOk(pending: Pending, txid: int)
    requires PendingOk(pending)
    ensures PendingOk(After(pending, txid)) && PendingOk(UpTo(pending, txid))
    ensures PendingIds(pending) == PendingIds(After(pending, txid)) + PendingIds(UpTo(pending, txid))
    ensures PendingIds(After(pending, txid)) !! PendingIds(UpTo(pending, txid))
    ensures forall x :: x in PendingIds(pending) ==> x >= 2
  {
    forall x | x in PendingIds(After(pending, txid)) ensures x !in PendingIds(UpTo(pending, txid)) {
      var t :| t in After(pending, txid) && x in pending[t];
      assert x in Elems(pending[t]);
      forall u | u in UpTo(pending, txid) ensures x !in pending[u] {
        assert Elems(pending[t]) !! Elems(pending[u]);
        assert x !in Elems(pending[u]);
      }
    }
    forall x | x in PendingIds(pending)
      ensures x in PendingIds(After(pending, txid)) + PendingIds(UpTo(pending, txid))
    {
      var t :| t in pending && x in pending[t];
      assert t in After(pending, txid) || t in UpTo(pending, txid);
    }
  }

  /** A turn of the loop of release. */
  lemma {:induction false} TakeOne(pending: Pending, todo: set<Txid>, t: Txid, txid: int, m: seq<Pgid>)
    requires PendingOk(pending) && t in todo && t in pending
    requires NoRepeat(m) && Elems(m) == PendingIds(UpTo(pending - todo, txid))
    ensures var m' := if t <= txid then m + pending[t] else m;
            NoRepeat(m') && Elems(m') == PendingIds(UpTo(pending - (todo - {t}), txid))
  {
    var seen := UpTo(pending - (todo - {t}), txid);
    if t <= txid {
      assert seen - {t} == UpTo(pending - todo, txid);
      PartOk(pending, seen);
      PendingAdd(seen, t);
      PendingApart(seen, t);
      NoRepeatConcat(m, pending[t]);
    } else {
      assert seen == UpTo(pending - todo, txid);
    }
  }

  lemma {:induction false} ReleasedOk(ids: seq<Pgid>, pending: Pending, txid: int, ids': seq<Pgid>)
    requires PendingOk(pending) && FreeOk(ids, pending) && Ascending(ids')
    requires Elems(ids') == Elems(ids) + PendingIds(UpTo(pending, txid))
    ensures PendingOk(After(pending, txid)) && FreeOk(ids', After(pending, txid))
    ensures Elems(ids') + PendingIds(After(pending, txid)) == Elems(ids) + PendingIds(pending)
  {
    ReleaseOk(pending, txid);
    forall x | x in ids' ensures x >= 2 {
      assert x in Elems(ids');
    }
  }
}
