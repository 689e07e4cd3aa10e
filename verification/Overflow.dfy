/** A freelist that overflows its count: the case in which reading it back loses a page does occur. */
module Overflows {
  import opened Options
  import opened Pgids
  import opened Protocol
  import opened Safety
  import opened Runs
  import Freelists

  /** The pages of a database with a freelist on pages 2 to 130 and a tree of one page, 131. */
  ghost function FullPages(n: nat, leaf: int): (r: Disk)
    ensures r.Keys == Run(2, 130)
  {
    map x | x in Run(2, 130) :: if x == 2 then List(seq(n, i => 132 + i), 128) else Data(leaf)
  }

  ghost function FullMeta(n: nat): Meta
  {
    Meta(1, 131, 2, 132 + n)
  }

  ghost function FullVersion(n: nat, leaf: int): Snapshot
  {
    Snapshot(FullMeta(n), map[131 := 0], 128, FullPages(n, leaf))
  }

  /** That database, with n free pages above its tree. */
  ghost function Full(n: nat, leaf: int): State
  {
    var m := FullMeta(n);
    State(FullPages(n, leaf)[0 := MetaPage(m.(txid := 0), true)][1 := MetaPage(m, true)], map[], Run(132, n), map[],
          [], None,
          map[1 := FullVersion(n, leaf)])
  }

  lemma {:induction false} FullIds(n: nat)
    ensures Elems(seq(n, i => 132 + i)) == Run(132, n)
  {
    var ids := seq(n, i => 132 + i);
    forall x | x in Run(132, n) ensures x in ids {
      assert ids[x - 132] == x;
    }
  }

  lemma {:induction false} FullSnap(n: nat, leaf: int)
    ensures var sn := FullVersion(n, leaf);
            SnapOk(sn) && Ids(sn) == seq(n, i => 132 + i) && sn.pages.Keys == Run(2, 130)
  {
    var sn := FullVersion(n, leaf);
    assert PageRun(sn.tree, 131) == {131};
    assert Span(sn.tree) == {131};
  }

  lemma {:induction false} FullCurrent(n: nat, leaf: int)
    ensures var s := Full(n, leaf);
            CurrentIn(s.disk, FullMeta(n)) && Readable(s.disk) && Durable(s) == FullMeta(n)
  {
    CurrentIs(Full(n, leaf).disk, FullMeta(n));
  }

  lemma {:induction false} FullSpace(n: nat, leaf: int)
    ensures SpaceOk(Run(2, 130), Run(132, n), map[], 132 + n) && PendingIds(map[]) == {}
  {
  }

  /** A database with one version and no one at work, whose free pages are those its freelist stores. */
  lemma {:induction false} RestingInv(s: State, sn: Snapshot)
    requires s.writer == None && s.cached == map[] && s.pending == map[] && s.readers == []
    requires Readable(s.disk) && CurrentIn(s.disk, sn.meta) && Durable(s) == sn.meta
      && s.snaps == map[sn.meta.txid := sn]
    requires SnapOk(sn) && OnDisk(s.disk, s.cached, sn) && s.free == Elems(Ids(sn))
    requires SpaceOk(sn.pages.Keys, s.free, s.pending, sn.meta.pgid) && All(sn.pages.Keys, s.free, sn.meta.pgid)
    ensures Inv(s) && Covers(s)
  {
    ReadListLess(Ids(sn));
    assert PendingIds(s.pending) == {};
  }

  lemma {:induction false} FullInv(n: nat, leaf: int)
    ensures Inv(Full(n, leaf)) && Durable(Full(n, leaf)) == FullMeta(n) && Covers(Full(n, leaf))
  {
    FullCurrent(n, leaf);
    FullSnap(n, leaf);
    FullIds(n);
    FullSpace(n, leaf);
    FullOnDisk(n, leaf);
    RestingInv(Full(n, leaf), FullVersion(n, leaf));
  }

  lemma {:induction false} FullOnDisk(n: nat, leaf: int)
    ensures OnDisk(Full(n, leaf).disk, map[], FullVersion(n, leaf))
  {
  }

  /** A writer that begins finds nothing to release. */
  lemma {:induction false} NothingPending(s: State)
    requires Idle(s) && s.writer == None && s.pending == map[]
    ensures Readable(s.disk + s.cached) && DbMeta(s.disk + s.cached).txid in s.snaps
    ensures var t := BeginWrite(s);
            && t == s.(writer := t.writer) && t.writer.Some? && t.writer.value.phase == Open
            && t.writer.value.free0 == s.free && t.writer.value.pending0 == map[]
  {
    BeginReadIdle(s);
    assert UpTo(s.pending, MinId(s.readers) - 1) == {} && BeginWrite(s).pending == map[];
  }

  /** From 0xFFFF ids on, a rollback loses the last one if that page was free. */
  lemma {:induction false} AbortLoses(t: State)
    requires Inv(t) && InPhase(t, Open) && t.pending == map[] && Known(t, t.disk) && Loses(t, Abort)
    requires t.free == t.writer.value.free0 == Elems(Ids(t.snaps[Durable(t).txid]))
    ensures var last := Largest(Ids(t.snaps[Durable(t).txid]));
            Rollback(t).free == t.free - {last} != t.free
  {
    ReadListIs(Ids(t.snaps[Durable(t).txid]));
    assert PendingIds(t.pending - {t.writer.value.meta.txid}) == {};
  }

  /** All is accounted for in s; a writer can begin and roll back, and then page x is not free any more. */
  ghost predicate LosesOnAbort(s: State, x: Pgid)
  {
    forall y {:trigger Peek(y)} :: Peek(y) ==>
      && Inv(s) && Covers(s) && Defined(s, OpenWriter) && Next(s, OpenWriter, BeginWrite(s))
      && Inv(BeginWrite(s)) && Loses(BeginWrite(s), Abort) && Defined(BeginWrite(s), Abort)
      && Next(BeginWrite(s), Abort, Rollback(BeginWrite(s)))
      && Rollback(BeginWrite(s)).free == s.free - {x} != s.free
  }

  /** A writer that begins and rolls back with so many free pages stored loses the last of them. */
  lemma {:induction false} RestingLoses(s: State, sn: Snapshot)
    requires Inv(s) && Covers(s) && Durable(s) == sn.meta && s.writer == None && s.pending == map[]
    requires sn.meta.txid in s.snaps && s.snaps[sn.meta.txid] == sn && SnapOk(sn) && s.free == Elems(Ids(sn))
    requires |Ids(sn)| >= 0xFFFF
    ensures LosesOnAbort(s, Largest(Ids(sn)))
  {
    NothingPending(s);
    BeginWriteKeeps(s);
    AbortLoses(BeginWrite(s));
  }

  /** There is such a database for any number of pages from 0xFFFF on. */
  lemma {:induction false} OverflowLosesPage(n: nat, leaf: int)
    requires n >= 0xFFFF
    ensures LosesOnAbort(Full(n, leaf), 131 + n)
  {
    FullInv(n, leaf);
    FullStored(n, leaf);
    RestingLoses(Full(n, leaf), FullVersion(n, leaf));
  }

  lemma {:induction false} FullStored(n: nat, leaf: int)
    requires n > 0
    ensures var sn := Full(n, leaf).snaps[1];
            SnapOk(sn) && Elems(Ids(sn)) == Full(n, leaf).free && |Ids(sn)| == n && Largest(Ids(sn)) == 131 + n
  {
    FullSnap(n, leaf);
    FullIds(n);
  }
}
