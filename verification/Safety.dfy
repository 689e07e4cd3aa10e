/** Every step of the protocol keeps its invariant, and what follows from that: no page that a reader
    or the committed version can see is handed out again, and a crash at any point leaves the old
    version or the new one, whole. */
module Safety {
  import opened Options
  import opened Pgids
  import opened Protocol
  import Freelists

  lemma {:induction false} ReadListLess(ids: seq<Pgid>)
    requires Ascending(ids)
    ensures ReadList(ids) <= Elems(ids)
  {
    Freelists.ReadBackIs(ids);
  }

  // ---- readers come and go ----

  /** A step keeps the invariant before the meta page is written if it only touches the lists and the
      tree of the writer in a way that keeps Working and Prepared. */
  lemma {:induction false} WritingFrom(s: State, s': State)
    requires s.writer.Some? && Writing(s, s.writer.value) && s.writer.value.phase != PagesSynced
    requires s'.writer.Some? && Base(s') == Base(s) && Working(s', s'.writer.value, Durable(s))
    requires s'.writer.value.phase == s.writer.value.phase || s'.writer.value.phase == Listed
    requires s'.writer.value.phase != Open ==> Prepared(s', s'.writer.value)
    ensures Writing(s', s'.writer.value)
  {
    assert s'.disk == Base(s').disk == Base(s).disk == s.disk;
  }

  lemma {:induction false} BeginReadKeeps(s: State)
    requires Inv(s)
    ensures Readable(s.disk + s.cached) && Inv(BeginRead(s))
  {
    if s.writer == None {
      BeginReadIdle(s);
    } else if InPhase(s, MetaWritten) {
      BeginReadPublishing(s);
    } else {
      BeginReadWriting(s);
    }
  }

  lemma {:induction false} BeginReadPublishing(s: State)
    requires InPhase(s, MetaWritten) && Publishing(s, s.writer.value)
    ensures Readable(s.disk + s.cached) && Publishing(BeginRead(s), s.writer.value)
  {
    BeginReadIdle(Committed(s));
    assert Committed(s).disk + Committed(s).cached == s.disk + s.cached;
    assert Committed(BeginRead(s)) == BeginRead(Committed(s));
    assert Reopened(BeginRead(s), s.disk) == Reopened(s, s.disk);
  }

  lemma {:induction false} BeginReadWriting(s: State)
    requires s.writer.Some? && Writing(s, s.writer.value)
    ensures Readable(s.disk + s.cached) && Writing(BeginRead(s), s.writer.value)
  {
    BeginReadIdle(Base(s));
    assert Base(BeginRead(s)) == BeginRead(Base(s));
  }

  lemma {:induction false} BeginReadIdle(s: State)
    requires Idle(s)
    ensures Readable(s.disk + s.cached) && DbMeta(s.disk + s.cached) == Durable(s) && Idle(BeginRead(s))
  {
    ViewMeta(s.disk, s.cached, Durable(s));
    var d, s' := Durable(s), BeginRead(s);
    forall m | m in s'.readers ensures m.txid <= d.txid && Pinned(s', InUse(s', d), m) {
      if m in s.readers {
        assert Pinned(s, InUse(s, d), m);
      } else {
        assert m == d;
      }
    }
  }

  lemma {:induction false} ViewMeta(disk: Disk, cached: Disk, d: Meta)
    requires CurrentIn(disk, d) && 0 !in cached && 1 !in cached
    ensures CurrentIn(disk + cached, d) && Readable(disk + cached) && DbMeta(disk + cached) == d
  {
    CurrentIs(disk + cached, d);
  }

  lemma {:induction false} CloseReaderKeeps(s: State, i: nat)
    requires Inv(s) && i < |s.readers|
    ensures Inv(CloseReader(s, i))
  {
    if s.writer == None {
      CloseReaderIdle(s, i);
    } else if InPhase(s, MetaWritten) {
      CloseReaderPublishing(s, i);
    } else {
      CloseReaderWriting(s, i);
    }
  }

  lemma {:induction false} CloseReaderPublishing(s: State, i: nat)
    requires InPhase(s, MetaWritten) && Publishing(s, s.writer.value) && i < |s.readers|
    ensures Publishing(CloseReader(s, i), s.writer.value)
  {
    CloseReaderIdle(Committed(s), i);
    assert Committed(CloseReader(s, i)) == CloseReader(Committed(s), i);
    assert Reopened(CloseReader(s, i), s.disk) == Reopened(s, s.disk);
  }

  lemma {:induction false} CloseReaderWriting(s: State, i: nat)
    requires s.writer.Some? && Writing(s, s.writer.value) && i < |s.readers|
    ensures Writing(CloseReader(s, i), s.writer.value)
  {
    CloseReaderIdle(Base(s), i);
    assert Base(CloseReader(s, i)) == CloseReader(Base(s), i);
  }

  lemma {:induction false} CloseReaderIdle(s: State, i: nat)
    requires Idle(s) && i < |s.readers|
    ensures Idle(CloseReader(s, i))
  {
    var d, s' := Durable(s), CloseReader(s, i);
    forall m | m in s'.readers ensures m.txid <= d.txid && Pinned(s', InUse(s', d), m) {
      assert m in s.readers;
      assert Pinned(s, InUse(s, d), m);
    }
  }

  // ---- a writer begins ----

  lemma {:induction false} MinIdBelow(readers: seq<Meta>)
    ensures forall m :: m in readers ==> MinId(readers) <= m.txid
  {
    if readers != [] {
      MinIdBelow(readers[..|readers| - 1]);
    }
  }

  /** The least transaction id of the readers, or the greatest of 64 bits if that is less. */
  lemma {:induction false} MinIdIs(readers: seq<Meta>)
    ensures forall m :: m in readers ==> MinId(readers) <= m.txid
    ensures MinId(readers) <= 0xFFFF_FFFF_FFFF_FFFF
    ensures MinId(readers) == 0xFFFF_FFFF_FFFF_FFFF || exists m :: m in readers && m.txid == MinId(readers)
  {
    MinIdBelow(readers);
    if readers != [] {
      MinIdIs(readers[..|readers| - 1]);
      assert readers[|readers| - 1] in readers;
      assert forall m :: m in readers[..|readers| - 1] ==> m in readers;
      assert forall m :: m in readers ==> m in readers[..|readers| - 1] || m == readers[|readers| - 1];
    }
  }

  /** Exactly the pages that no open reader can see become free when a writer begins; the others wait. */
  lemma {:induction false} BeginWriteReleases(s: State)
    requires Inv(s) && s.writer == None
    ensures Readable(s.disk + s.cached) && DbMeta(s.disk + s.cached).txid in s.snaps
    ensures forall u :: u in BeginWrite(s).pending <==> u in s.pending && !Unseen(u, s.readers)
    ensures forall u :: u in BeginWrite(s).pending ==> BeginWrite(s).pending[u] == s.pending[u]
    ensures forall x :: x in BeginWrite(s).free <==>
      x in s.free || exists u :: u in s.pending && Unseen(u, s.readers) && x in s.pending[u]
    ensures s.readers == [] && (forall u :: u in s.pending ==> u < 0xFFFF_FFFF_FFFF_FFFF) ==>
      BeginWrite(s).pending == map[] && BeginWrite(s).free == s.free + PendingIds(s.pending)
  {
    BeginWriteKeeps(s);
    UnseenIs(s.readers);
    var low := MinId(s.readers) - 1;
    forall x ensures x in UpTo(s.pending, low) <==>
      exists u :: u in s.pending && Unseen(u, s.readers) && x in s.pending[u]
    {
    }
  }

  lemma {:induction false} UnseenIs(readers: seq<Meta>)
    ensures forall u: Txid :: Unseen(u, readers) <==> u < MinId(readers)
  {
    MinIdIs(readers);
  }

  /** Moving what was freed up to transaction low to the free pages. */
  ghost function Released(s: State, low: int): State
  {
    s.(free := s.free + UpTo(s.pending, low), pending := After(s.pending, low))
  }

  lemma {:induction false} ReleasedIds(pending: Lists, low: int)
    requires ListsApart(pending)
    ensures PendingIds(pending) == PendingIds(After(pending, low)) + UpTo(pending, low)
    ensures PendingIds(After(pending, low)) !! UpTo(pending, low) && ListsApart(After(pending, low))
  {
    forall x | x in PendingIds(pending) ensures x in PendingIds(After(pending, low)) + UpTo(pending, low) {
      var t :| t in pending && x in pending[t];
      assert t > low ==> t in After(pending, low) && x in After(pending, low)[t];
    }
    forall x | x in PendingIds(After(pending, low)) ensures x in PendingIds(pending) && x !in UpTo(pending, low) {
      var t :| t in After(pending, low) && x in After(pending, low)[t];
      assert x in pending[t];
      forall u | u in pending && u <= low ensures x !in pending[u] {
        assert pending[t] !! pending[u];
      }
    }
  }

  lemma {:induction false} LaterReleased(pending: Lists, low: int, t: Txid)
    requires low < t
    ensures Later(pending, t) <= Later(After(pending, low), t)
  {
    forall x | x in Later(pending, t) ensures x in Later(After(pending, low), t) {
      var u :| u in pending && u > t && x in pending[u];
      assert u in After(pending, low) && x in After(pending, low)[u];
    }
  }

  /** Releasing is safe for readers that began after low. */
  lemma {:induction false} ReleasedIdle(s: State, low: int)
    requires Idle(s) && forall m :: m in s.readers ==> low < m.txid
    ensures Idle(Released(s, low))
  {
    var d, s' := Durable(s), Released(s, low);
    ReleasedIds(s.pending, low);
    assert s'.free + PendingIds(s'.pending) == s.free + PendingIds(s.pending);
    forall m | m in s'.readers ensures m.txid <= d.txid && Pinned(s', InUse(s', d), m) {
      assert Pinned(s, InUse(s, d), m);
      LaterReleased(s.pending, low, m.txid);
    }
  }

  lemma {:induction false} BeginWriteKeeps(s: State)
    requires Inv(s) && s.writer == None
    ensures Readable(s.disk + s.cached) && DbMeta(s.disk + s.cached).txid in s.snaps && Inv(BeginWrite(s))
  {
    ViewMeta(s.disk, s.cached, Durable(s));
    MinIdBelow(s.readers);
    var low, s' := MinId(s.readers) - 1, BeginWrite(s);
    ReleasedIdle(s, low);
    assert Base(s') == Released(s, low);
    var w, d := s'.writer.value, Durable(s);
    assert w.meta.txid !in s'.pending;
    assert s'.pending - {w.meta.txid} == w.pending0;
    assert Live(w) == InUse(s, d) == InUse(s', d) + w.pages.Keys;
  }

  // ---- the writer frees and allocates ----

  lemma {:induction false} SpanNext(seen: Pages, p: Pgid, overflow: nat)
    requires p !in seen
    ensures Span(seen[p := overflow]) == Span(seen) + Run(p, overflow + 1)
  {
    var t := seen[p := overflow];
    assert PageRun(t, p) == Run(p, overflow + 1);
    forall x | x in Span(t) ensures x in Span(seen) + Run(p, overflow + 1) {
      var q :| q in t && x in PageRun(t, q);
      assert q != p ==> q in seen && x in PageRun(seen, q);
    }
    forall x | x in Span(seen) ensures x in Span(t) {
      var q :| q in seen && x in PageRun(seen, q);
      assert x in PageRun(t, q);
    }
  }

  lemma {:induction false} ApartNext(seen: Pages, p: Pgid, overflow: nat)
    requires p !in seen
    ensures Apart(seen[p := overflow]) <==> Apart(seen) && Run(p, overflow + 1) !! Span(seen)
  {
    var t := seen[p := overflow];
    if Apart(t) {
      forall q, r | q in seen && r in seen ensures Separate(seen, q, r) {
        assert Separate(t, q, r);
      }
      forall x | x in Span(seen) ensures x !in Run(p, overflow + 1) {
        var q :| q in seen && x in PageRun(seen, q);
        assert Separate(t, q, p) && x in PageRun(t, q);
      }
    }
    if Apart(seen) && Run(p, overflow + 1) !! Span(seen) {
      forall q, r | q in t && r in t ensures Separate(t, q, r) {
        assert q in seen && r in seen ==> Separate(seen, q, r);
        assert q in seen ==> PageRun(seen, q) <= Span(seen);
        assert r in seen ==> PageRun(seen, r) <= Span(seen);
      }
    }
  }

  lemma {:induction false} SpanWithout(tree: Pages, p: Pgid)
    requires Apart(tree) && p in tree
    ensures Apart(tree - {p}) && Span(tree) == Span(tree - {p}) + PageRun(tree, p)
    ensures Span(tree - {p}) !! PageRun(tree, p)
  {
    assert (tree - {p})[p := tree[p]] == tree;
    SpanNext(tree - {p}, p, tree[p]);
    ApartNext(tree - {p}, p, tree[p]);
  }

  lemma {:induction false} SpanWith(tree: Pages, p: Pgid, overflow: nat)
    requires Apart(tree) && Span(tree) !! Run(p, overflow + 1)
    ensures Apart(tree[p := overflow]) && Span(tree[p := overflow]) == Span(tree) + Run(p, overflow + 1)
  {
    assert p !in tree by {
      assert p in Run(p, overflow + 1);
      assert p in tree ==> p in PageRun(tree, p);
    }
    SpanNext(tree, p, overflow);
    ApartNext(tree, p, overflow);
  }

  lemma {:induction false} AddPendingIds(pending: Lists, t: Txid, run: set<Pgid>)
    ensures AddPending(pending, t, run) - {t} == pending - {t}
    ensures FreedBy(AddPending(pending, t, run), t) == FreedBy(pending, t) + run
    ensures PendingIds(AddPending(pending, t, run)) == PendingIds(pending) + run
  {
    var p' := AddPending(pending, t, run);
    forall x | x in PendingIds(p') ensures x in PendingIds(pending) + run {
      var u :| u in p' && x in p'[u];
      assert u != t ==> u in pending && x in pending[u];
    }
    forall x | x in PendingIds(pending) + run ensures x in PendingIds(p') {
      if x in run {
        assert x in p'[t];
      } else {
        var u :| u in pending && x in pending[u];
        assert u in p' && x in p'[u];
      }
    }
  }

  lemma {:induction false} FreePageWorks(s: State, p: Pgid, d: Meta)
    requires InPhase(s, Open) && p in s.writer.value.tree && d.txid in s.snaps && Working(s, s.writer.value, d)
    ensures Working(FreePage(s, p), FreePage(s, p).writer.value, d)
  {
    var w, w', run := s.writer.value, FreePage(s, p).writer.value, PageRun(s.writer.value.tree, p);
    SpanWithout(w.tree, p);
    AddPendingIds(s.pending, w.meta.txid, run);
    assert Live(w) == Live(w') + run && Live(w') !! run;
    Shift(Live(w), FreedBy(s.pending, w.meta.txid), InUse(s, d) + w.pages.Keys, Live(w'), run);
  }

  lemma {:induction false} FreePageKeeps(s: State, p: Pgid)
    requires Inv(s) && InPhase(s, Open) && p in s.writer.value.tree
    ensures Inv(FreePage(s, p))
  {
    FreePageWorks(s, p, Durable(s));
    assert Base(FreePage(s, p)) == Base(s);
    WritingFrom(s, FreePage(s, p));
  }

  /** The pages the writer gets are free, or beyond the high-water mark. */
  lemma {:induction false} AllocateWorks(s: State, n: nat, p: Pgid, blocks: seq<Block>, d: Meta)
    requires s.writer.Some? && d.txid in s.snaps && Working(s, s.writer.value, d) && |blocks| == n
    requires SpaceOk(InUse(s, d), s.writer.value.free0, s.writer.value.pending0, d.pgid) && FirstRun(s.free, n, p)
    ensures var w, t := s.writer.value, Allocate(s, n, p, blocks); var run := Run(Start(w, p), n);
            && Base(t) == Base(s) && OwnLists(t, t.writer.value, d) && OwnPages(t, t.writer.value, d)
            && run !! InUse(s, d) && run !! w.pages.Keys && t.writer.value.pages.Keys == w.pages.Keys + run
            && run !! Live(w) && run !! FreedBy(s.pending, w.meta.txid)
            && Live(w) + run + FreedBy(s.pending, w.meta.txid) == InUse(s, d) + t.writer.value.pages.Keys
  {
    var w := s.writer.value;
    var run := Run(Start(w, p), n);
    assert p != 0 ==> run <= s.free;
    Grow(Live(w), FreedBy(s.pending, w.meta.txid), InUse(s, d), w.pages.Keys, run);
  }

  lemma {:induction false} AllocatePageWorks(s: State, n: nat, p: Pgid, blocks: seq<Block>, d: Meta)
    requires InPhase(s, Open) && n > 0 && |blocks| == n && d.txid in s.snaps && Working(s, s.writer.value, d)
    requires SpaceOk(InUse(s, d), s.writer.value.free0, s.writer.value.pending0, d.pgid) && FirstRun(s.free, n, p)
    ensures Base(AllocatePage(s, n, p, blocks)) == Base(s)
    ensures Working(AllocatePage(s, n, p, blocks), AllocatePage(s, n, p, blocks).writer.value, d)
  {
    var w, t, s' := s.writer.value, Allocate(s, n, p, blocks), AllocatePage(s, n, p, blocks);
    AllocateWorks(s, n, p, blocks, d);
    AddedTree(w, Start(w, p), n);
    assert OwnPages(s', s'.writer.value, d) && OwnLists(s', s'.writer.value, d);
    assert Live(s'.writer.value) == Live(w) + Run(Start(w, p), n);
  }

  lemma {:induction false} AddedTree(w: Writer, q: Pgid, n: nat)
    requires Apart(w.tree) && Span(w.tree) !! Run(w.meta.freelist, w.overflow + 1) && n > 0 && Run(q, n) !! Live(w)
    ensures Apart(w.tree[q := n - 1]) && Span(w.tree[q := n - 1]) !! Run(w.meta.freelist, w.overflow + 1)
    ensures Span(w.tree[q := n - 1]) + Run(w.meta.freelist, w.overflow + 1) == Live(w) + Run(q, n)
  {
    SpanWith(w.tree, q, n - 1);
  }

  lemma {:induction false} Grow(live: set<Pgid>, freed: set<Pgid>, base: set<Pgid>, pages: set<Pgid>, run: set<Pgid>)
    requires live + freed == base + pages && run !! base && run !! pages
    ensures run !! live && run !! freed && (live + run) + freed == base + (pages + run)
  {
    assert run !! live + freed;
  }

  lemma {:induction false} Shift(live: set<Pgid>, freed: set<Pgid>, all: set<Pgid>, live': set<Pgid>, run: set<Pgid>)
    requires live + freed == all && live !! freed && live == live' + run && live' !! run
    ensures live' !! freed + run && live' + (freed + run) == all
  {
  }

  lemma {:induction false} AllocatePageKeeps(s: State, n: nat, p: Pgid, blocks: seq<Block>)
    requires Inv(s) && InPhase(s, Open) && n > 0 && |blocks| == n && FirstRun(s.free, n, p)
    ensures Inv(AllocatePage(s, n, p, blocks))
  {
    AllocatePageWorks(s, n, p, blocks, Durable(s));
    WritingFrom(s, AllocatePage(s, n, p, blocks));
  }

  // ---- commit ----

  lemma {:induction false} BuildListWorks(s: State, n: nat, p: Pgid, ids: seq<Pgid>, rest: seq<Block>, root: Pgid,
                                          d: Meta)
    requires InPhase(s, Open) && n > 0 && |rest| == n - 1 && d.txid in s.snaps && Working(s, s.writer.value, d)
    requires SpaceOk(InUse(s, d), s.writer.value.free0, s.writer.value.pending0, d.pgid) && FirstRun(s.free, n, p)
    ensures Base(BuildList(s, n, p, ids, rest, root)) == Base(s)
    ensures Working(BuildList(s, n, p, ids, rest, root), BuildList(s, n, p, ids, rest, root).writer.value, d)
  {
    var w, s' := s.writer.value, BuildList(s, n, p, ids, rest, root);
    var run, old', t := Run(Start(w, p), n), Run(w.meta.freelist, w.overflow + 1), w.meta.txid;
    var f, blocks := FreeList(s), [List(ids, n - 1)] + rest;
    AllocateWorks(s, n, p, blocks, d);
    AddPendingIds(s.pending, t, old');
    assert s'.free == Allocate(s, n, p, blocks).free;
    assert s'.writer.value.pages.Keys == w.pages.Keys + run;
    assert OwnLists(s', s'.writer.value, d) && OwnPages(s', s'.writer.value, d);
    Replace(Span(w.tree), old', FreedBy(s.pending, t), InUse(s, d) + (w.pages.Keys + run), run);
  }

  lemma {:induction false} Replace(tree: set<Pgid>, list: set<Pgid>, freed: set<Pgid>, all: set<Pgid>, run: set<Pgid>)
    requires tree + list + run + freed == all && tree !! list && tree + list !! freed && run !! tree + list
      && run !! freed
    ensures tree !! run && tree + run !! freed + list && tree + run + (freed + list) == all
  {
  }

  lemma {:induction false} BuildListKeeps(s: State, n: nat, p: Pgid, ids: seq<Pgid>, rest: seq<Block>, root: Pgid)
    requires Inv(s) && InPhase(s, Open) && n > 0 && |rest| == n - 1 && FirstRun(s.free, n, p)
    requires root in s.writer.value.tree && ListOf(s, n, p, ids)
    ensures Inv(BuildList(s, n, p, ids, rest, root))
  {
    BuildListWorks(s, n, p, ids, rest, root, Durable(s));
    WritingFrom(s, BuildList(s, n, p, ids, rest, root));
  }

  /** No version that anyone can see has a page that the writer allocated. */
  lemma {:induction false} Untouched(s: State, w: Writer, m: Meta)
    requires s.writer == Some(w) && Idle(Base(s)) && Working(s, w, Durable(s)) && (m in s.readers || m == Durable(s))
    ensures m.txid in s.snaps && s.snaps[m.txid].pages.Keys !! w.pages.Keys
  {
    var b, d := Base(s), Durable(s);
    assert m in b.readers ==> Pinned(b, InUse(b, d), m);
    assert InUse(b, d) !! w.pages.Keys;
    assert Later(w.pending0, m.txid) <= PendingIds(w.pending0);
  }

  lemma {:induction false} WritePageKeeps(s: State, x: Pgid)
    requires Inv(s) && InPhase(s, Listed) && x in s.writer.value.pages
    ensures Inv(WritePage(s, x))
  {
    var w, d, s' := s.writer.value, Durable(s), WritePage(s, x);
    Untouched(s, w, d);
    forall m | m in s'.readers ensures m.txid <= d.txid && Pinned(Base(s'), InUse(Base(s'), d), m) {
      WritePinned(s, x, m);
    }
  }

  /** A dirty page is on none of the pages that a reader sees. */
  lemma {:induction false} WritePinned(s: State, x: Pgid, m: Meta)
    requires Inv(s) && InPhase(s, Listed) && x in s.writer.value.pages && m in s.readers
    ensures m.txid <= Durable(s).txid && Pinned(Base(WritePage(s, x)), InUse(Base(WritePage(s, x)), Durable(s)), m)
  {
    assert m in Base(s).readers;
    assert Pinned(Base(s), InUse(Base(s), Durable(s)), m);
    Untouched(s, s.writer.value, m);
  }

  /** Syncing pages that no version has changes no version. */
  lemma {:induction false} SyncIdle(b: State)
    requires Idle(b)
    ensures Idle(b.(disk := b.disk + b.cached, cached := map[]))
    ensures Readable(b.disk + b.cached) && DbMeta(b.disk + b.cached) == Durable(b)
  {
    var d, b' := Durable(b), b.(disk := b.disk + b.cached, cached := map[]);
    ViewMeta(b.disk, b.cached, d);
    forall m | m in b'.readers ensures m.txid <= d.txid && Pinned(b', InUse(b', d), m) {
      assert Pinned(b, InUse(b, d), m);
    }
  }

  lemma {:induction false} SyncPagesKeeps(s: State)
    requires Inv(s) && InPhase(s, Listed) && AllWritten(s)
    ensures Inv(SyncPages(s))
  {
    SyncIdle(Base(s));
    assert Base(SyncPages(s)) == Base(s).(disk := s.disk + s.cached, cached := map[]);
  }

  lemma {:induction false} NextSlot(disk: Disk, d: Meta, m: Meta)
    requires CurrentIn(disk, d) && m.txid == d.txid + 1
    ensures CurrentIn(disk[m.txid % 2 := MetaPage(m, true)], m)
    ensures Readable(disk[m.txid % 2 := MetaPage(m, true)]) && DbMeta(disk[m.txid % 2 := MetaPage(m, true)]) == m
  {
    CurrentIs(disk[m.txid % 2 := MetaPage(m, true)], m);
  }

  /** All pages of the version to be published are on disk, each with the contents it should have. */
  lemma {:induction false} PublishedWhole(s: State)
    requires Inv(s) && InPhase(s, PagesSynced)
    ensures var w := s.writer.value; var sn := Published(s, w);
            && SnapOk(sn) && sn.pages.Keys == Live(w) && Elems(Ids(sn)) == s.free + PendingIds(s.pending)
            && forall x :: x in Live(w) ==>
              sn.pages[x] == if x in w.pages then w.pages[x] else s.snaps[Durable(s).txid].pages[x]
  {
    var w, d := s.writer.value, Durable(s);
    assert Live(w) <= InUse(s, d) + w.pages.Keys;
    forall x | x in Live(w) ensures x in s.disk
      && s.disk[x] == if x in w.pages then w.pages[x] else s.snaps[d.txid].pages[x] {
      assert x !in w.pages ==> x in s.snaps[d.txid].pages;
    }
    assert w.meta.freelist in Run(w.meta.freelist, w.overflow + 1);
    PublishedSpace(s, w, d);
    var ids := w.pages[w.meta.freelist].ids;
    forall x | x in ids ensures 2 <= x < w.meta.pgid && x !in Live(w) {
      assert x in Elems(ids);
    }
  }

  lemma {:induction false} PublishedSpace(s: State, w: Writer, d: Meta)
    requires s.writer == Some(w) && d.txid in s.snaps && Working(s, w, d)
    requires SpaceOk(InUse(s, d), w.free0, w.pending0, d.pgid)
    ensures SpaceOk(Live(w), s.free, s.pending, w.meta.pgid)
  {
    PendingParts(s.pending, w.meta.txid);
    assert Live(w) !! s.free;
    assert Live(w) !! PendingIds(w.pending0);
    assert FreedBy(s.pending, w.meta.txid) <= InUse(s, d) + w.pages.Keys;
    forall t, u | t in s.pending && u in s.pending && t != u ensures s.pending[t] !! s.pending[u] {
      assert t != w.meta.txid ==>
        t in w.pending0 && w.pending0[t] == s.pending[t] && s.pending[t] <= PendingIds(w.pending0);
      assert u != w.meta.txid ==>
        u in w.pending0 && w.pending0[u] == s.pending[u] && s.pending[u] <= PendingIds(w.pending0);
    }
  }

  lemma {:induction false} PendingParts(pending: Lists, t: Txid)
    ensures PendingIds(pending) == PendingIds(pending - {t}) + FreedBy(pending, t)
  {
    forall x | x in PendingIds(pending) ensures x in PendingIds(pending - {t}) + FreedBy(pending, t) {
      var u :| u in pending && x in pending[u];
      assert u != t ==> u in pending - {t} && x in (pending - {t})[u];
    }
    forall x | x in PendingIds(pending - {t}) ensures x in PendingIds(pending) {
      var u :| u in pending - {t} && x in (pending - {t})[u];
      assert x in pending[u];
    }
  }

  /** What a reader sees stays pinned when the writer publishes its version. */
  lemma {:induction false} PinnedNext(s: State, w: Writer, d: Meta, t: Txid, pages: set<Pgid>)
    requires d.txid in s.snaps && Working(s, w, d) && t <= d.txid
    requires pages <= InUse(s, d) + Later(w.pending0, t)
    ensures pages <= Live(w) + Later(s.pending, t)
  {
    forall x | x in pages ensures x in Live(w) + Later(s.pending, t) {
      if x in InUse(s, d) {
        assert x in Live(w) + FreedBy(s.pending, w.meta.txid);
      } else {
        var u :| u in w.pending0 && u > t && x in w.pending0[u];
        assert u in s.pending && s.pending[u] == w.pending0[u];
      }
    }
  }

  lemma {:induction false} PublishedPinned(s: State, w: Writer, d: Meta, m: Meta)
    requires s.writer == Some(w) && d.txid in s.snaps && Working(s, w, d) && m.txid <= d.txid && w.phase == PagesSynced
    requires SpaceOk(InUse(s, d), w.free0, w.pending0, d.pgid) && Pinned(Base(s), InUse(s, d), m)
    ensures Pinned(Committed(WriteMeta(s)), Live(w), m)
  {
    var c, sn := Committed(WriteMeta(s)), s.snaps[m.txid];
    PinnedNext(s, w, d, m.txid, sn.pages.Keys);
    assert Later(w.pending0, m.txid) <= PendingIds(w.pending0);
    assert OnDisk(c.disk, c.cached, sn) by {
      forall x | x in sn.pages ensures x in c.disk && c.disk[x] == sn.pages[x] {
        assert x >= 2;
      }
    }
  }

  lemma {:induction false} PublishedIdle(s: State)
    requires Inv(s) && InPhase(s, PagesSynced)
    ensures Idle(Committed(WriteMeta(s))) && Durable(Committed(WriteMeta(s))) == s.writer.value.meta
  {
    PublishedDisk(s, s.writer.value, Durable(s));
    PublishedAt(s, s.writer.value, Durable(s));
  }

  lemma {:induction false} PublishedDisk(s: State, w: Writer, d: Meta)
    requires InPhase(s, PagesSynced) && w == s.writer.value && s.cached == map[]
    requires CurrentIn(s.disk, d) && w.meta.txid == d.txid + 1
    ensures var c := Committed(WriteMeta(s));
            && Readable(c.disk) && DbMeta(c.disk) == w.meta && CurrentIn(c.disk, w.meta) && c.cached == map[]
            && c.writer == None
  {
    NextSlot(s.disk, d, w.meta);
    assert Committed(WriteMeta(s)).disk == s.disk[w.meta.txid % 2 := MetaPage(w.meta, true)];
  }

  lemma {:induction false} PublishedAt(s: State, w: Writer, d: Meta)
    requires Inv(s) && InPhase(s, PagesSynced) && w == s.writer.value && d == Durable(s)
    ensures IdleAt(Committed(WriteMeta(s)), w.meta)
  {
    var c := Committed(WriteMeta(s));
    PublishedWhole(s);
    PublishedSpace(s, w, d);
    ReadListLess(Ids(Published(s, w)));
    assert OnDisk(c.disk, c.cached, c.snaps[w.meta.txid]);
    assert forall u :: u in c.pending && u != w.meta.txid ==> u in w.pending0;
    forall m | m in c.readers ensures m.txid <= w.meta.txid && Pinned(c, Live(w), m) {
      PublishedPinned(s, w, d, m);
    }
  }

  /** After a stop that left the version d on disk, all its lists can be rebuilt from its freelist. */
  lemma {:induction false} ReopenedIdle(b: State, disk: Disk)
    requires Idle(b) && CurrentIn(disk, Durable(b))
    requires forall x :: x !in b.cached && x >= 2 ==>
      (x in disk <==> x in b.disk) && (x in disk ==> disk[x] == b.disk[x])
    ensures Readable(disk) && DbMeta(disk) == Durable(b) && Idle(Reopened(b, disk))
  {
    CurrentIs(disk, Durable(b));
    var d, r := Durable(b), Reopened(b, disk);
    assert PendingIds(r.pending) == {};
    assert OnDisk(r.disk, r.cached, r.snaps[d.txid]);
    assert r.free <= b.free + PendingIds(b.pending);
  }

  lemma {:induction false} WriteMetaKeeps(s: State)
    requires Inv(s) && InPhase(s, PagesSynced)
    ensures Inv(WriteMeta(s))
  {
    var d, s' := Durable(s), WriteMeta(s);
    PublishedIdle(s);
    ReopenedIdle(Base(s), s.disk);
    ReopenedSame(Base(s), s', s.disk);
  }

  /** A version that is only added to the history makes no difference to what is rebuilt. */
  lemma {:induction false} ReopenedSame(b: State, s: State, disk: Disk)
    requires Readable(disk) && DbMeta(disk).txid in b.snaps && SnapOk(b.snaps[DbMeta(disk).txid])
    requires Idle(Reopened(b, disk)) && DbMeta(disk).txid in s.snaps
    requires s.snaps[DbMeta(disk).txid] == b.snaps[DbMeta(disk).txid]
    ensures Idle(Reopened(s, disk))
  {
    assert Reopened(s, disk).readers == [];
  }

  lemma {:induction false} SyncMetaKeeps(s: State)
    requires Inv(s) && InPhase(s, MetaWritten)
    ensures Inv(SyncMeta(s)) && Durable(SyncMeta(s)) == s.writer.value.meta
  {
  }

  // ---- rollback ----

  lemma {:induction false} RollbackKeeps(s: State)
    requires Inv(s) && s.writer.Some? && s.writer.value.phase != MetaWritten
    ensures Inv(Rollback(s))
  {
    var w, d, b, s' := s.writer.value, Durable(s), Base(s), Rollback(s);
    assert s'.pending == b.pending;
    assert s'.free <= b.free;
    forall m | m in s'.readers ensures m.txid <= d.txid && Pinned(s', InUse(s', d), m) {
      assert Pinned(b, InUse(b, d), m);
    }
  }

  ghost function Largest(ids: seq<Pgid>): Pgid
    requires ids != []
  {
    ids[|ids| - 1]
  }

  lemma {:induction false} ReadListIs(ids: seq<Pgid>)
    requires Ascending(ids)
    ensures ReadList(ids) <= Elems(ids)
    ensures |ids| < 0xFFFF ==> ReadList(ids) == Elems(ids)
    ensures |ids| >= 0xFFFF ==> ReadList(ids) == Elems(ids) - {Largest(ids)}
  {
    Freelists.ReadBackIs(ids);
  }

  lemma {:induction false} Restored(ids: seq<Pgid>, free0: set<Pgid>, waiting: set<Pgid>)
    requires Ascending(ids) && free0 !! waiting && ReadList(ids) <= free0 + waiting <= Elems(ids)
    ensures ReadList(ids) - waiting == free0 <==> !(|ids| >= 0xFFFF && Largest(ids) in free0)
  {
    ReadListIs(ids);
    if |ids| >= 0xFFFF && Largest(ids) in free0 {
      assert Largest(ids) !in ReadList(ids) - waiting;
    }
  }

  /** Rolling back gives the lists of the time the writer began exactly unless the stored freelist
      overflows its count and its largest page was free, not pending: that page is lost. */
  lemma {:induction false} RollbackRestores(s: State)
    requires Inv(s) && s.writer.Some? && s.writer.value.phase != MetaWritten
    ensures Rollback(s).pending == s.writer.value.pending0
    ensures var ids := Ids(s.snaps[Durable(s).txid]);
            Rollback(s).free == s.writer.value.free0 <==>
              !(|ids| >= 0xFFFF && Largest(ids) in s.writer.value.free0)
  {
    var w := s.writer.value;
    Restored(Ids(s.snaps[Durable(s).txid]), w.free0, PendingIds(w.pending0));
  }

  /** The allocator never hands out a page that a reader, or the committed version, can see. */
  lemma {:induction false} NeverHandedOut(s: State, n: nat, p: Pgid, m: Meta)
    requires Inv(s) && InPhase(s, Open) && FirstRun(s.free, n, p) && (m in s.readers || m == Durable(s))
    ensures m.txid in s.snaps && Run(Start(s.writer.value, p), n) !! s.snaps[m.txid].pages.Keys
  {
    var w, b, d := s.writer.value, Base(s), Durable(s);
    assert m in b.readers ==> Pinned(b, InUse(b, d), m);
    assert Later(w.pending0, m.txid) <= PendingIds(w.pending0);
    assert p != 0 ==> Run(p, n) <= s.free;
  }

  // ---- crashes ----

  /** A stop before the meta page is written leaves the old version. */
  lemma {:induction false} CrashBefore(s: State, disk: Disk, b: State)
    requires Idle(b) && b.disk == s.disk && b.cached == s.cached && b.snaps == s.snaps && Survives(s, disk)
    ensures Readable(disk) && DbMeta(disk) == Durable(b) && Idle(Reopened(s, disk))
  {
    assert CurrentIn(disk, Durable(b));
    ReopenedIdle(b, disk);
    assert Reopened(s, disk) == Reopened(b, disk);
  }

  /** A stop while the meta page is not synced leaves the old version or the new one. */
  lemma {:induction false} CrashPublishing(s: State, disk: Disk)
    requires InPhase(s, MetaWritten) && Publishing(s, s.writer.value) && Survives(s, disk)
    ensures Readable(disk) && (DbMeta(disk) == Durable(s) || DbMeta(disk) == s.writer.value.meta)
    ensures DbMeta(disk).txid in s.snaps && SnapOk(s.snaps[DbMeta(disk).txid]) && Idle(Reopened(s, disk))
  {
    if disk[s.writer.value.meta.txid % 2] == s.cached[s.writer.value.meta.txid % 2] {
      CrashNew(s, disk, s.writer.value.meta);
    } else {
      CrashOld(s, disk, Durable(s), s.writer.value.meta);
    }
  }

  lemma {:induction false} CrashNew(s: State, disk: Disk, m: Meta)
    requires Idle(Committed(s)) && Durable(Committed(s)) == m && Survives(s, disk)
    requires s.cached == map[m.txid % 2 := MetaPage(m, true)] && disk[m.txid % 2] == s.cached[m.txid % 2]
    ensures Readable(disk) && DbMeta(disk) == m && Idle(Reopened(s, disk))
  {
    var c := Committed(s);
    assert CurrentIn(disk, m);
    ReopenedIdle(c, disk);
    assert Reopened(s, disk) == Reopened(c, disk);
  }

  lemma {:induction false} CrashOld(s: State, disk: Disk, d: Meta, m: Meta)
    requires CurrentIn(s.disk, d) && Readable(s.disk) && DbMeta(s.disk) == d && m.txid == d.txid + 1
      && Survives(s, disk)
    requires d.txid in s.snaps && SnapOk(s.snaps[d.txid]) && Idle(Reopened(s, s.disk))
    requires s.cached == map[m.txid % 2 := MetaPage(m, true)] && disk[m.txid % 2] != s.cached[m.txid % 2]
    ensures Readable(disk) && DbMeta(disk) == d && Idle(Reopened(s, disk))
  {
    OldMeta(s, disk, d, m);
    ReopenedIdle(Reopened(s, s.disk), disk);
    assert Reopened(s, disk) == Reopened(Reopened(s, s.disk), disk);
  }

  lemma {:induction false} OldMeta(s: State, disk: Disk, d: Meta, m: Meta)
    requires CurrentIn(s.disk, d) && m.txid == d.txid + 1 && Survives(s, disk)
    requires s.cached == map[m.txid % 2 := MetaPage(m, true)] && disk[m.txid % 2] != s.cached[m.txid % 2]
    ensures CurrentIn(disk, d)
    ensures forall x :: x >= 2 ==> (x in disk <==> x in s.disk) && (x in disk ==> disk[x] == s.disk[x])
  {
  }

  /** Commit is atomic: after a stop at any point, whatever became of the writes that were not
      synced, the database opens in the old version or, if its meta page was being written, the new
      one; every page of that version is intact, and the protocol can go on. */
  lemma {:induction false} CrashAtomic(s: State, disk: Disk)
    requires Inv(s) && Survives(s, disk)
    ensures Readable(disk) && Readable(s.disk)
    ensures DbMeta(disk) == Durable(s) || (InPhase(s, MetaWritten) && DbMeta(disk) == s.writer.value.meta)
    ensures DbMeta(disk).txid in s.snaps && SnapOk(s.snaps[DbMeta(disk).txid])
    ensures OnDisk(disk, map[], s.snaps[DbMeta(disk).txid]) && Inv(Reopened(s, disk))
  {
    if InPhase(s, MetaWritten) {
      CrashPublishing(s, disk);
    } else {
      CrashBefore(s, disk, if s.writer == None then s else Base(s));
    }
  }
}
