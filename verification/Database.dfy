/** The database: transactions over the file, the freelist and the meta pages, changed in place.
    Each operation makes one step of the protocol. */
module Databases {
  import opened Options
  import opened Pgids
  import Protocol
  import Safety
  import Runs
  import opened Freelists

  /** A read transaction, which keeps the meta page of the time it began. */
  class ReadTx {
    const meta: Protocol.Meta

    constructor (meta: Protocol.Meta)
      ensures this.meta == meta
    {
      this.meta := meta;
    }
  }

  /** The write transaction. */
  class WriteTx {
    var meta: Protocol.Meta
    var pages: Protocol.Disk          // tx.pages: the buffers of allocated pages
    ghost var tree: Protocol.Pages    // the pages of its tree, with the overflow their headers give
    ghost var overflow: nat           // the overflow of its freelist page
    ghost var phase: Protocol.Phase
    ghost var free0: set<Pgid>
    ghost var pending0: Protocol.Lists

    constructor (meta: Protocol.Meta, ghost tree: Protocol.Pages, ghost overflow: nat)
      ensures this.meta == meta && this.tree == tree && this.overflow == overflow && pages == map[]
      ensures phase == Protocol.Open
    {
      this.meta := meta;
      this.tree := tree;
      this.overflow := overflow;
      this.pages := map[];
      this.phase := Protocol.Open;
      this.free0 := {};
      this.pending0 := map[];
    }

    /** A buffer for pages from start on. */
    method Buffer(start: Pgid, blocks: seq<Protocol.Block>)
      modifies this`pages
      ensures pages == old(pages) + Protocol.Buffers(start, blocks)
    {
      pages := pages + Protocol.Buffers(start, blocks);
    }

    /** The new freelist page, and the new root. */
    method PutList(start: Pgid, ids: seq<Pgid>, rest: seq<Protocol.Block>, root: Pgid)
      modifies this
      ensures State() == old(State()).(meta := old(meta).(freelist := start, root := root), overflow := |rest|,
        phase := Protocol.Listed, pages := old(pages) + Protocol.Buffers(start, [Protocol.List(ids, |rest|)] + rest))
    {
      Buffer(start, [Protocol.List(ids, |rest|)] + rest);
      meta := meta.(freelist := start, root := root);
      overflow := |rest|;
      phase := Protocol.Listed;
    }

    ghost function State(): Protocol.Writer
      reads this
    {
      Protocol.Writer(meta, tree, overflow, pages, phase, free0, pending0)
    }
  }

  ghost function Metas(txs: seq<ReadTx>): (r: seq<Protocol.Meta>)
    ensures |r| == |txs| && forall i :: 0 <= i < |txs| ==> r[i] == txs[i].meta
  {
    seq(|txs|, i requires 0 <= i < |txs| => txs[i].meta)
  }

  lemma {:induction false} Unseal(s: Protocol.State)
    requires Runs.Sound(s)
    ensures Protocol.Inv(s)
  {
    assert Runs.Peek(0);
  }

  /** Any step the source allows is defined, and keeps the invariant. */
  lemma {:induction false} Step(s: Protocol.State, e: Runs.Event)
    requires Runs.Sound(s) && Runs.Guard(s, e)
    ensures Runs.Defined(s, e) && Runs.Sound(Runs.Apply(s, e))
  {
    Unseal(s);
    Runs.ApplyKeeps(s, e);
  }

  /** The effect of db.allocate on the free pages and the transaction's meta. */
  ghost predicate Took(free: set<Pgid>, free': set<Pgid>, m: Protocol.Meta, m': Protocol.Meta, n: nat, got: Pgid,
                       start: Pgid)
  {
    && Protocol.FirstRun(free, n, got) && free' == free - (if got != 0 then Run(got, n) else {})
    && start == (if got != 0 then got else m.pgid) && m' == m.(pgid := if got != 0 then m.pgid else m.pgid + n)
  }

  lemma {:induction false} LeastMeta(txs: seq<ReadTx>)
    ensures var least := Protocol.MinId(Metas(txs));
            && (forall t :: t in txs ==> least <= t.meta.txid) && least <= 0xFFFF_FFFF_FFFF_FFFF
            && (least == 0xFFFF_FFFF_FFFF_FFFF || exists t :: t in txs && t.meta.txid == least)
  {
    Safety.MinIdIs(Metas(txs));
    assert forall i :: 0 <= i < |txs| ==> Metas(txs)[i] in Metas(txs);
  }

  /** The pages that transaction u freed cannot be seen by any of the open readers. */
  ghost predicate Invisible(u: Txid, txs: seq<ReadTx>)
  {
    u < 0xFFFF_FFFF_FFFF_FFFF && forall t :: t in txs ==> u < t.meta.txid
  }

  /** Exactly the lists that no open reader can see went from the pending lists to the free ids. */
  ghost predicate Released(pending: Pending, ids: seq<Pgid>, txs: seq<ReadTx>, pending': Pending, ids': seq<Pgid>)
  {
    && (forall u :: u in pending' <==> u in pending && !Invisible(u, txs))
    && (forall u, x :: u in pending' ==> (x in pending'[u] <==> x in pending[u]))
    && (forall x :: x in ids' <==> x in ids || exists u :: u in pending && Invisible(u, txs) && x in pending[u])
  }

  lemma {:induction false} ReleasedIs(pending: Pending, ids: seq<Pgid>, txs: seq<ReadTx>, pending': Pending,
                                      ids': seq<Pgid>, s: Protocol.State)
    requires Runs.Sound(s) && s.writer == None && s.readers == Metas(txs)
    requires s.pending == Waiting(pending) && s.free == Elems(ids)
    requires Protocol.Readable(s.disk + s.cached) && Protocol.DbMeta(s.disk + s.cached).txid in s.snaps
    requires Waiting(pending') == Protocol.BeginWrite(s).pending && Elems(ids') == Protocol.BeginWrite(s).free
    ensures Released(pending, ids, txs, pending', ids')
  {
    Unseal(s);
    Safety.BeginWriteReleases(s);
    forall u ensures Protocol.Unseen(u, s.readers) <==> Invisible(u, txs) {
      assert forall i :: 0 <= i < |txs| ==> Metas(txs)[i] in Metas(txs) && txs[i] in txs;
    }
    WaitingHas(pending);
    WaitingHas(pending');
    assert forall x :: x in ids' <==> x in Elems(ids');
    assert forall x :: x in ids <==> x in Elems(ids);
  }

  lemma {:induction false} WaitingHas(pending: Pending)
    ensures forall u :: u in pending <==> u in Waiting(pending)
    ensures forall u, x :: u in pending ==> (x in Waiting(pending)[u] <==> x in pending[u])
  {
  }

  lemma {:induction false} SwapOut(txs: seq<ReadTx>, i: nat)
    requires i < |txs|
    ensures multiset(txs[i := txs[|txs| - 1]][..|txs| - 1]) == multiset(txs) - multiset{txs[i]}
  {
    var n := |txs| - 1;
    var r := txs[i := txs[n]][..n];
    if i == n {
      assert r == txs[..n] && txs == r + [txs[n]];
    } else {
      assert r == txs[..i] + [txs[n]] + txs[i + 1..n];
      assert txs == txs[..i] + [txs[i]] + txs[i + 1..n] + [txs[n]];
    }
  }

  lemma {:induction false} MetasWithout(txs: seq<ReadTx>, i: nat)
    requires i < |txs|
    ensures Metas(txs[i := txs[|txs| - 1]][..|txs| - 1]) == Metas(txs)[i := Metas(txs)[|txs| - 1]][..|txs| - 1]
  {
  }

  /** Mentioning Weigh() is what unfolds TakesPages; elsewhere it stays a single fact. */
  ghost predicate Weigh(x: int) { true }

  /** n is the number of pages reserved for a list of these ids: one more than the whole pages it takes. */
  ghost predicate TakesPages(n: nat, ids: set<Pgid>, pageSize: nat)
    requires pageSize > 0
  {
    forall x {:trigger Weigh(x)} :: Weigh(x) ==> n == SizeOf(|ids|) / pageSize + 1
  }

  /** That many for the ids and the pages of the old list. */
  ghost predicate ListTakes(n: nat, ids: set<Pgid>, list: Pgid, overflow: nat, pageSize: nat)
    requires pageSize > 0
  {
    forall x {:trigger Weigh(x)} :: Weigh(x) ==> TakesPages(n, ids + Run(list, overflow + 1), pageSize)
  }

  datatype Error = DatabaseNotOpen | DatabaseReadOnly

  class DB {
    const pageSize: nat
    const readOnly: bool
    var isOpen: bool
    const freelist: Freelist
    var disk: Protocol.Disk
    var cached: Protocol.Disk       // written, not synced
    var txs: seq<ReadTx>
    var rwtx: WriteTx?
    ghost var snaps: map<Txid, Protocol.Snapshot>

    ghost function State(): Protocol.State
      reads this, freelist, rwtx
    {
      Protocol.State(disk, cached, Elems(freelist.ids), Waiting(freelist.pending), Metas(txs),
                     if rwtx == null then None else Some(rwtx.State()), snaps)
    }

    ghost predicate Valid()
      reads this, freelist, rwtx
    {
      freelist.Valid() && Runs.Sound(State())
    }

    /** Open after a stop in state s that left d on disk: the freelist is read, and nothing is pending. */
    constructor Open(pageSize: nat, readOnly: bool, d: Protocol.Disk, ghost s: Protocol.State)
      requires Runs.Sound(s) && Protocol.Survives(s, d)
      ensures Valid() && Runs.Next(s, Runs.Crash(d), State()) && fresh(freelist) && isOpen
      ensures this.pageSize == pageSize && this.readOnly == readOnly
    {
      Step(s, Runs.Crash(d));
      StoredList(s, d);
      this.pageSize := pageSize;
      this.readOnly := readOnly;
      isOpen := true;
      freelist := new Freelist();
      disk := d;
      cached := map[];
      txs := [];
      rwtx := null;
      snaps := s.snaps;
      new;
      var a, b := d[0], d[1];
      if d[1].meta.txid > d[0].meta.txid {
        a, b := d[1], d[0];
      }
      var m := if a.valid then a.meta else b.meta;
      LoadList(freelist, d[m.freelist].ids);
    }

    /** page: what the file shows, synced or not. */
    function Page(id: Pgid): (b: Protocol.Block)
      requires id in disk || id in cached
      reads this
      ensures b == (disk + cached)[id]
    {
      if id in cached then cached[id] else disk[id]
    }

    /** meta: the valid meta page with the higher transaction id. */
    method Meta() returns (m: Protocol.Meta)
      requires Protocol.Readable(disk + cached)
      ensures m == Protocol.DbMeta(disk + cached)
    {
      var a, b := Page(0), Page(1);
      if Page(1).meta.txid > Page(0).meta.txid {
        a, b := Page(1), Page(0);
      }
      m := if a.valid then a.meta else b.meta;
    }

    /** Close, as far as beginning transactions goes. */
    method Close()
      requires Valid()
      modifies `isOpen
      ensures Valid() && !isOpen && State() == old(State())
    {
      isOpen := false;
    }

    method BeginTx() returns (t: ReadTx?, error: Option<Error>)
      requires Valid()
      modifies `txs
      ensures Valid() && error == if isOpen then None else Some(DatabaseNotOpen)
      ensures if error.Some? then t == null && txs == old(txs)
              else (Runs.Next(old(State()), Runs.OpenReader, State())
                    && t != null && txs == old(txs) + [t] && t.meta == Protocol.DbMeta(disk + cached))
    {
      if !isOpen {
        return null, Some(DatabaseNotOpen);
      }
      Step(State(), Runs.OpenReader);
      var m := Meta();
      var tx := new ReadTx(m);
      txs := txs + [tx];
      assert Metas(txs) == old(Metas(txs)) + [m];
      t, error := tx, None;
    }

    /** removeTx: the last transaction takes the place of the one that ends. */
    method RemoveTx(tx: ReadTx) returns (i: nat)
      requires Valid() && tx in txs
      modifies `txs
      ensures i < |old(txs)| && old(txs)[i] == tx && multiset(txs) == multiset(old(txs)) - multiset{tx}
      ensures Valid() && Runs.Next(old(State()), Runs.EndReader(i), State())
    {
      i := IndexOf(tx);
      Step(State(), Runs.EndReader(i));
      MetasWithout(txs, i);
      var last := |txs| - 1;
      SwapOut(txs, i);
      txs := txs[i := txs[last]];
      txs := txs[..last];
      assert State() == Protocol.CloseReader(old(State()), i);
    }

    method IndexOf(tx: ReadTx) returns (i: nat)
      requires tx in txs
      ensures i < |txs| && txs[i] == tx
    {
      i := 0;
      while txs[i] != tx
        invariant 0 <= i < |txs| && exists j :: i <= j < |txs| && txs[j] == tx
        decreases |txs| - i
      {
        i := i + 1;
      }
    }

    /** beginRWTx: pages that no reader can see any more become available. It waits for the write
        transaction that is open. */
    method BeginRWTx() returns (error: Option<Error>)
      requires Valid() && (rwtx == null || readOnly)
      modifies `rwtx, freelist
      ensures Valid()
      ensures error == if readOnly then Some(DatabaseReadOnly) else if isOpen then None else Some(DatabaseNotOpen)
      ensures error.Some? ==> rwtx == old(rwtx) && State() == old(State())
      ensures error.None? ==> rwtx != null && fresh(rwtx) && Runs.Next(old(State()), Runs.OpenWriter, State())
      ensures error.None? ==> Released(old(freelist.pending), old(freelist.ids), txs, freelist.pending, freelist.ids)
    {
      if readOnly {
        return Some(DatabaseReadOnly);
      }
      if !isOpen {
        return Some(DatabaseNotOpen);
      }
      StartWriter();
      ReleasedIs(old(freelist.pending), old(freelist.ids), txs, freelist.pending, freelist.ids, old(State()));
      error := None;
    }

    method StartWriter()
      requires Valid() && rwtx == null
      modifies `rwtx, freelist
      ensures Valid() && rwtx != null && fresh(rwtx) && Runs.Next(old(State()), Runs.OpenWriter, State())
    {
      ghost var s := State();
      Step(s, Runs.OpenWriter);
      var m := Meta();
      rwtx := new WriteTx(m.(txid := m.txid + 1), snaps[m.txid].tree, snaps[m.txid].overflow);
      ReleaseOldest();
      rwtx.free0 := Elems(freelist.ids);
      rwtx.pending0 := Waiting(freelist.pending);
      assert Metas(txs) == s.readers && State() == Protocol.BeginWrite(s);
    }

    /** Frees what transactions before the oldest open reader freed. */
    method ReleaseOldest()
      requires freelist.Valid()
      modifies freelist
      ensures var low: int := Protocol.MinId(Metas(txs)) - 1;
              && freelist.Valid() && Waiting(freelist.pending) == Protocol.After(old(Waiting(freelist.pending)), low)
              && Elems(freelist.ids) == old(Elems(freelist.ids)) + Protocol.UpTo(old(Waiting(freelist.pending)), low)
    {
      var minid: int := MinTxid();
      ReleaseIs(freelist.pending, minid - 1);
      if minid > 0 {
        freelist.Release(minid - 1);
      } else {
        ReleaseNone(freelist.pending);
      }
    }

    /** The least transaction id among the open readers. */
    method MinTxid() returns (minid: Txid)
      ensures minid == Protocol.MinId(Metas(txs))
      ensures (forall t :: t in txs ==> minid <= t.meta.txid) && minid <= 0xFFFF_FFFF_FFFF_FFFF
      ensures minid == 0xFFFF_FFFF_FFFF_FFFF || exists t :: t in txs && t.meta.txid == minid
    {
      minid := Protocol.NO_READER;
      for i := 0 to |txs|
        invariant minid == Protocol.MinId(Metas(txs)[..i])
      {
        assert Metas(txs)[..i + 1][..i] == Metas(txs)[..i];
        if txs[i].meta.txid < minid {
          minid := txs[i].meta.txid;
        }
      }
      assert Metas(txs)[..|txs|] == Metas(txs);
      LeastMeta(txs);
    }

    /** The writer frees a page of its tree; overflow is what the page header says. */
    method FreeNode(p: Pgid, overflow: nat)
      requires Valid() && rwtx != null && rwtx.phase == Protocol.Open && p in rwtx.tree && rwtx.tree[p] == overflow
      modifies freelist, rwtx
      ensures Valid() && Runs.Next(old(State()), Runs.FreeNode(p), State())
    {
      ghost var s := State();
      Step(s, Runs.FreeNode(p));
      CanFree(s, p, overflow);
      PendingIs(freelist.pending);
      freelist.Free(rwtx.meta.txid, p, overflow);
      rwtx.tree := rwtx.tree - {p};
      assert State() == Protocol.FreePage(s, p);
    }

    /** db.allocate: count pages from the freelist or, if it has no such run, from the end of the file. */
    method Allocate(count: nat) returns (got: Pgid, start: Pgid)
      requires freelist.Valid() && rwtx != null && count > 0
      modifies freelist`ids, freelist`cache, rwtx`meta
      ensures freelist.Valid()
      ensures Took(old(Elems(freelist.ids)), Elems(freelist.ids), old(rwtx.meta), rwtx.meta, count, got, start)
    {
      got := freelist.Allocate(count);
      start := got;
      if got == 0 {
        start := rwtx.meta.pgid;
        rwtx.meta := rwtx.meta.(pgid := rwtx.meta.pgid + count);
      }
    }

    /** The writer allocates pages for a node and writes it to their buffer. */
    method AllocateNode(blocks: seq<Protocol.Block>) returns (got: Pgid, start: Pgid)
      requires Valid() && rwtx != null && rwtx.phase == Protocol.Open && blocks != []
      modifies freelist, rwtx
      ensures Valid() && Runs.Next(old(State()), Runs.AllocateNode(|blocks|, got, blocks), State())
      ensures got == 0 ==> start == old(rwtx.meta).pgid && forall q :: !(Run(q, |blocks|) <= old(Elems(freelist.ids)))
      ensures got != 0 ==> start == got && Run(got, |blocks|) <= old(Elems(freelist.ids))
      ensures got != 0 ==> forall q :: Run(q, |blocks|) <= old(Elems(freelist.ids)) ==> got <= q
    {
      ghost var s := State();
      got, start := Allocate(|blocks|);
      AllocateIs(s, Elems(freelist.ids), rwtx.meta, got, start, blocks);
      rwtx.Buffer(start, blocks);
      rwtx.tree := rwtx.tree[start := |blocks| - 1];
      assert State() == Protocol.AllocatePage(s, |blocks|, got, blocks);
    }

    /** The part of Commit that replaces the freelist: the old list is freed before the size of the new
        one is taken, so that what is written never exceeds the pages it gets. */
    method StartCommit(overflow: nat, root: Pgid) returns (n: nat, got: Pgid, ids: seq<Pgid>, rest: seq<Protocol.Block>)
      requires Valid() && rwtx != null && rwtx.phase == Protocol.Open && overflow == rwtx.overflow
      requires root in rwtx.tree && pageSize > 0
      modifies freelist, rwtx
      ensures n > 0 && |rest| == n - 1 && SizeOf(|ids|) <= n * pageSize
      ensures ListTakes(n, old(freelist.cache), old(rwtx.meta.freelist), overflow, pageSize)
      ensures Valid() && Runs.Next(old(State()), Runs.StartCommit(n, got, ids, rest, root), State())
    {
      ghost var s := State();
      CanFreeList(s, overflow);
      BelowTop(s);
      PendingIs(freelist.pending);
      var start;
      n, got, start, ids := ReplaceList(overflow);
      PendingIs(freelist.pending);
      rest := seq(n - 1, _ => Protocol.Data(0));
      BuildIs(s, Elems(freelist.ids), Waiting(freelist.pending), overflow, rwtx.meta, n, got, start, ids, rest, root);
      rwtx.PutList(start, ids, rest, root);
      assert State() == Protocol.BuildList(s, n, got, ids, rest, root);
    }

    method ReplaceList(overflow: nat) returns (n: nat, got: Pgid, start: Pgid, ids: seq<Pgid>)
      requires freelist.Valid() && rwtx != null && pageSize > 0
      requires rwtx.meta.freelist > 1 && Run(rwtx.meta.freelist, overflow + 1) !! freelist.cache
      modifies freelist, rwtx`meta
      ensures freelist.Valid() && n > 0 && SizeOf(|ids|) <= n * pageSize
      ensures ListTakes(n, old(freelist.cache), old(rwtx.meta.freelist), overflow, pageSize)
      ensures Waiting(freelist.pending) == Protocol.AddPending(old(Waiting(freelist.pending)), old(rwtx.meta.txid),
        Run(old(rwtx.meta.freelist), overflow + 1))
      ensures Took(old(Elems(freelist.ids)), Elems(freelist.ids), old(rwtx.meta), rwtx.meta, n, got, start)
      ensures Ascending(ids) && Elems(ids) == Elems(freelist.ids) + PendingIds(freelist.pending)
    {
      freelist.Free(rwtx.meta.txid, rwtx.meta.freelist, overflow);
      n, got, start, ids := PlaceList();
    }

    method PlaceList() returns (n: nat, got: Pgid, start: Pgid, ids: seq<Pgid>)
      requires freelist.Valid() && rwtx != null && pageSize > 0
      modifies freelist`ids, freelist`cache, rwtx`meta
      ensures freelist.Valid() && n > 0 && SizeOf(|ids|) <= n * pageSize
      ensures TakesPages(n, old(freelist.cache), pageSize)
      ensures Took(old(Elems(freelist.ids)), Elems(freelist.ids), old(rwtx.meta), rwtx.meta, n, got, start)
      ensures Ascending(ids) && Elems(ids) == Elems(freelist.ids) + PendingIds(freelist.pending)
    {
      n := Reserve();
      ghost var before := freelist.cache;
      got, start := Allocate(n);
      assert freelist.cache <= before;
      ids := NewList(n, before);
    }

    /** How many pages the freelist takes as it is. */
    method Reserve() returns (n: nat)
      requires freelist.Valid() && pageSize > 0
      ensures n > 0 && TakesPages(n, freelist.cache, pageSize)
    {
      var size := freelist.Size();
      n := PagesFor(size, pageSize, freelist.cache);
    }

    /** freelist.write on the n pages reserved for it before the allocation. */
    method NewList(n: nat, ghost before: set<Pgid>) returns (ids: seq<Pgid>)
      requires freelist.Valid() && pageSize > 0 && TakesPages(n, before, pageSize) && freelist.cache <= before
      ensures Ascending(ids) && Elems(ids) == freelist.cache && SizeOf(|ids|) <= n * pageSize
    {
      Fewer(freelist.cache, before);
      Fits(before, pageSize, n);
      var page := new FreelistPage((n * pageSize - PAGE_HEADER_SIZE) / PGID_SIZE);
      freelist.Write(page);
      ids := page.Image();
      ElemsCount(ids);
    }

    /** tx.write: the dirty pages go to the file one by one, in some order, and are synced. */
    method Write()
      requires Valid() && rwtx != null && rwtx.phase == Protocol.Listed
      modifies `disk, `cached, rwtx`phase
      ensures Valid() && Runs.Written(old(State()), State())
    {
      WriteAll();
      Step(State(), Runs.Sync);
      disk := disk + cached;
      cached := map[];
      rwtx.phase := Protocol.PagesSynced;
    }

    method WriteAll()
      requires Valid() && rwtx != null && rwtx.phase == Protocol.Listed
      modifies `cached
      ensures Valid() && cached == old(cached) + rwtx.pages
    {
      var todo := rwtx.pages.Keys;
      ghost var s := State();
      while todo != {}
        invariant todo <= rwtx.pages.Keys && freelist.Valid() && Runs.Sound(s.(cached := cached))
        invariant Runs.WrittenUpTo(s, todo, cached)
      {
        var x :| x in todo;
        Step(s.(cached := cached), Runs.WriteOut(x));
        cached := cached[x := rwtx.pages[x]];
        todo := todo - {x};
      }
      assert State() == s.(cached := cached);
    }

    /** writeMeta: the meta page goes to the slot of its transaction id. */
    method WriteMeta()
      requires Valid() && rwtx != null && rwtx.phase == Protocol.PagesSynced
      modifies `cached, `snaps, rwtx`phase
      ensures Valid() && Runs.Next(old(State()), Runs.PublishMeta, State())
    {
      ghost var s := State();
      Step(s, Runs.PublishMeta);
      BelowMark(s);
      assert rwtx.meta.root < rwtx.meta.pgid && rwtx.meta.freelist < rwtx.meta.pgid;
      cached := cached[rwtx.meta.txid % 2 := Protocol.MetaPage(rwtx.meta, true)];
      snaps := snaps[rwtx.meta.txid := Protocol.Published(s, rwtx.State())];
      rwtx.phase := Protocol.MetaWritten;
      assert State() == Protocol.WriteMeta(s);
    }

    /** The meta page is synced, and the write transaction closed. */
    method FinishCommit()
      requires Valid() && rwtx != null && rwtx.phase == Protocol.MetaWritten
      modifies `disk, `cached, `rwtx
      ensures Valid() && rwtx == null && Runs.Next(old(State()), Runs.FinishCommit, State())
    {
      Step(State(), Runs.FinishCommit);
      disk := disk + cached;
      cached := map[];
      rwtx := null;
    }

    /** rollback: the transaction's own pending list goes, and the free pages are read again. */
    method Rollback()
      requires Valid() && rwtx != null && rwtx.phase != Protocol.MetaWritten
      modifies freelist, `rwtx
      ensures Valid() && rwtx == null && Runs.Next(old(State()), Runs.Abort, State())
    {
      ghost var s := State();
      Step(s, Runs.Abort);
      NowStored(s);
      Restore();
      rwtx := null;
      assert State() == Protocol.Rollback(s);
    }

    method Restore()
      requires Valid() && rwtx != null && rwtx.phase != Protocol.MetaWritten
      modifies freelist
      ensures freelist.Valid() && Waiting(freelist.pending) == old(Waiting(freelist.pending)) - {rwtx.meta.txid}
      ensures Runs.Sound(old(State())) && Protocol.Readable(disk + cached)
      ensures var m := Protocol.DbMeta(disk + cached);
              && m.freelist in disk + cached && (disk + cached)[m.freelist].List?
              && Elems(freelist.ids) == Protocol.ReadList((disk + cached)[m.freelist].ids)
                - Protocol.PendingIds(Waiting(freelist.pending))
    {
      NowStored(State());
      freelist.Rollback(rwtx.meta.txid);
      assert Waiting(freelist.pending) == old(Waiting(freelist.pending)) - {rwtx.meta.txid};
      var m := Meta();
      Reload(Page(m.freelist).ids);
    }

    /** freelist.reload on the page that stores the given ids. */
    method Reload(ids: seq<Pgid>)
      requires freelist.Valid() && Ascending(ids) && forall x :: x in ReadBack(ids) ==> x >= 2
      modifies freelist`ids, freelist`cache
      ensures freelist.Valid()
      ensures Elems(freelist.ids) == Protocol.ReadList(ids) - Protocol.PendingIds(Waiting(freelist.pending))
    {
      var page := new FreelistPage.Of(ids);
      freelist.Reload(page);
      PendingIs(freelist.pending);
    }
  }

  /** The meta page never points beyond the high-water mark. */
  lemma {:induction false} BelowMark(s: Protocol.State)
    requires Runs.Sound(s) && Protocol.InPhase(s, Protocol.PagesSynced)
    ensures s.writer.value.meta.root < s.writer.value.meta.pgid
      && s.writer.value.meta.freelist < s.writer.value.meta.pgid
  {
    Unseal(s);
    var w := s.writer.value;
    Safety.PublishedSpace(s, w, Protocol.Durable(s));
    assert w.meta.root in Protocol.PageRun(w.tree, w.meta.root) && w.meta.root in Protocol.Live(w);
    assert w.meta.freelist in Run(w.meta.freelist, w.overflow + 1) && w.meta.freelist in Protocol.Live(w);
  }

  /** Before its meta page is written, a writer still sees the version it started from. */
  lemma {:induction false} NowStored(s: Protocol.State)
    requires Runs.Sound(s) && s.writer.Some? && s.writer.value.phase != Protocol.MetaWritten
    ensures Protocol.Readable(s.disk + s.cached) && Protocol.Readable(s.disk)
    ensures var m := Protocol.DbMeta(s.disk + s.cached);
            && m == Protocol.Durable(s) && m.txid in s.snaps && Protocol.SnapOk(s.snaps[m.txid])
            && m.freelist !in s.cached && m.freelist in s.disk && s.disk[m.freelist].List?
            && s.disk[m.freelist].ids == Protocol.Ids(s.snaps[m.txid]) && Ascending(s.disk[m.freelist].ids)
            && (forall x :: x in ReadBack(s.disk[m.freelist].ids) ==> x >= 2)
            && s.pending - {s.writer.value.meta.txid} == s.writer.value.pending0
  {
    Unseal(s);
    var b := Protocol.Base(s);
    Safety.BeginReadIdle(b);
    var m := Protocol.Durable(b);
    assert m.freelist in s.snaps[m.txid].pages;
    assert forall x :: x in ReadBack(s.disk[m.freelist].ids) ==> x in Protocol.ReadList(Protocol.Ids(s.snaps[m.txid]));
  }

  /** The new freelist and its pages make the step that starts a commit. */
  lemma {:induction false} BuildIs(s: Protocol.State, free: set<Pgid>, pending: Protocol.Lists, overflow: nat,
                                   m: Protocol.Meta, n: nat, got: Pgid, start: Pgid, ids: seq<Pgid>,
                                   rest: seq<Protocol.Block>, root: Pgid)
    requires Runs.Sound(s) && Protocol.InPhase(s, Protocol.Open) && n > 0 && |rest| == n - 1
    requires Took(s.free, free, s.writer.value.meta, m, n, got, start) && root in s.writer.value.tree
    requires overflow == s.writer.value.overflow
    requires pending == Protocol.AddPending(s.pending, m.txid, Run(m.freelist, overflow + 1))
    requires Ascending(ids) && Elems(ids) == free + Protocol.PendingIds(pending)
    ensures var e := Runs.StartCommit(n, got, ids, rest, root); var w := s.writer.value;
            && Runs.Guard(s, e) && Runs.Defined(s, e) && Runs.Sound(Runs.Apply(s, e))
            && Runs.Apply(s, e) == s.(free := free, pending := pending, writer := Some(w.(
              meta := m.(freelist := start, root := root), overflow := n - 1, phase := Protocol.Listed,
              pages := w.pages + Protocol.Buffers(start, [Protocol.List(ids, n - 1)] + rest))))
  {
    BelowTop(s);
    assert free == s.free - Run(start, n);
    Step(s, Runs.StartCommit(n, got, ids, rest, root));
  }

  lemma {:induction false} AllocateIs(s: Protocol.State, free: set<Pgid>, m: Protocol.Meta, got: Pgid, start: Pgid,
                                      blocks: seq<Protocol.Block>)
    requires Runs.Sound(s) && Protocol.InPhase(s, Protocol.Open) && blocks != []
    requires Took(s.free, free, s.writer.value.meta, m, |blocks|, got, start)
    ensures var e := Runs.AllocateNode(|blocks|, got, blocks); var w := s.writer.value;
            && Runs.Guard(s, e) && Runs.Defined(s, e) && Runs.Sound(Runs.Apply(s, e)) && start == Protocol.Start(w, got)
            && Runs.Apply(s, e) == s.(free := free, writer := Some(w.(meta := m,
              pages := w.pages + Protocol.Buffers(start, blocks), tree := w.tree[start := |blocks| - 1])))
  {
    BelowTop(s);
    assert free == s.free - Run(start, |blocks|);
    Step(s, Runs.AllocateNode(|blocks|, got, blocks));
  }

  method PagesFor(size: nat, pageSize: nat, ghost ids: set<Pgid>) returns (n: nat)
    requires pageSize > 0 && size == SizeOf(|ids|)
    ensures n > 0 && TakesPages(n, ids, pageSize)
  {
    n := size / pageSize + 1;
  }

  lemma {:induction false} Fits(pages: set<Pgid>, pageSize: nat, n: nat)
    requires pageSize > 0 && TakesPages(n, pages, pageSize)
    ensures n > 0 && SizeOf(|pages|) <= n * pageSize && n * pageSize >= 16
    ensures SizeOf(|pages|) <= 16 + 8 * ((n * pageSize - 16) / 8)
  {
    assert Weigh(0);
    var size := SizeOf(|pages|);
    assert size == (size / pageSize) * pageSize + size % pageSize;
    assert n * pageSize == (size / pageSize) * pageSize + pageSize;
  }

  lemma {:induction false} Fewer(a: set<Pgid>, b: set<Pgid>)
    requires a <= b
    ensures |a| <= |b|
  {
    assert b == a + (b - a);
  }

  lemma {:induction false} CanFreeList(s: Protocol.State, overflow: nat)
    requires Runs.Sound(s) && Protocol.InPhase(s, Protocol.Open) && s.writer.value.overflow == overflow
    ensures var p := s.writer.value.meta.freelist;
            p > 1 && Run(p, overflow + 1) !! s.free + Protocol.PendingIds(s.pending)
  {
    Unseal(s);
    var w, d := s.writer.value, Protocol.Durable(s);
    assert w.meta.freelist in Run(w.meta.freelist, overflow + 1)
      && Run(w.meta.freelist, overflow + 1) <= Protocol.Live(w);
    Safety.PublishedSpace(s, w, d);
  }

  /** The pages of the writer's tree are neither free nor pending. */
  lemma {:induction false} CanFree(s: Protocol.State, p: Pgid, overflow: nat)
    requires Runs.Sound(s) && Protocol.InPhase(s, Protocol.Open) && p in s.writer.value.tree
    requires s.writer.value.tree[p] == overflow
    ensures p > 1 && Run(p, overflow + 1) !! s.free + Protocol.PendingIds(s.pending)
  {
    Unseal(s);
    var w, d := s.writer.value, Protocol.Durable(s);
    assert p in Protocol.PageRun(w.tree, p) && Protocol.PageRun(w.tree, p) <= Protocol.Live(w);
    Safety.PublishedSpace(s, w, d);
  }

  /** Free pages are below the high-water mark. */
  lemma {:induction false} BelowTop(s: Protocol.State)
    requires Runs.Sound(s) && s.writer.Some? && s.writer.value.phase == Protocol.Open
    ensures forall x :: x in s.free ==> 2 <= x < s.writer.value.meta.pgid
    ensures 2 <= s.writer.value.meta.pgid
  {
    Unseal(s);
    Safety.PublishedSpace(s, s.writer.value, Protocol.Durable(s));
  }

  /** The ids of a freelist page become the free pages of a new freelist. */
  method LoadList(freelist: Freelist, ids: seq<Pgid>)
    requires Ascending(ids) && freelist.pending == map[]
    requires Ascending(ReadBack(ids)) && forall x :: x in ReadBack(ids) ==> x >= 2
    modifies freelist
    ensures freelist.Valid() && freelist.ids == ReadBack(ids) && freelist.pending == map[]
      && Waiting(freelist.pending) == map[]
  {
    var page := new FreelistPage.Of(ids);
    freelist.Read(page);
    ReadInOrder(freelist.ids, ids);
    assert PendingIds(freelist.pending) == {};
  }

  /** The freelist page of the version on disk can be read, and gives the free pages after reopening. */
  lemma {:induction false} StoredList(s: Protocol.State, d: Protocol.Disk)
    requires Runs.Sound(s) && Protocol.Survives(s, d)
    ensures Protocol.Readable(d) && Protocol.DbMeta(d).txid in s.snaps
    ensures var m := Protocol.DbMeta(d);
            && Protocol.SnapOk(s.snaps[m.txid]) && m.freelist in d && d[m.freelist].List?
            && d[m.freelist].ids == Protocol.Ids(s.snaps[m.txid]) && Ascending(d[m.freelist].ids)
            && Ascending(ReadBack(d[m.freelist].ids)) && forall x :: x in ReadBack(d[m.freelist].ids) ==> x >= 2
  {
    Unseal(s);
    Safety.CrashAtomic(s, d);
    var m := Protocol.DbMeta(d);
    assert m.freelist in s.snaps[m.txid].pages;
    ReadBackIs(d[m.freelist].ids);
    var r := Protocol.Reopened(s, d);
    assert forall x :: x in ReadBack(d[m.freelist].ids) ==> x in r.free;
  }

  lemma {:induction false} PendingIs(pending: Pending)
    ensures Protocol.PendingIds(Waiting(pending)) == PendingIds(pending)
  {
    forall x | x in PendingIds(pending) ensures x in Protocol.PendingIds(Waiting(pending)) {
      var t :| t in pending && x in pending[t];
      assert t in Waiting(pending) && x in Waiting(pending)[t];
    }
    forall x | x in Protocol.PendingIds(Waiting(pending)) ensures x in PendingIds(pending) {
      var t :| t in Waiting(pending) && x in Waiting(pending)[t];
      assert x in pending[t];
    }
  }

  lemma {:induction false} ReleaseIs(pending: Pending, low: int)
    ensures Waiting(After(pending, low)) == Protocol.After(Waiting(pending), low)
    ensures PendingIds(UpTo(pending, low)) == Protocol.UpTo(Waiting(pending), low)
  {
    forall x | x in PendingIds(UpTo(pending, low)) ensures x in Protocol.UpTo(Waiting(pending), low) {
      var t :| t in UpTo(pending, low) && x in UpTo(pending, low)[t];
      assert t in Waiting(pending) && x in Waiting(pending)[t];
    }
    forall x | x in Protocol.UpTo(Waiting(pending), low) ensures x in PendingIds(UpTo(pending, low)) {
      var t :| t in Waiting(pending) && t <= low && x in Waiting(pending)[t];
      assert t in UpTo(pending, low) && x in UpTo(pending, low)[t];
    }
  }

  lemma {:induction false} ReleaseNone(pending: Pending)
    ensures Protocol.After(Waiting(pending), -1) == Waiting(pending) && Protocol.UpTo(Waiting(pending), -1) == {}
  {
  }
}
