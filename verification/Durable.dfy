/** The two halves together: the tree that a write transaction leaves, and what is left of it after a stop
    at any point. A decoder says which node the bytes of a page hold; `Codecs` is about that. */
module Durability {
  import opened Options
  import opened Pgids
  import opened Levels
  import opened Tree
  import opened Arena
  import opened Steps
  import opened Simulation
  import opened Transactions
  import Commits
  import Protocol
  import Safety
  import Runs

  type Decoder = int -> Page

  /** The nodes on the given pages of a file. */
  ghost function View(dec: Decoder, d: Protocol.Disk, heads: set<Pgid>): Pages
  {
    map id | id in heads && id in d && d[id].Data? :: dec(d[id].bytes)
  }

  ghost function Stored(dec: Decoder, sn: Protocol.Snapshot): Pages
  {
    View(dec, sn.pages, sn.tree.Keys)
  }

  /** The writer's tree, read through its buffers. */
  ghost function Seen(dec: Decoder, s: Protocol.State): Pages
    requires s.writer.Some?
  {
    View(dec, s.disk + s.writer.value.pages, s.writer.value.tree.Keys)
  }

  /** The version is the tree lv. */
  ghost predicate Holds(dec: Decoder, sn: Protocol.Snapshot, lv: Stack)
  {
    Settled(Stored(dec, sn), lv) && RootId(lv) == sn.meta.root
  }

  /** The version that a crash before the meta page is written reopens is the tree lv. */
  ghost predicate Kept(dec: Decoder, s: Protocol.State, lv: Stack)
  {
    Protocol.Readable(s.disk) && Protocol.Durable(s).txid in s.snaps
      && Holds(dec, s.snaps[Protocol.Durable(s).txid], lv)
  }

  /** The writer is about to publish the tree lv, or has. */
  ghost predicate Bears(dec: Decoder, s: Protocol.State, lv: Stack)
  {
    && s.writer.Some?
    && (var w := s.writer.value;
        if w.phase == Protocol.MetaWritten then w.meta.txid in s.snaps && Holds(dec, s.snaps[w.meta.txid], lv)
        else Settled(Seen(dec, s), lv) && (w.phase == Protocol.Open || w.meta.root == RootId(lv)))
  }

  /** Both: the transaction between the trees lv and lv'. */
  ghost predicate Underway(dec: Decoder, s: Protocol.State, lv: Stack, lv': Stack)
  {
    forall x {:trigger Runs.Peek(x)} :: Runs.Peek(x) ==> Kept(dec, s, lv) && Bears(dec, s, lv')
  }

  // ---- what the steps of a transaction do to its tree ----

  lemma {:induction false} FreeSeen(dec: Decoder, s: Protocol.State, p: Pgid)
    requires Protocol.InPhase(s, Protocol.Open) && p in s.writer.value.tree
    ensures Seen(dec, Protocol.FreePage(s, p)) == Seen(dec, s) - {p}
  {
  }

  /** New pages are not in the writer's tree. */
  lemma {:induction false} NewPages(s: Protocol.State, n: nat, p: Pgid)
    requires Protocol.Inv(s) && Protocol.InPhase(s, Protocol.Open) && Protocol.FirstRun(s.free, n, p)
    ensures Pgids.Run(Protocol.Start(s.writer.value, p), n) !! s.writer.value.tree.Keys
  {
    var w := s.writer.value;
    Safety.PublishedSpace(s, w, Protocol.Durable(s));
    forall q | q in w.tree ensures q in Protocol.Live(w) {
      assert q in Protocol.PageRun(w.tree, q);
    }
  }

  lemma {:induction false} ViewSame(dec: Decoder, d: Protocol.Disk, d': Protocol.Disk, heads: set<Pgid>)
    requires forall q :: q in heads ==> (q in d <==> q in d') && (q in d ==> d[q] == d'[q])
    ensures View(dec, d', heads) == View(dec, d, heads)
  {
  }

  lemma {:induction false} ViewNew(dec: Decoder, d: Protocol.Disk, fresh': Protocol.Disk, heads: set<Pgid>, q: Pgid)
    requires fresh'.Keys !! heads && q in fresh' && fresh'[q].Data?
    ensures View(dec, d + fresh', heads + {q}) == View(dec, d, heads)[q := dec(fresh'[q].bytes)]
  {
  }

  lemma {:induction false} AllocateSeen(dec: Decoder, s: Protocol.State, n: nat, p: Pgid, blocks: seq<Protocol.Block>)
    requires Protocol.Inv(s) && Runs.Guard(s, Runs.AllocateNode(n, p, blocks)) && blocks[0].Data?
    ensures Seen(dec, Protocol.AllocatePage(s, n, p, blocks))
      == Seen(dec, s)[Protocol.Start(s.writer.value, p) := dec(blocks[0].bytes)]
  {
    NewPages(s, n, p);
    AllocateView(dec, s, n, p, blocks);
  }

  lemma {:induction false} AllocateView(dec: Decoder, s: Protocol.State, n: nat, p: Pgid, blocks: seq<Protocol.Block>)
    requires Protocol.InPhase(s, Protocol.Open) && n > 0 && |blocks| == n && blocks[0].Data?
    requires Pgids.Run(Protocol.Start(s.writer.value, p), n) !! s.writer.value.tree.Keys
    ensures Seen(dec, Protocol.AllocatePage(s, n, p, blocks))
      == Seen(dec, s)[Protocol.Start(s.writer.value, p) := dec(blocks[0].bytes)]
  {
    var w, q := s.writer.value, Protocol.Start(s.writer.value, p);
    var fresh' := Protocol.Buffers(q, blocks);
    assert q in fresh' && fresh'[q] == blocks[0];
    ViewNew(dec, s.disk + w.pages, fresh', w.tree.Keys, q);
    assert s.disk + (w.pages + fresh') == s.disk + w.pages + fresh';
    assert w.tree[q := n - 1].Keys == w.tree.Keys + {q};
  }

  lemma {:induction false} ListSeen(dec: Decoder, s: Protocol.State, n: nat, p: Pgid, ids: seq<Pgid>,
                                    rest: seq<Protocol.Block>, root: Pgid)
    requires Protocol.Inv(s) && Runs.Guard(s, Runs.StartCommit(n, p, ids, rest, root))
    ensures Seen(dec, Protocol.BuildList(s, n, p, ids, rest, root)) == Seen(dec, s)
  {
    NewPages(s, n, p);
    ListView(dec, s, n, p, ids, rest, root);
  }

  lemma {:induction false} ListView(dec: Decoder, s: Protocol.State, n: nat, p: Pgid, ids: seq<Pgid>,
                                    rest: seq<Protocol.Block>, root: Pgid)
    requires Protocol.InPhase(s, Protocol.Open) && n > 0 && |rest| == n - 1
    requires Pgids.Run(Protocol.Start(s.writer.value, p), n) !! s.writer.value.tree.Keys
    ensures Seen(dec, Protocol.BuildList(s, n, p, ids, rest, root)) == Seen(dec, s)
  {
    var w, q := s.writer.value, Protocol.Start(s.writer.value, p);
    var fresh' := Protocol.Buffers(q, [Protocol.List(ids, n - 1)] + rest);
    ViewSame(dec, s.disk + w.pages, s.disk + (w.pages + fresh'), w.tree.Keys);
  }

  /** Pages of the tree that the writer did not allocate are those of the version it started from. */
  lemma {:induction false} OldPages(s: Protocol.State)
    requires Protocol.Inv(s) && s.writer.Some? && s.writer.value.phase != Protocol.MetaWritten
    ensures forall q :: q in s.writer.value.tree && q !in s.writer.value.pages ==> q !in s.cached
    ensures s.writer.value.tree.Keys <= Protocol.Live(s.writer.value)
  {
    var w, d := s.writer.value, Protocol.Durable(s);
    forall q | q in w.tree ensures q in Protocol.Live(w) {
      assert q in Protocol.PageRun(w.tree, q);
    }
    assert Protocol.Live(w) <= Protocol.InUse(s, d) + w.pages.Keys;
  }

  lemma {:induction false} SyncSeen(dec: Decoder, s: Protocol.State)
    requires Protocol.Inv(s) && Protocol.InPhase(s, Protocol.Listed) && Protocol.AllWritten(s)
    ensures Seen(dec, Protocol.SyncPages(s)) == Seen(dec, s)
  {
    OldPages(s);
    var w := s.writer.value;
    ViewSame(dec, s.disk + w.pages, s.disk + s.cached + w.pages, w.tree.Keys);
  }

  lemma {:induction false} PublishSeen(dec: Decoder, s: Protocol.State)
    requires Protocol.Inv(s) && Protocol.InPhase(s, Protocol.PagesSynced)
    ensures Stored(dec, Protocol.Published(s, s.writer.value)) == Seen(dec, s)
  {
    OldPages(s);
    var w := s.writer.value;
    ViewSame(dec, s.disk + w.pages, Protocol.Published(s, w).pages, w.tree.Keys);
  }

  ghost function Only(tree: Protocol.Pages, heads: set<Pgid>): Protocol.Pages
  {
    map p | p in tree && p in heads :: tree[p]
  }

  /** Overflow pages follow their head page: if each head page of a tree is kept or freed, never both, then
      so is each page. */
  lemma {:induction false} RunsFollow(tree: Protocol.Pages, kept: set<Pgid>, freed: set<Pgid>)
    requires Protocol.Apart(tree) && kept !! freed && tree.Keys <= kept + freed
    ensures Protocol.Span(Only(tree, kept)) + Protocol.Span(Only(tree, freed)) == Protocol.Span(tree)
    ensures Protocol.Span(Only(tree, kept)) !! Protocol.Span(Only(tree, freed))
  {
    var k, f := Only(tree, kept), Only(tree, freed);
    forall x ensures x in Protocol.Span(tree) <==> x in Protocol.Span(k) + Protocol.Span(f) {
      SpanOf(tree, kept, x);
      SpanOf(tree, freed, x);
      if x in Protocol.Span(tree) {
        var p :| p in tree && x in Protocol.PageRun(tree, p);
        assert p in kept || p in freed;
      }
    }
    forall p, q | p in k && q in f ensures Protocol.PageRun(k, p) !! Protocol.PageRun(f, q) {
      assert Protocol.Separate(tree, p, q);
    }
  }

  lemma {:induction false} SpanOf(tree: Protocol.Pages, heads: set<Pgid>, x: Pgid)
    ensures x in Protocol.Span(Only(tree, heads)) <==>
      exists p :: p in tree && p in heads && x in Protocol.PageRun(tree, p)
  {
    if p :| p in tree && p in heads && x in Protocol.PageRun(tree, p) {
      assert p in Only(tree, heads) && x in Protocol.PageRun(Only(tree, heads), p);
    }
    if x in Protocol.Span(Only(tree, heads)) {
      var p :| p in Only(tree, heads) && x in Protocol.PageRun(Only(tree, heads), p);
      assert x in Protocol.PageRun(tree, p);
    }
  }

  // ---- from the start of a commit to the meta page ----

  /** A step between the start of a commit that publishes the given root and the sync of its meta page,
      of the writer or of readers. */
  predicate Committing(e: Runs.Event, root: Pgid)
  {
    match e
    case StartCommit(_, _, _, _, r) => r == root
    case OpenReader | EndReader(_) | WriteOut(_) | Sync | PublishMeta => true
    case _ => false
  }

  ghost predicate AllCommitting(es: seq<Runs.Event>, c: nat, k: nat, root: Pgid)
  {
    k <= |es| && forall j {:trigger es[j]} :: c <= j < k ==> Committing(es[j], root)
  }

  lemma {:induction false} BearsNext(dec: Decoder, s: Protocol.State, e: Runs.Event, lv: Stack)
    requires Protocol.Inv(s) && Runs.Guard(s, e) && Runs.Defined(s, e) && Bears(dec, s, lv) && Committing(e, RootId(lv))
    ensures Bears(dec, Runs.Apply(s, e), lv)
  {
    match e
    case StartCommit(n, p, ids, rest, root) => ListSeen(dec, s, n, p, ids, rest, root);
    case Sync => SyncSeen(dec, s);
    case PublishMeta => PublishSeen(dec, s);
    case _ =>
  }

  lemma {:induction false} KeptNext(dec: Decoder, s: Protocol.State, e: Runs.Event, lv: Stack, root: Pgid)
    requires Protocol.Inv(s) && Runs.Guard(s, e) && Runs.Defined(s, e) && s.writer.Some?
    requires Kept(dec, s, lv) && Committing(e, root)
    ensures Kept(dec, Runs.Apply(s, e), lv)
  {
    if e.Sync? {
      Safety.SyncIdle(Protocol.Base(s));
    }
  }

  lemma {:induction false} CommitNext(ss: seq<Protocol.State>, es: seq<Runs.Event>, leaf: int, k: nat, dec: Decoder,
                                      lv: Stack, lv': Stack)
    requires Runs.Execution(ss, es, leaf) && k < |es| && Committing(es[k], RootId(lv'))
    requires Underway(dec, ss[k], lv, lv')
    ensures Underway(dec, ss[k + 1], lv, lv')
  {
    assert Runs.Peek(0);
    Runs.RunSafe(ss, es, leaf, k);
    assert Runs.StepAt(ss, es, k);
    KeptNext(dec, ss[k], es[k], lv, RootId(lv'));
    BearsNext(dec, ss[k], es[k], lv');
  }

  lemma {:induction false} CommitRun(ss: seq<Protocol.State>, es: seq<Runs.Event>, leaf: int, c: nat, k: nat,
                                     dec: Decoder, lv: Stack, lv': Stack)
    requires Runs.Execution(ss, es, leaf) && c <= k < |ss| && Underway(dec, ss[c], lv, lv')
    requires AllCommitting(es, c, k, RootId(lv'))
    ensures Underway(dec, ss[k], lv, lv')
    decreases k
  {
    if c < k {
      CommitRun(ss, es, leaf, c, k - 1, dec, lv, lv');
      CommitNext(ss, es, leaf, k - 1, dec, lv, lv');
    }
  }

  // ---- the stop ----

  /** The pages that the newer valid meta page of d leads to make up the tree t. */
  ghost predicate Reads(dec: Decoder, s: Protocol.State, d: Protocol.Disk, t: Stack)
  {
    && Protocol.Readable(d) && Protocol.DbMeta(d).txid in s.snaps && RootId(t) == Protocol.DbMeta(d).root
    && Settled(View(dec, d, s.snaps[Protocol.DbMeta(d).txid].tree.Keys), t)
  }

  /** After a stop the file holds the tree before the transaction or, if its meta page was being written,
      the tree it was to publish. */
  lemma {:induction false} CrashReads(dec: Decoder, s: Protocol.State, d: Protocol.Disk, lv: Stack, lv': Stack)
    requires Protocol.Inv(s) && Protocol.Survives(s, d) && Kept(dec, s, lv) && Bears(dec, s, lv')
    ensures Reads(dec, s, d, lv) || (Protocol.InPhase(s, Protocol.MetaWritten) && Reads(dec, s, d, lv'))
  {
    Safety.CrashAtomic(s, d);
    var m := Protocol.DbMeta(d);
    CrashView(dec, d, s.snaps[m.txid]);
    assert s.snaps[m.txid].meta == m;
  }

  /** What is on disk of a version is its tree. */
  lemma {:induction false} CrashView(dec: Decoder, d: Protocol.Disk, sn: Protocol.Snapshot)
    requires Protocol.SnapOk(sn) && Protocol.OnDisk(d, map[], sn)
    ensures View(dec, d, sn.tree.Keys) == Stored(dec, sn)
  {
    forall q | q in sn.tree ensures q in sn.pages {
      assert q in Protocol.PageRun(sn.tree, q);
    }
    ViewSame(dec, sn.pages, d, sn.tree.Keys);
  }

  /** Once the meta page is synced the new tree is the one that stays. */
  lemma {:induction false} FinishKeeps(dec: Decoder, s: Protocol.State, lv: Stack)
    requires Protocol.Inv(s) && Protocol.InPhase(s, Protocol.MetaWritten) && Bears(dec, s, lv)
    ensures Kept(dec, Protocol.SyncMeta(s), lv)
  {
  }

  /** Whether pages make up a settled tree depends on the pages of the tree only. */
  lemma {:induction false} SettledOn(pages: Pages, pages': Pages, lv: Stack)
    requires Settled(pages, lv)
    requires forall id :: id in Ids(lv) && id in pages ==> id in pages' && pages'[id] == pages[id]
    ensures Settled(pages', lv)
  {
    Unfold(map[], pages, lv);
    forall k, j | 0 <= k < |lv| && 0 <= j < |lv[k]|
      ensures lv[k][j].id in Ids(lv) && ShownAt(map[], pages', lv, k, j)
    {
      IdsIn(lv, k, j);
      assert ShownAt(map[], pages, lv, k, j);
    }
    forall k, j | 0 < k < |lv| && 0 <= j < |lv[k]| ensures StrictAt(map[], pages', lv, k, j) {
      assert StrictAt(map[], pages, lv, k, j);
      forall i | 0 <= i < |lv[k][j].inodes| ensures EntryStrict(map[], pages', lv[k][j].inodes[i]) {
        var c := PlaceEntry(lv, k, j, i);
        IdsIn(lv, k - 1, c);
        assert EntryStrict(map[], pages, lv[k][j].inodes[i]);
      }
    }
    OnPagesOn(pages, pages', lv);
  }

  lemma {:induction false} OnPagesOn(pages: Pages, pages': Pages, lv: Stack)
    requires Commits.OnPages(pages, lv)
    requires forall id :: id in Ids(lv) && id in pages ==> id in pages' && pages'[id] == pages[id]
    ensures Commits.OnPages(pages', lv)
  {
    forall m, q | 0 <= m < |lv| && 0 <= q < |lv[m]|
      ensures lv[m][q].id in pages' && pages'[lv[m][q].id] == Page(m == 0, lv[m][q].inodes)
    {
      IdsIn(lv, m, q);
    }
    forall m, q, i | 0 < m < |lv| && 0 <= q < |lv[m]| && 0 <= i < |lv[m][q].inodes|
      ensures var c := lv[m][q].inodes[i].pgid;
              c in pages' && pages'[c].inodes != [] && pages'[c].inodes[0].key == lv[m][q].inodes[i].key
    {
      var c := PlaceEntry(lv, m, q, i);
      IdsIn(lv, m - 1, c);
    }
  }

  /** A transaction that does ops to the map, and a stop at any point of its commit. pages and lv' are what
      `Transactions.Run` leaves; the writer of the run freed and allocated accordingly. Whatever writes are
      lost, the file holds a tree with the map from before, or with ops done to it. */
  lemma {:induction false} TransactionDurable(ss: seq<Protocol.State>, es: seq<Runs.Event>, leaf: int, c: nat, k: nat,
                                              d: Protocol.Disk, dec: Decoder, pages: Pages, lv: Stack, lv': Stack,
                                              ops: seq<Op>)
    returns (t: Stack)
    requires Runs.Execution(ss, es, leaf) && c <= k < |ss| && Protocol.InPhase(ss[c], Protocol.Open)
    requires Kept(dec, ss[c], lv) && Settled(pages, lv') && AsMap(Entries(lv')) == ModelAll(AsMap(Entries(lv)), ops)
    requires forall id :: id in Ids(lv') && id in pages ==> id in Seen(dec, ss[c]) && Seen(dec, ss[c])[id] == pages[id]
    requires AllCommitting(es, c, k, RootId(lv'))
    requires Protocol.Survives(ss[k], d)
    ensures Reads(dec, ss[k], d, t)
    ensures AsMap(Entries(t)) == AsMap(Entries(lv)) || AsMap(Entries(t)) == ModelAll(AsMap(Entries(lv)), ops)
    ensures !Protocol.InPhase(ss[k], Protocol.MetaWritten) ==> t == lv
  {
    SettledOn(pages, Seen(dec, ss[c]), lv');
    CommitRun(ss, es, leaf, c, k, dec, lv, lv');
    Runs.RunSafe(ss, es, leaf, k);
    assert Runs.Peek(0);
    CrashReads(dec, ss[k], d, lv, lv');
    t := if Reads(dec, ss[k], d, lv) then lv else lv';
  }
}
