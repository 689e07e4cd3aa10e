/** Runs of the protocol: any interleaving of readers, one writer at a time, and crashes. */
module Runs {
  import opened Options
  import opened Pgids
  import opened Protocol
  import opened Safety
  import Freelists

  datatype Event =
    | OpenReader
    | EndReader(i: nat)
    | OpenWriter
    | FreeNode(p: Pgid)
    | AllocateNode(n: nat, p: Pgid, blocks: seq<Block>)
    | StartCommit(n: nat, p: Pgid, ids: seq<Pgid>, rest: seq<Block>, root: Pgid)
    | WriteOut(x: Pgid)
    | Sync
    | PublishMeta
    | FinishCommit
    | Abort
    | Crash(disk: Disk)

  /** What the source requires of each step. */
  ghost predicate Guard(s: State, e: Event)
  {
    match e
    case OpenReader => true
    case EndReader(i) => i < |s.readers|
    case OpenWriter => s.writer == None
    case FreeNode(p) => InPhase(s, Open) && p in s.writer.value.tree
    case AllocateNode(n, p, blocks) => InPhase(s, Open) && n > 0 && |blocks| == n && FirstRun(s.free, n, p)
    case StartCommit(n, p, ids, rest, root) =>
      && InPhase(s, Open) && n > 0 && |rest| == n - 1 && FirstRun(s.free, n, p) && ListOf(s, n, p, ids)
      && root in s.writer.value.tree
    case WriteOut(x) => InPhase(s, Listed) && x in s.writer.value.pages
    case Sync => InPhase(s, Listed) && AllWritten(s)
    case PublishMeta => InPhase(s, PagesSynced)
    case FinishCommit => InPhase(s, MetaWritten)
    case Abort => s.writer.Some? && s.writer.value.phase != MetaWritten
    case Crash(disk) => Survives(s, disk)
  }

  /** The version m and its freelist page can be read back. */
  ghost predicate Known(s: State, d: Disk)
  {
    Readable(d) && DbMeta(d).txid in s.snaps && SnapOk(s.snaps[DbMeta(d).txid])
  }

  /** The meta pages and the freelist that a step reads are readable, as they are in every run. */
  ghost predicate Defined(s: State, e: Event)
  {
    match e
    case OpenReader => Readable(s.disk + s.cached)
    case OpenWriter => Readable(s.disk + s.cached) && DbMeta(s.disk + s.cached).txid in s.snaps
    case Abort => Known(s, s.disk)
    case Crash(disk) => Known(s, disk)
    case _ => true
  }

  ghost function Apply(s: State, e: Event): State
    requires Guard(s, e) && Defined(s, e)
  {
    match e
    case OpenReader => BeginRead(s)
    case EndReader(i) => CloseReader(s, i)
    case OpenWriter => BeginWrite(s)
    case FreeNode(p) => FreePage(s, p)
    case AllocateNode(n, p, blocks) => AllocatePage(s, n, p, blocks)
    case StartCommit(n, p, ids, rest, root) => BuildList(s, n, p, ids, rest, root)
    case WriteOut(x) => WritePage(s, x)
    case Sync => SyncPages(s)
    case PublishMeta => WriteMeta(s)
    case FinishCommit => SyncMeta(s)
    case Abort => Rollback(s)
    case Crash(disk) => Reopened(s, disk)
  }

  ghost predicate Next(s: State, e: Event, s': State)
  {
    Guard(s, e) && Defined(s, e) && s' == Apply(s, e)
  }

  /** All dirty pages but those in todo are written. */
  ghost predicate WrittenUpTo(s: State, todo: set<Pgid>, cached: Disk)
    requires InPhase(s, Listed)
  {
    && (forall x :: x in s.writer.value.pages && x !in todo ==> x in cached && cached[x] == s.writer.value.pages[x])
    && (forall x :: x !in s.writer.value.pages ==>
      (x in cached <==> x in s.cached) && (x in cached ==> cached[x] == s.cached[x]))
  }

  /** Every dirty page is written, and then all is synced. */
  ghost predicate Written(s: State, s': State)
    requires InPhase(s, Listed)
  {
    s' == SyncPages(s.(cached := s.cached + s.writer.value.pages))
  }

  /** A step can be taken whenever the source allows it. */
  lemma {:induction false} AlwaysDefined(s: State, e: Event)
    requires Inv(s) && Guard(s, e)
    ensures Defined(s, e)
  {
    BeginReadKeeps(s);
    if e.OpenWriter? {
      BeginWriteKeeps(s);
    }
    if e.Crash? {
      CrashAtomic(s, e.disk);
    }
  }

  lemma {:induction false} ApplyKeeps(s: State, e: Event)
    requires Inv(s) && Guard(s, e)
    ensures Defined(s, e) && Inv(Apply(s, e))
  {
    AlwaysDefined(s, e);
    if s.writer.Some? && !e.OpenReader? && !e.EndReader? && !e.Crash? {
      WriterKeeps(s, e);
    } else {
      OthersKeep(s, e);
    }
  }

  lemma {:induction false} WriterKeeps(s: State, e: Event)
    requires Inv(s) && Guard(s, e) && Defined(s, e) && s.writer.Some? && !e.OpenReader? && !e.EndReader? && !e.Crash?
    ensures Inv(Apply(s, e))
  {
    match e
    case FreeNode(p) => FreePageKeeps(s, p);
    case AllocateNode(n, p, blocks) => AllocatePageKeeps(s, n, p, blocks);
    case StartCommit(n, p, ids, rest, root) => BuildListKeeps(s, n, p, ids, rest, root);
    case WriteOut(x) => WritePageKeeps(s, x);
    case Sync => SyncPagesKeeps(s);
    case PublishMeta => WriteMetaKeeps(s);
    case FinishCommit => SyncMetaKeeps(s);
    case Abort => RollbackKeeps(s);
  }

  lemma {:induction false} OthersKeep(s: State, e: Event)
    requires Inv(s) && Guard(s, e) && Defined(s, e)
    requires s.writer == None || e.OpenReader? || e.EndReader? || e.Crash?
    ensures Inv(Apply(s, e))
  {
    match e
    case OpenReader => BeginReadKeeps(s);
    case EndReader(i) => CloseReaderKeeps(s, i);
    case OpenWriter => BeginWriteKeeps(s);
    case Crash(disk) => CrashAtomic(s, disk);
  }

  /** db.init: two meta pages, an empty freelist on page 2 and an empty leaf on page 3. */
  ghost function Initial(leaf: int): State
  {
    var m := Meta(1, 3, 2, 4);
    var list, root := List([], 0), Data(leaf);
    State(map[0 := MetaPage(m.(txid := 0), true), 1 := MetaPage(m, true), 2 := list, 3 := root], map[], {}, map[], [],
          None, map[1 := Snapshot(m, map[3 := 0], 0, map[2 := list, 3 := root])])
  }

  lemma {:induction false} InitialInv(leaf: int)
    ensures Inv(Initial(leaf)) && Covers(Initial(leaf))
  {
    var s := Initial(leaf);
    var sn := s.snaps[1];
    CurrentIs(s.disk, sn.meta);
    assert PageRun(sn.tree, 3) == {3} && Run(2, 1) == {2};
    assert Span(sn.tree) == {3};
    assert PendingIds(s.pending) == {};
  }

  ghost predicate StepAt(ss: seq<State>, es: seq<Event>, i: nat)
    requires i < |es| && i + 1 < |ss|
  {
    Next(ss[i], es[i], ss[i + 1])
  }

  /** A run: states and the events between them. */
  ghost predicate Execution(ss: seq<State>, es: seq<Event>, leaf: int)
  {
    && |ss| == |es| + 1 && ss[0] == Initial(leaf)
    && forall i {:trigger StepAt(ss, es, i)} :: 0 <= i < |es| ==> StepAt(ss, es, i)
  }

  lemma {:induction false} NextKeeps(s: State, e: Event, s': State)
    requires Inv(s) && Next(s, e, s')
    ensures Inv(s')
  {
    ApplyKeeps(s, e);
  }

  /** Mentioning Peek() is what unfolds Sound; elsewhere it stays a single fact. */
  ghost predicate Peek(x: int) { true }

  ghost predicate Sound(s: State)
  {
    forall x {:trigger Peek(x)} :: Peek(x) ==> Inv(s)
  }

  lemma {:induction false} RunStep(ss: seq<State>, es: seq<Event>, leaf: int, i: nat)
    requires Execution(ss, es, leaf) && 0 < i < |ss| && Sound(ss[i - 1])
    ensures Sound(ss[i])
  {
    assert StepAt(ss, es, i - 1);
    assert Peek(0);
    NextKeeps(ss[i - 1], es[i - 1], ss[i]);
  }

  lemma {:induction false} RunStart(ss: seq<State>, es: seq<Event>, leaf: int)
    requires Execution(ss, es, leaf)
    ensures Sound(ss[0])
  {
    InitialInv(leaf);
  }

  lemma {:induction false} RunSound(ss: seq<State>, es: seq<Event>, leaf: int, i: nat)
    requires Execution(ss, es, leaf) && i < |ss|
    ensures Sound(ss[i])
  {
    if i == 0 {
      RunStart(ss, es, leaf);
    } else {
      RunSound(ss, es, leaf, i - 1);
      RunStep(ss, es, leaf, i);
    }
  }

  /** The invariant holds throughout every run. */
  lemma {:induction false} RunSafe(ss: seq<State>, es: seq<Event>, leaf: int, i: nat)
    requires Execution(ss, es, leaf) && i < |ss|
    ensures Inv(ss[i])
  {
    RunSound(ss, es, leaf, i);
    assert Peek(0);
  }

  /** What a reader of version m gets: every page of that version as it was when it was committed. */
  ghost predicate Sees(s: State, m: Meta)
  {
    && m.txid in s.snaps && s.snaps[m.txid].meta == m
    && forall x :: x in s.snaps[m.txid].pages ==>
      x in s.disk + s.cached && (s.disk + s.cached)[x] == s.snaps[m.txid].pages[x]
  }

  lemma {:induction false} ReaderSees(s: State, m: Meta)
    requires Inv(s) && m in s.readers
    ensures Sees(s, m)
  {
    if s.writer == None {
      assert Pinned(s, InUse(s, Durable(s)), m);
    } else if InPhase(s, MetaWritten) {
      var c := Committed(s);
      assert Pinned(c, InUse(c, Durable(c)), m);
      assert c.disk == s.disk + s.cached;
    } else {
      var b := Base(s);
      assert m in b.readers;
      assert Pinned(b, InUse(b, Durable(b)), m);
    }
  }

  /** No step rewrites the history of a version that has readers. */
  lemma {:induction false} HistoryKept(s: State, e: Event, m: Meta)
    requires Inv(s) && Guard(s, e) && Defined(s, e) && m in s.readers && m in Apply(s, e).readers
    ensures m.txid in s.snaps && m.txid in Apply(s, e).snaps && Apply(s, e).snaps[m.txid] == s.snaps[m.txid]
  {
    ReaderSees(s, m);
    if e.PublishMeta? {
      var b := Base(s);
      assert m in b.readers;
    }
  }

  lemma {:induction false} HistoryStep(ss: seq<State>, es: seq<Event>, leaf: int, k: nat, m: Meta)
    requires Execution(ss, es, leaf) && k < |es| && m in ss[k].readers && m in ss[k + 1].readers
    ensures m.txid in ss[k].snaps && m.txid in ss[k + 1].snaps && ss[k + 1].snaps[m.txid] == ss[k].snaps[m.txid]
  {
    RunSafe(ss, es, leaf, k);
    assert StepAt(ss, es, k);
    HistoryKept(ss[k], es[k], m);
  }

  lemma {:induction false} SeenAt(ss: seq<State>, es: seq<Event>, leaf: int, k: nat, m: Meta)
    requires Execution(ss, es, leaf) && k < |ss| && m in ss[k].readers
    ensures Sees(ss[k], m)
  {
    RunSafe(ss, es, leaf, k);
    ReaderSees(ss[k], m);
  }

  /** Snapshot isolation over any stretch of a run in which a reader stays open. */
  lemma {:induction false} SnapshotStable(ss: seq<State>, es: seq<Event>, leaf: int, i: nat, j: nat, m: Meta)
    requires Execution(ss, es, leaf) && i <= j < |ss| && forall k :: i <= k <= j ==> m in ss[k].readers
    ensures Sees(ss[i], m) && Sees(ss[j], m) && ss[j].snaps[m.txid] == ss[i].snaps[m.txid]
    decreases j
  {
    SeenAt(ss, es, leaf, i, m);
    SeenAt(ss, es, leaf, j, m);
    if i < j {
      SnapshotStable(ss, es, leaf, i, j - 1, m);
      HistoryStep(ss, es, leaf, j - 1, m);
    }
  }

  /** In every run, what the writer is given, for a node or for its freelist, is disjoint from all that
      anyone can see. */
  lemma {:induction false} RunNeverHandsOut(ss: seq<State>, es: seq<Event>, leaf: int, i: nat, m: Meta)
    requires Execution(ss, es, leaf) && i < |es| && (es[i].AllocateNode? || es[i].StartCommit?) && ss[i].writer.Some?
    requires m in ss[i].readers || (Readable(ss[i].disk) && m == Durable(ss[i]))
    ensures m.txid in ss[i].snaps
    ensures Run(Start(ss[i].writer.value, es[i].p), es[i].n) !! ss[i].snaps[m.txid].pages.Keys
  {
    RunSafe(ss, es, leaf, i);
    assert StepAt(ss, es, i);
    NeverHandedOut(ss[i], es[i].n, es[i].p, m);
  }

  // ---- no page is lost ----

  /** Every page below top is in use, free or pending. */
  ghost predicate All(live: set<Pgid>, spare: set<Pgid>, top: Pgid)
  {
    forall x :: 2 <= x < top ==> x in live || x in spare
  }

  ghost predicate CoversIdle(s: State)
    requires Readable(s.disk) && Durable(s).txid in s.snaps
  {
    All(InUse(s, Durable(s)), s.free + PendingIds(s.pending), Durable(s).pgid)
  }

  ghost predicate Covers(s: State)
    requires Inv(s)
  {
    match s.writer
    case None => CoversIdle(s)
    case Some(w) =>
      if w.phase != MetaWritten then CoversIdle(Base(s)) else (
        && CoversIdle(Committed(s))
        && All(InUse(s, Durable(s)), Elems(Ids(s.snaps[Durable(s).txid])), Durable(s).pgid))
  }

  /** The step reads back a stored freelist that overflows its count, and misses the largest id: a
      rollback only if that page was free and not pending. */
  ghost predicate Loses(s: State, e: Event)
  {
    match e
    case Abort =>
      && s.writer.Some? && Known(s, s.disk)
      && var ids := Ids(s.snaps[Durable(s).txid]);
         |ids| >= 0xFFFF && Largest(ids) in s.writer.value.free0
    case Crash(disk) => Known(s, disk) && |Ids(s.snaps[DbMeta(disk).txid])| >= 0xFFFF
    case _ => false
  }

  /** A page is neither in use nor free nor pending and, while a version is being published, neither in
      the version before nor in what reading its freelist gives. */
  ghost predicate Lost(s: State)
    requires Inv(s)
  {
    match s.writer
    case None => !CoversIdle(s)
    case Some(w) =>
      if w.phase != MetaWritten then !CoversIdle(Base(s)) else (
        && !CoversIdle(Committed(s))
        && !All(InUse(s, Durable(s)), ReadList(Ids(s.snaps[Durable(s).txid])), Durable(s).pgid))
  }

  /** The pages the writer is about to publish, and the lists, cover all there is. */
  lemma {:induction false} PublishCovers(s: State, w: Writer, d: Meta)
    requires s.writer == Some(w) && d.txid in s.snaps && Working(s, w, d)
    requires All(InUse(s, d), w.free0 + PendingIds(w.pending0), d.pgid)
    ensures All(Live(w), s.free + PendingIds(s.pending), w.meta.pgid)
  {
    PendingParts(s.pending, w.meta.txid);
    forall x | 2 <= x < w.meta.pgid ensures x in Live(w) || x in s.free + PendingIds(s.pending) {
      if x in InUse(s, d) + w.pages.Keys {
        assert x in Live(w) + FreedBy(s.pending, w.meta.txid);
      } else {
        assert x < d.pgid;
      }
    }
  }

  lemma {:induction false} CoversAfterPublish(s: State)
    requires Inv(s) && InPhase(s, PagesSynced) && Covers(s)
    ensures Inv(WriteMeta(s)) && Covers(WriteMeta(s))
  {
    var w, d := s.writer.value, Durable(s);
    WriteMetaKeeps(s);
    PublishedWhole(s);
    PublishCovers(s, w, d);
  }

  /** A version whose pages and stored ids cover all there is: what is read back covers it too exactly
      if the stored list does not overflow its count. */
  lemma {:induction false} ReadCovers(sn: Snapshot)
    requires SnapOk(sn) && All(sn.pages.Keys, Elems(Ids(sn)), sn.meta.pgid)
    ensures All(sn.pages.Keys, ReadList(Ids(sn)), sn.meta.pgid) <==> |Ids(sn)| < 0xFFFF
  {
    var ids := Ids(sn);
    ReadListIs(ids);
    if |ids| >= 0xFFFF {
      assert Largest(ids) in ids;
      assert Largest(ids) !in ReadList(ids);
    }
  }

  lemma {:induction false} CoversAfterCrash(s: State, disk: Disk)
    requires Inv(s) && Survives(s, disk) && Covers(s) && Known(s, disk)
    ensures Inv(Reopened(s, disk))
    ensures Covers(Reopened(s, disk)) <==> |Ids(s.snaps[DbMeta(disk).txid])| < 0xFFFF
  {
    CrashAtomic(s, disk);
    assert Reopened(s, disk).pending == map[];
    ReadCovers(s.snaps[DbMeta(disk).txid]);
  }

  lemma {:induction false} CoversAfterAbort(s: State)
    requires Inv(s) && s.writer.Some? && s.writer.value.phase != MetaWritten && Covers(s)
    ensures Inv(Rollback(s)) && (Covers(Rollback(s)) <==> !Loses(s, Abort))
  {
    RollbackKeeps(s);
    RollbackRestores(s);
    ReadListIs(Ids(s.snaps[Durable(s).txid]));
    if Loses(s, Abort) {
      assert Largest(Ids(s.snaps[Durable(s).txid])) !in Rollback(s).free + PendingIds(Rollback(s).pending);
    }
  }

  lemma {:induction false} CoversAfterBegin(s: State)
    requires Inv(s) && s.writer == None && Covers(s)
    ensures Defined(s, OpenWriter) && Inv(BeginWrite(s)) && Covers(BeginWrite(s))
  {
    BeginWriteKeeps(s);
    BeginReadIdle(s);
    ReleasedIds(s.pending, MinId(s.readers) - 1);
  }

  /** The other steps of a writer change neither the version it started from nor its lists then. */
  lemma {:induction false} CoversWriting(s: State, e: Event)
    requires Inv(s) && Guard(s, e) && Defined(s, e) && Covers(s)
    requires e.FreeNode? || e.AllocateNode? || e.StartCommit? || e.WriteOut? || e.Sync?
    ensures Inv(Apply(s, e)) && Covers(Apply(s, e))
  {
    ApplyKeeps(s, e);
    SyncIdle(Base(s));
  }

  lemma {:induction false} CoversOther(s: State, e: Event)
    requires Inv(s) && Guard(s, e) && Defined(s, e) && Covers(s)
    requires e.OpenReader? || e.EndReader? || e.FinishCommit?
    ensures Inv(Apply(s, e)) && Covers(Apply(s, e))
  {
    ApplyKeeps(s, e);
  }

  /** A step loses a page exactly if it reads back a list that overflows its count and misses a page. */
  lemma {:induction false} CoversKeeps(s: State, e: Event)
    requires Inv(s) && Guard(s, e) && Defined(s, e) && Covers(s)
    ensures Inv(Apply(s, e)) && (Covers(Apply(s, e)) <==> !Loses(s, e))
  {
    if e.OpenWriter? {
      CoversAfterBegin(s);
    } else if e.PublishMeta? {
      CoversAfterPublish(s);
    } else if e.Crash? {
      CoversAfterCrash(s, e.disk);
    } else if e.Abort? {
      CoversAfterAbort(s);
    } else if e.OpenReader? || e.EndReader? || e.FinishCommit? {
      CoversOther(s, e);
    } else {
      CoversWriting(s, e);
    }
  }

  // ---- a page that was lost stays lost ----

  /** A page that is missing when a writer begins is missing from all that it leaves. */
  lemma {:induction false} LostPage(s: State, w: Writer, d: Meta)
    requires s.writer == Some(w) && d.txid in s.snaps && Working(s, w, d)
    requires !All(InUse(s, d), w.free0 + PendingIds(w.pending0), d.pgid)
    ensures !All(Live(w), s.free + PendingIds(s.pending), w.meta.pgid)
  {
    PendingParts(s.pending, w.meta.txid);
    var x :| 2 <= x < d.pgid && x !in InUse(s, d) && x !in w.free0 + PendingIds(w.pending0);
    assert x !in w.pages;
    assert x !in Live(w) + FreedBy(s.pending, w.meta.txid);
  }

  lemma {:induction false} LostPublishing(s: State)
    requires Inv(s) && InPhase(s, PagesSynced) && Lost(s)
    ensures Inv(WriteMeta(s)) && Lost(WriteMeta(s))
  {
    var w, d := s.writer.value, Durable(s);
    WriteMetaKeeps(s);
    PublishedWhole(s);
    LostPage(s, w, d);
  }

  lemma {:induction false} LostCrash(s: State, disk: Disk)
    requires Inv(s) && Survives(s, disk) && Lost(s) && Known(s, disk)
    ensures Inv(Reopened(s, disk)) && Lost(Reopened(s, disk))
  {
    CrashAtomic(s, disk);
    assert PendingIds(Reopened(s, disk).pending) == {};
  }

  lemma {:induction false} LostAbort(s: State)
    requires Inv(s) && s.writer.Some? && s.writer.value.phase != MetaWritten && Lost(s)
    ensures Inv(Rollback(s)) && Lost(Rollback(s))
  {
    RollbackKeeps(s);
    assert Rollback(s).pending == s.writer.value.pending0;
  }

  lemma {:induction false} LostBegin(s: State)
    requires Inv(s) && s.writer == None && Lost(s)
    ensures Defined(s, OpenWriter) && Inv(BeginWrite(s)) && Lost(BeginWrite(s))
  {
    BeginWriteKeeps(s);
    BeginReadIdle(s);
    ReleasedIds(s.pending, MinId(s.readers) - 1);
  }

  lemma {:induction false} LostWriting(s: State, e: Event)
    requires Inv(s) && Guard(s, e) && Defined(s, e) && Lost(s)
    requires e.FreeNode? || e.AllocateNode? || e.StartCommit? || e.WriteOut? || e.Sync?
    ensures Inv(Apply(s, e)) && Lost(Apply(s, e))
  {
    ApplyKeeps(s, e);
    SyncIdle(Base(s));
  }

  lemma {:induction false} LostOther(s: State, e: Event)
    requires Inv(s) && Guard(s, e) && Defined(s, e) && Lost(s)
    requires e.OpenReader? || e.EndReader? || e.FinishCommit?
    ensures Inv(Apply(s, e)) && Lost(Apply(s, e))
  {
    ApplyKeeps(s, e);
  }

  lemma {:induction false} LostKeeps(s: State, e: Event)
    requires Inv(s) && Guard(s, e) && Defined(s, e) && Lost(s)
    ensures Inv(Apply(s, e)) && Lost(Apply(s, e))
  {
    if e.OpenWriter? {
      LostBegin(s);
    } else if e.PublishMeta? {
      LostPublishing(s);
    } else if e.Crash? {
      LostCrash(s, e.disk);
    } else if e.Abort? {
      LostAbort(s);
    } else if e.OpenReader? || e.EndReader? || e.FinishCommit? {
      LostOther(s, e);
    } else {
      LostWriting(s, e);
    }
  }

  ghost predicate LosesAt(ss: seq<State>, es: seq<Event>, k: nat)
    requires k < |ss| && k < |es|
  {
    Loses(ss[k], es[k])
  }

  /** None of the first n steps loses a page. */
  ghost predicate NoLoss(ss: seq<State>, es: seq<Event>, n: nat)
    requires n <= |ss| && n <= |es|
  {
    forall k {:trigger LosesAt(ss, es, k)} :: 0 <= k < n ==> !LosesAt(ss, es, k)
  }

  /** All pages are accounted for, or one is lost for good. */
  ghost predicate Account(s: State, covered: bool)
  {
    forall x {:trigger Peek(x)} :: Peek(x) ==> Inv(s) && if covered then Covers(s) else Lost(s)
  }

  lemma {:induction false} AccountStep(s: State, e: Event, s': State, covered: bool)
    requires Account(s, covered) && Next(s, e, s')
    ensures Account(s', covered && !Loses(s, e))
  {
    assert Peek(0);
    if covered {
      CoversKeeps(s, e);
    } else {
      LostKeeps(s, e);
    }
  }

  lemma {:induction false} AccountNext(ss: seq<State>, es: seq<Event>, n: nat)
    requires n < |es| && n + 1 < |ss| && StepAt(ss, es, n) && Account(ss[n], NoLoss(ss, es, n))
    ensures Account(ss[n + 1], NoLoss(ss, es, n + 1))
  {
    AccountStep(ss[n], es[n], ss[n + 1], NoLoss(ss, es, n));
    NoLossNext(ss, es, n);
  }

  lemma {:induction false} RunAccount(ss: seq<State>, es: seq<Event>, leaf: int, i: nat)
    requires Execution(ss, es, leaf) && i < |ss|
    ensures Account(ss[i], NoLoss(ss, es, i))
  {
    if i == 0 {
      InitialInv(leaf);
    } else {
      RunAccount(ss, es, leaf, i - 1);
      assert StepAt(ss, es, i - 1);
      AccountNext(ss, es, i - 1);
    }
  }

  lemma {:induction false} NoLossNext(ss: seq<State>, es: seq<Event>, n: nat)
    requires n < |ss| && n < |es|
    ensures NoLoss(ss, es, n + 1) <==> NoLoss(ss, es, n) && !Loses(ss[n], es[n])
  {
    assert LosesAt(ss, es, n) <==> Loses(ss[n], es[n]);
  }

  /** In every run, every page is accounted for exactly as long as no step has read back an overflowing
      list that misses one. */
  lemma {:induction false} RunCovers(ss: seq<State>, es: seq<Event>, leaf: int, i: nat)
    requires Execution(ss, es, leaf) && i < |ss|
    ensures Inv(ss[i]) && (Covers(ss[i]) <==> NoLoss(ss, es, i))
  {
    RunAccount(ss, es, leaf, i);
    assert Peek(0);
  }
}
