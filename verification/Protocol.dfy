/** Snapshots, the freelist and the two meta pages as a state machine: readers pin snapshots, one
    writer frees and allocates pages, commits or rolls back, and the machine may crash at any point. */
module Protocol {
  import opened Options
  import opened Pgids
  import Freelists

  datatype Meta = Meta(txid: Txid, root: Pgid, freelist: Pgid, pgid: Pgid)

  /** What one page of the file holds. A torn meta page fails its validation. */
  datatype Block = Data(bytes: int) | List(ids: seq<Pgid>, overflow: nat) | MetaPage(meta: Meta, valid: bool)

  type Disk = map<Pgid, Block>
  type Lists = map<Txid, set<Pgid>>

  /** The pages of a tree, each with the number of its overflow pages. */
  type Pages = map<Pgid, nat>

  /** A committed version: its tree, its freelist page, and the contents of all their pages. */
  datatype Snapshot = Snapshot(meta: Meta, tree: Pages, overflow: nat, pages: Disk)

  datatype Phase = Open | Listed | PagesSynced | MetaWritten

  /** A write transaction: its own meta, the pages of its tree and freelist, the buffers of the
      pages it allocated, and the free and pending pages just after it began. */
  datatype Writer = Writer(meta: Meta, tree: Pages, overflow: nat, pages: Disk, phase: Phase,
                           free0: set<Pgid>, pending0: Lists)

  /** disk survives a crash; cached was written but not synced. snaps is the history of versions. */
  datatype State = State(disk: Disk, cached: Disk, free: set<Pgid>, pending: Lists, readers: seq<Meta>,
                         writer: Option<Writer>, snaps: map<Txid, Snapshot>)

  const NO_READER := 0xFFFF_FFFF_FFFF_FFFF

  // ---- meta pages ----

  ghost predicate Readable(d: Disk)
  {
    0 in d && 1 in d && d[0].MetaPage? && d[1].MetaPage? && (d[0].valid || d[1].valid)
  }

  /** db.meta: the valid meta page with the higher transaction id. */
  ghost function DbMeta(d: Disk): Meta
    requires Readable(d)
  {
    var (a, b) := if d[1].meta.txid > d[0].meta.txid then (d[1], d[0]) else (d[0], d[1]);
    if a.valid then a.meta else b.meta
  }

  /** m is in the slot for its transaction id, and nothing valid is as recent. */
  ghost predicate CurrentIn(d: Disk, m: Meta)
  {
    && 0 in d && 1 in d && d[0].MetaPage? && d[1].MetaPage?
    && d[m.txid % 2] == MetaPage(m, true)
    && (d[1 - m.txid % 2].valid ==> d[1 - m.txid % 2].meta.txid < m.txid)
  }

  /** Whatever transaction id a torn meta page shows, db.meta falls back to the other one. */
  lemma {:induction false} CurrentIs(d: Disk, m: Meta)
    requires CurrentIn(d, m)
    ensures Readable(d) && DbMeta(d) == m
  {
  }

  // ---- pages of trees and lists ----

  ghost function PageRun(tree: Pages, p: Pgid): set<Pgid>
    requires p in tree
  {
    Run(p, tree[p] + 1)
  }

  ghost function Span(tree: Pages): set<Pgid>
  {
    set p, x | p in tree && x in PageRun(tree, p) :: x
  }

  ghost predicate Separate(tree: Pages, p: Pgid, q: Pgid)
    requires p in tree && q in tree
  {
    p != q ==> PageRun(tree, p) !! PageRun(tree, q)
  }

  ghost predicate Apart(tree: Pages)
  {
    forall p, q {:trigger Separate(tree, p, q)} :: p in tree && q in tree ==> Separate(tree, p, q)
  }

  ghost function PendingIds(pending: Lists): set<Pgid>
  {
    set t, x | t in pending && x in pending[t] :: x
  }

  ghost predicate ListsApart(pending: Lists)
  {
    forall t, u :: t in pending && u in pending && t != u ==> pending[t] !! pending[u]
  }

  /** The pages freed by transactions after t. */
  ghost function Later(pending: Lists, t: int): set<Pgid>
  {
    set u, x | u in pending && u > t && x in pending[u] :: x
  }

  ghost function UpTo(pending: Lists, t: int): set<Pgid>
  {
    set u, x | u in pending && u <= t && x in pending[u] :: x
  }

  ghost function After(pending: Lists, t: int): Lists
  {
    map u | u in pending && u > t :: pending[u]
  }

  /** The pages that reading a stored freelist gives. */
  ghost function ReadList(ids: seq<Pgid>): set<Pgid>
  {
    Elems(Freelists.ReadBack(ids))
  }

  /** The pages of a version are those of its tree and its freelist. */
  ghost predicate SnapOk(sn: Snapshot)
  {
    && sn.meta.root in sn.tree && Apart(sn.tree) && Span(sn.tree) !! Run(sn.meta.freelist, sn.overflow + 1)
    && sn.pages.Keys == Span(sn.tree) + Run(sn.meta.freelist, sn.overflow + 1)
    && sn.meta.freelist in sn.pages
    && sn.pages[sn.meta.freelist].List? && sn.pages[sn.meta.freelist].overflow == sn.overflow
    && Ascending(sn.pages[sn.meta.freelist].ids)
      && ListsOthers(sn.pages[sn.meta.freelist].ids, sn.pages.Keys, sn.meta.pgid)
  }

  /** The stored ids are of pages below the high-water mark that the version does not use. */
  ghost predicate ListsOthers(ids: seq<Pgid>, live: set<Pgid>, top: Pgid)
  {
    forall x :: x in ids ==> 2 <= x < top && x !in live
  }

  /** The ids its freelist page stores. */
  ghost function Ids(sn: Snapshot): seq<Pgid>
    requires SnapOk(sn)
  {
    sn.pages[sn.meta.freelist].ids
  }

  /** Every page of the version is on disk, and no write to it is under way. */
  ghost predicate OnDisk(disk: Disk, cached: Disk, sn: Snapshot)
  {
    forall x :: x in sn.pages ==> x !in cached && x in disk && disk[x] == sn.pages[x]
  }

  // ---- the invariant between write transactions ----

  ghost function Durable(s: State): Meta
    requires Readable(s.disk)
  {
    DbMeta(s.disk)
  }

  ghost function InUse(s: State, d: Meta): set<Pgid>
    requires d.txid in s.snaps
  {
    s.snaps[d.txid].pages.Keys
  }

  /** Pages in use, free and pending are apart, and below the high-water mark. */
  ghost predicate SpaceOk(live: set<Pgid>, free: set<Pgid>, pending: Lists, top: Pgid)
  {
    && 2 <= top && live !! free && live !! PendingIds(pending) && free !! PendingIds(pending) && ListsApart(pending)
    && forall x :: x in live || x in free || x in PendingIds(pending) ==> 2 <= x < top
  }

  /** A reader of version t sees only pages that are still in use or were freed after t. */
  ghost predicate Pinned(s: State, live: set<Pgid>, m: Meta)
  {
    && m.txid in s.snaps && s.snaps[m.txid].meta == m
    && s.snaps[m.txid].pages.Keys <= live + Later(s.pending, m.txid)
    && OnDisk(s.disk, s.cached, s.snaps[m.txid])
  }

  ghost predicate Idle(s: State)
  {
    && Readable(s.disk) && CurrentIn(s.disk, Durable(s)) && 0 !in s.cached && 1 !in s.cached
    && IdleAt(s, Durable(s))
  }

  ghost predicate IdleAt(s: State, d: Meta)
  {
    && d.txid in s.snaps && s.snaps[d.txid].meta == d && SnapOk(s.snaps[d.txid])
    && OnDisk(s.disk, s.cached, s.snaps[d.txid])
    && SpaceOk(InUse(s, d), s.free, s.pending, d.pgid)
    && (forall u :: u in s.pending ==> u <= d.txid)
    && (forall m :: m in s.readers ==> m.txid <= d.txid && Pinned(s, InUse(s, d), m))
    && ReadList(Ids(s.snaps[d.txid])) <= s.free + PendingIds(s.pending) <= Elems(Ids(s.snaps[d.txid]))
  }

  // ---- the invariant during a write transaction ----

  /** The state as it was when the writer began, but for what happened outside of it. */
  ghost function Base(s: State): State
    requires s.writer.Some?
  {
    s.(writer := None, free := s.writer.value.free0, pending := s.writer.value.pending0)
  }

  ghost function Live(w: Writer): set<Pgid>
  {
    Span(w.tree) + Run(w.meta.freelist, w.overflow + 1)
  }

  ghost function FreedBy(pending: Lists, t: Txid): set<Pgid>
  {
    if t in pending then pending[t] else {}
  }

  /** The lists of a writer that started from version d: it only takes from the free pages, and
      only adds to its own pending list. */
  ghost predicate OwnLists(s: State, w: Writer, d: Meta)
  {
    && w.meta.txid == d.txid + 1 && d.pgid <= w.meta.pgid && s.free <= w.free0
    && w.meta.txid !in w.pending0 && s.pending - {w.meta.txid} == w.pending0
  }

  /** The pages it allocated were free or did not exist. */
  ghost predicate OwnPages(s: State, w: Writer, d: Meta)
  {
    forall x :: x in w.pages <==> (x in w.free0 && x !in s.free) || d.pgid <= x < w.meta.pgid
  }

  /** Its tree and freelist, and what it freed, are what version d used and what it allocated. */
  ghost predicate OwnTree(s: State, w: Writer, d: Meta)
    requires d.txid in s.snaps
  {
    && Apart(w.tree) && Span(w.tree) !! Run(w.meta.freelist, w.overflow + 1)
    && Live(w) !! FreedBy(s.pending, w.meta.txid)
    && Live(w) + FreedBy(s.pending, w.meta.txid) == InUse(s, d) + w.pages.Keys
  }

  ghost predicate Working(s: State, w: Writer, d: Meta)
    requires d.txid in s.snaps
  {
    OwnLists(s, w, d) && OwnPages(s, w, d) && OwnTree(s, w, d)
  }

  /** Once the new freelist is built the transaction frees and allocates no more. */
  ghost predicate Prepared(s: State, w: Writer)
  {
    && w.meta.root in w.tree && w.meta.freelist in w.pages
    && w.pages[w.meta.freelist].List? && w.pages[w.meta.freelist].overflow == w.overflow
    && Ascending(w.pages[w.meta.freelist].ids)
    && Elems(w.pages[w.meta.freelist].ids) == s.free + PendingIds(s.pending)
  }

  /** The version the writer is about to publish. */
  ghost function Published(s: State, w: Writer): Snapshot
  {
    Snapshot(w.meta, w.tree, w.overflow, map x | x in Live(w) && x in s.disk :: s.disk[x])
  }

  /** The state once the meta page that was written is synced. */
  ghost function Committed(s: State): State
  {
    s.(disk := s.disk + s.cached, cached := map[], writer := None)
  }

  /** The state if the machine stops and the disk holds d after it: all lists come from d. */
  ghost function Reopened(s: State, d: Disk): State
    requires Readable(d) && DbMeta(d).txid in s.snaps && SnapOk(s.snaps[DbMeta(d).txid])
  {
    s.(disk := d, cached := map[], free := ReadList(Ids(s.snaps[DbMeta(d).txid])), pending := map[], readers := [],
       writer := None)
  }

  /** The meta page is written, not synced: the disk holds the old version, the view the new one. */
  ghost predicate Publishing(s: State, w: Writer)
  {
    && Idle(Committed(s)) && Durable(Committed(s)) == w.meta
    && s.cached == map[w.meta.txid % 2 := MetaPage(w.meta, true)]
    && Readable(s.disk) && CurrentIn(s.disk, Durable(s)) && Durable(s).txid + 1 == w.meta.txid
    && Durable(s).txid in s.snaps && SnapOk(s.snaps[Durable(s).txid]) && Idle(Reopened(s, s.disk))
  }

  /** Everything the writer allocated is synced. */
  ghost predicate Flushed(s: State, w: Writer)
  {
    s.cached == map[] && forall x :: x in w.pages ==> x in s.disk && s.disk[x] == w.pages[x]
  }

  ghost predicate Writing(s: State, w: Writer)
    requires s.writer.Some?
  {
    && Idle(Base(s)) && Working(s, w, Durable(s))
    && (w.phase != Open ==> Prepared(s, w)) && (w.phase == PagesSynced ==> Flushed(s, w))
  }

  /** The invariant of the protocol. */
  ghost predicate Inv(s: State)
  {
    match s.writer
    case None => Idle(s)
    case Some(w) => if w.phase == MetaWritten then Publishing(s, w) else Writing(s, w)
  }

  // ---- the steps ----

  /** beginTx. */
  ghost function BeginRead(s: State): State
    requires Readable(s.disk + s.cached)
  {
    s.(readers := s.readers + [DbMeta(s.disk + s.cached)])
  }

  ghost function MinId(readers: seq<Meta>): Txid
  {
    if readers == [] then NO_READER
    else if readers[|readers| - 1].txid < MinId(readers[..|readers| - 1]) then readers[|readers| - 1].txid
    else MinId(readers[..|readers| - 1])
  }

  /** No open reader can see what transaction u freed: each of them began after it. */
  ghost predicate Unseen(u: Txid, readers: seq<Meta>)
  {
    u < 0xFFFF_FFFF_FFFF_FFFF && forall m :: m in readers ==> u < m.txid
  }

  /** beginRWTx: what was freed before the oldest reader began becomes available. */
  ghost function BeginWrite(s: State): State
    requires Readable(s.disk + s.cached) && DbMeta(s.disk + s.cached).txid in s.snaps
  {
    var m := DbMeta(s.disk + s.cached);
    var sn := s.snaps[m.txid];
    var low := MinId(s.readers) - 1;
    var free', pending' := s.free + UpTo(s.pending, low), After(s.pending, low);
    s.(free := free', pending := pending',
       writer := Some(Writer(m.(txid := m.txid + 1), sn.tree, sn.overflow, map[], Open, free', pending')))
  }

  ghost predicate InPhase(s: State, p: Phase)
  {
    s.writer.Some? && s.writer.value.phase == p
  }

  ghost function AddPending(pending: Lists, t: Txid, run: set<Pgid>): Lists
  {
    pending[t := FreedBy(pending, t) + run]
  }

  /** The writer frees page p of its tree, with its overflow pages. */
  ghost function FreePage(s: State, p: Pgid): State
    requires InPhase(s, Open) && p in s.writer.value.tree
  {
    var w := s.writer.value;
    s.(pending := AddPending(s.pending, w.meta.txid, Run(p, w.tree[p] + 1)),
       writer := Some(w.(tree := w.tree - {p})))
  }

  /** What freelist.allocate returns: the lowest run of n free pages, or 0 if there is none. */
  ghost predicate FirstRun(free: set<Pgid>, n: nat, p: Pgid)
  {
    if p == 0 then forall q :: !(Run(q, n) <= free)
    else Run(p, n) <= free && forall q :: Run(q, n) <= free ==> p <= q
  }

  /** db.allocate: n pages from the freelist at p or, if p is 0, beyond the high-water mark. */
  ghost function Start(w: Writer, p: Pgid): Pgid
  {
    if p != 0 then p else w.meta.pgid
  }

  /** The buffers of the pages from q on. */
  function Buffers(q: Pgid, blocks: seq<Block>): (r: Disk)
    ensures r.Keys == Run(q, |blocks|)
  {
    map x | x in Run(q, |blocks|) :: blocks[x - q]
  }

  ghost function Allocate(s: State, n: nat, p: Pgid, blocks: seq<Block>): State
    requires s.writer.Some? && |blocks| == n
  {
    var w := s.writer.value;
    var q := Start(w, p);
    s.(free := s.free - Run(q, n),
       writer := Some(w.(meta := w.meta.(pgid := if p != 0 then w.meta.pgid else w.meta.pgid + n),
                         pages := w.pages + Buffers(q, blocks))))
  }

  /** The writer allocates n pages for a node and writes it to their buffer. */
  ghost function AllocatePage(s: State, n: nat, p: Pgid, blocks: seq<Block>): State
    requires InPhase(s, Open) && n > 0 && |blocks| == n
  {
    var t := Allocate(s, n, p, blocks);
    var w := t.writer.value;
    t.(writer := Some(w.(tree := w.tree[Start(s.writer.value, p) := n - 1])))
  }

  /** Commit frees the old freelist... */
  ghost function FreeList(s: State): State
    requires InPhase(s, Open)
  {
    var w := s.writer.value;
    s.(pending := AddPending(s.pending, w.meta.txid, Run(w.meta.freelist, w.overflow + 1)))
  }

  /** ...and builds a new one on n newly allocated pages: the ids that are free or pending then. */
  ghost function BuildList(s: State, n: nat, p: Pgid, ids: seq<Pgid>, rest: seq<Block>, root: Pgid): State
    requires InPhase(s, Open) && n > 0 && |rest| == n - 1
  {
    var f := FreeList(s);
    var t := Allocate(f, n, p, [List(ids, n - 1)] + rest);
    var w := t.writer.value;
    t.(writer := Some(w.(meta := w.meta.(freelist := Start(f.writer.value, p), root := root), overflow := n - 1,
                         phase := Listed)))
  }

  /** What freelist.write stores. */
  ghost predicate ListOf(s: State, n: nat, p: Pgid, ids: seq<Pgid>)
    requires InPhase(s, Open)
  {
    var f := FreeList(s);
    Ascending(ids) && Elems(ids) == f.free - Run(Start(f.writer.value, p), n) + PendingIds(f.pending)
  }

  /** One page of a dirty buffer is written, but not synced. */
  ghost function WritePage(s: State, x: Pgid): State
    requires InPhase(s, Listed) && x in s.writer.value.pages
  {
    s.(cached := s.cached[x := s.writer.value.pages[x]])
  }

  ghost predicate AllWritten(s: State)
    requires InPhase(s, Listed)
  {
    forall x :: x in s.writer.value.pages ==> x in s.cached && s.cached[x] == s.writer.value.pages[x]
  }

  /** fdatasync after all pages are written. */
  ghost function SyncPages(s: State): State
    requires InPhase(s, Listed)
  {
    s.(disk := s.disk + s.cached, cached := map[], writer := Some(s.writer.value.(phase := PagesSynced)))
  }

  /** The meta page is written to its slot; from here on readers see the new version. */
  ghost function WriteMeta(s: State): State
    requires InPhase(s, PagesSynced)
  {
    var w := s.writer.value;
    s.(cached := s.cached[w.meta.txid % 2 := MetaPage(w.meta, true)], writer := Some(w.(phase := MetaWritten)),
       snaps := s.snaps[w.meta.txid := Published(s, w)])
  }

  /** The meta page is synced and the transaction is over. */
  ghost function SyncMeta(s: State): State
    requires InPhase(s, MetaWritten)
  {
    Committed(s)
  }

  /** rollback before the meta page is written: the lists are rebuilt from the stored freelist. */
  ghost function Rollback(s: State): State
    requires s.writer.Some? && s.writer.value.phase != MetaWritten && Readable(s.disk)
    requires Durable(s).txid in s.snaps && SnapOk(s.snaps[Durable(s).txid])
  {
    var pending' := s.pending - {s.writer.value.meta.txid};
    s.(free := ReadList(Ids(s.snaps[Durable(s).txid])) - PendingIds(pending'), pending := pending', writer := None)
  }

  /** removeTx. */
  ghost function CloseReader(s: State, i: nat): State
    requires i < |s.readers|
  {
    s.(readers := s.readers[i := s.readers[|s.readers| - 1]][..|s.readers| - 1])
  }

  /** What a disk may hold after a crash: pages that were synced and not written since are as they
      were, any other may hold anything, except that a meta page is old, new or fails validation. */
  ghost predicate Survives(s: State, d: Disk)
  {
    && (forall x :: x !in s.cached ==> (x in d <==> x in s.disk) && (x in d ==> d[x] == s.disk[x]))
    && (forall x :: x in s.cached && x < 2 ==>
      x in d && (d[x] == s.cached[x] || (x in s.disk && d[x] == s.disk[x]) || (d[x].MetaPage? && !d[x].valid)))
  }
}
