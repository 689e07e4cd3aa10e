/** The pages of a file while a bucket is spilled: which are taken, which are freed, and for what. */
module Accounts {
  import opened Pgids
  import opened Levels
  import opened Arena
  import Splits

  /** The pages of the nodes of a tree, all pages that may not be handed out, those handed to the freelist,
      and what the pages hold. */
  datatype Books = Books(tree: set<Pgid>, used: set<Pgid>, freed: set<Pgid>, pages: Pages)

  /** Mentioning Audit() is what unfolds TakenBy, IsCount and Moved; elsewhere they stay single facts. */
  ghost predicate Audit(x: int) { true }

  ghost predicate InOrder(b: Books)
  {
    b.tree <= b.used && b.freed <= b.used && b.tree !! b.freed && 0 !in b.tree && 0 !in b.freed
  }

  /** No page in use is written to. */
  ghost predicate Untouched(pages: Pages, pages': Pages, used: set<Pgid>)
  {
    forall id {:trigger pages'[id]} {:trigger id in pages'} :: id in used ==>
      (id in pages' <==> id in pages) && (id in pages ==> pages'[id] == pages[id])
  }

  /** Every page that was written holds a node that fits a page, or one of at most four entries. */
  ghost predicate FitNew(pages: Pages, pages': Pages, pageSize: nat)
  {
    forall id {:trigger pages'[id]} {:trigger id in pages'} :: id in pages' ==>
      (id in pages && pages'[id] == pages[id]) || Splits.OnePage(pages'[id].inodes, pageSize)
  }

  ghost predicate IsCount(xs: seq<Inode>, pageSize: nat, n: nat)
    requires pageSize > 0
  {
    forall y {:trigger Audit(y)} :: Audit(y) ==> n == Splits.SizeOf(xs) / pageSize + 1
  }

  /** How many pages a node with these entries takes. */
  ghost function PageCount(xs: seq<Inode>, pageSize: nat): nat
    requires pageSize > 0
  {
    assert IsCount(xs, pageSize, Splits.SizeOf(xs) / pageSize + 1);
    var n: nat :| IsCount(xs, pageSize, n);
    n
  }

  lemma {:induction false} PageCountIs(xs: seq<Inode>, pageSize: nat)
    requires pageSize > 0
    ensures PageCount(xs, pageSize) == Splits.SizeOf(xs) / pageSize + 1
  {
    assert IsCount(xs, pageSize, Splits.SizeOf(xs) / pageSize + 1);
    assert IsCount(xs, pageSize, PageCount(xs, pageSize));
    assert Audit(0);
  }

  /** The pages that a node on page id takes up. */
  ghost function RunOf(id: Pgid, xs: seq<Inode>, pageSize: nat): set<Pgid>
    requires pageSize > 0
  {
    Run(id, PageCount(xs, pageSize))
  }

  ghost predicate TakenBy(x: Pgid, id: Pgid, pages: Pages, pageSize: nat)
    requires pageSize > 0
  {
    id in pages && forall y {:trigger Audit(y)} :: Audit(y) ==> x in RunOf(id, pages[id].inodes, pageSize)
  }

  /** Page x belongs to a node of the tree on a page that was not in use. */
  ghost predicate NewlyTaken(x: Pgid, used: set<Pgid>, b: Books, pageSize: nat)
    requires pageSize > 0
  {
    exists id :: id in b.tree && id !in used && TakenBy(x, id, b.pages, pageSize)
  }

  /** Every page that was taken belongs to a node that was written, and is in the tree. */
  ghost predicate NoneWasted(used: set<Pgid>, b: Books, pageSize: nat)
    requires pageSize > 0
  {
    forall x {:trigger NewlyTaken(x, used, b, pageSize)} ::
      x in b.used && x !in used ==> NewlyTaken(x, used, b, pageSize)
  }

  /** Of the pages in use the tree lost exactly those in gone, which were freed; whatever else it has was
      not in use, and nothing more was taken than that. */
  ghost predicate MovedTo(b: Books, b': Books, gone: set<Pgid>, pageSize: nat)
    requires pageSize > 0
  {
    && b.used <= b'.used && gone <= b.tree && b'.freed == b.freed + gone && b'.tree * b.used == b.tree - gone
    && Untouched(b.pages, b'.pages, b.used) && FitNew(b.pages, b'.pages, pageSize) && NoneWasted(b.used, b', pageSize)
  }

  ghost predicate Moved(b: Books, b': Books, gone: set<Pgid>, pageSize: nat)
    requires pageSize > 0
  {
    forall x {:trigger Audit(x)} :: Audit(x) ==> MovedTo(b, b', gone, pageSize)
  }

  lemma {:induction false} MovedIs(b: Books, b': Books, gone: set<Pgid>, pageSize: nat)
    requires pageSize > 0 && Moved(b, b', gone, pageSize)
    ensures MovedTo(b, b', gone, pageSize)
  {
    assert Audit(0);
  }

  lemma {:induction false} MovedNot(b: Books, pageSize: nat)
    requires pageSize > 0 && InOrder(b)
    ensures Moved(b, b, {}, pageSize)
  {
  }

  /** Two moves make one, if what the second frees was in use before the first. */
  lemma {:induction false} MovedTwice(b: Books, b1: Books, b2: Books, gone1: set<Pgid>, gone2: set<Pgid>, pageSize: nat)
    requires pageSize > 0 && InOrder(b) && InOrder(b1)
    requires Moved(b, b1, gone1, pageSize) && Moved(b1, b2, gone2, pageSize) && gone2 <= b.used
    ensures Moved(b, b2, gone1 + gone2, pageSize)
  {
    MovedIs(b, b1, gone1, pageSize);
    MovedIs(b1, b2, gone2, pageSize);
    forall x | x in gone2 ensures x in b.tree {
      assert x in b1.tree * b.used;
    }
    assert b2.freed == b.freed + (gone1 + gone2);
    forall x ensures x in b2.tree * b.used <==> x in b.tree - (gone1 + gone2) {
      assert x in b2.tree * b1.used <==> x in b1.tree - gone2;
      assert x in b1.tree * b.used <==> x in b.tree - gone1;
    }
    NoneWastedTwice(b.used, b1, b2, gone2, pageSize);
    FitTwice(b.pages, b1.pages, b2.pages, pageSize);
    UntouchedTwice(b.pages, b1.pages, b2.pages, b.used, b1.used);
  }

  lemma {:induction false} MovedAgain(b: Books, b1: Books, b2: Books, gone: set<Pgid>, pageSize: nat)
    requires pageSize > 0 && InOrder(b) && InOrder(b1) && Moved(b, b1, gone, pageSize) && Moved(b1, b2, {}, pageSize)
    ensures Moved(b, b2, gone, pageSize)
  {
    MovedTwice(b, b1, b2, gone, {}, pageSize);
    assert gone + {} == gone;
  }

  lemma {:induction false} NoneWastedTwice(used: set<Pgid>, b1: Books, b2: Books, gone: set<Pgid>, pageSize: nat)
    requires pageSize > 0 && NoneWasted(used, b1, pageSize) && NoneWasted(b1.used, b2, pageSize) && InOrder(b1)
    requires used <= b1.used && gone <= used && b2.tree * b1.used == b1.tree - gone
    requires Untouched(b1.pages, b2.pages, b1.used)
    ensures NoneWasted(used, b2, pageSize)
  {
    forall x | x in b2.used && x !in used ensures NewlyTaken(x, used, b2, pageSize) {
      if x in b1.used {
        assert NewlyTaken(x, used, b1, pageSize);
        var id :| id in b1.tree && id !in used && TakenBy(x, id, b1.pages, pageSize);
        assert id in b1.tree - gone;
        assert TakenBy(x, id, b2.pages, pageSize);
      } else {
        assert NewlyTaken(x, b1.used, b2, pageSize);
        var id :| id in b2.tree && id !in b1.used && TakenBy(x, id, b2.pages, pageSize);
      }
    }
  }

  lemma {:induction false} UntouchedTwice(p0: Pages, p1: Pages, p2: Pages, u0: set<Pgid>, u1: set<Pgid>)
    requires Untouched(p0, p1, u0) && Untouched(p1, p2, u1) && u0 <= u1
    ensures Untouched(p0, p2, u0)
  {
    forall id | id in u0 ensures (id in p2 <==> id in p0) && (id in p0 ==> p2[id] == p0[id]) {
      assert id in p1 <==> id in p0;
    }
  }

  lemma {:induction false} FitTwice(p0: Pages, p1: Pages, p2: Pages, pageSize: nat)
    requires FitNew(p0, p1, pageSize) && FitNew(p1, p2, pageSize)
    ensures FitNew(p0, p2, pageSize)
  {
    forall id | id in p2 ensures (id in p0 && p2[id] == p0[id]) || Splits.OnePage(p2[id].inodes, pageSize) {
      assert id in p1 ==> (id in p0 && p1[id] == p0[id]) || Splits.OnePage(p1[id].inodes, pageSize);
    }
  }

  // ---- the pages of the pieces of one node ----

  /** The pieces are on the pages with these ids. */
  ghost predicate OnFile(pages: Pages, ps: seq<seq<Inode>>, ids: seq<Pgid>, leaf: bool)
  {
    |ids| == |ps| && forall m :: 0 <= m < |ps| ==> ids[m] in pages && pages[ids[m]] == Page(leaf, ps[m])
  }

  lemma {:induction false} StillOnFile(pages: Pages, pages': Pages, used: set<Pgid>, ps: seq<seq<Inode>>,
                                       ids: seq<Pgid>, leaf: bool)
    requires OnFile(pages, ps, ids, leaf) && Untouched(pages, pages', used) && Elems(ids) <= used
    ensures OnFile(pages', ps, ids, leaf)
  {
    forall m | 0 <= m < |ps| ensures ids[m] in used {
      assert ids[m] in Elems(ids);
    }
  }

  lemma {:induction false} MovedOnFile(b: Books, b': Books, gone: set<Pgid>, ps: seq<seq<Inode>>, ids: seq<Pgid>,
                                       leaf: bool, pageSize: nat)
    requires pageSize > 0 && Moved(b, b', gone, pageSize) && OnFile(b.pages, ps, ids, leaf) && Elems(ids) <= b.used
    ensures OnFile(b'.pages, ps, ids, leaf)
  {
    MovedIs(b, b', gone, pageSize);
    StillOnFile(b.pages, b'.pages, b.used, ps, ids, leaf);
  }

  /** The pages that the first pieces take up. */
  ghost function RunsOf(ps: seq<seq<Inode>>, ids: seq<Pgid>, pageSize: nat): set<Pgid>
    requires |ids| <= |ps| && pageSize > 0
  {
    if ids == [] then {} else (
      var t := |ids| - 1;
      RunsOf(ps, ids[..t], pageSize) + RunOf(ids[t], ps[t], pageSize))
  }

  lemma {:induction false} RunsNext(ps: seq<seq<Inode>>, ids: seq<Pgid>, q: Pgid, pageSize: nat)
    requires |ids| < |ps| && pageSize > 0
    ensures RunsOf(ps, ids + [q], pageSize) == RunsOf(ps, ids, pageSize) + RunOf(q, ps[|ids|], pageSize)
  {
    assert (ids + [q])[..|ids|] == ids;
  }

  lemma {:induction false} TakenNext(taken: set<Pgid>, used: set<Pgid>, used': set<Pgid>, ps: seq<seq<Inode>>,
                                     ids: seq<Pgid>, q: Pgid, pageSize: nat)
    requires pageSize > 0 && |ids| < |ps| && used == taken + RunsOf(ps, ids, pageSize)
    requires used' == used + RunOf(q, ps[|ids|], pageSize)
    ensures used' == taken + RunsOf(ps, ids + [q], pageSize)
  {
    RunsNext(ps, ids, q, pageSize);
  }

  lemma {:induction false} RunsTaken(ps: seq<seq<Inode>>, ids: seq<Pgid>, n: nat, pages: Pages, leaf: bool,
                                     pageSize: nat, x: Pgid)
    requires pageSize > 0 && OnFile(pages, ps, ids, leaf) && n <= |ids| && x in RunsOf(ps, ids[..n], pageSize)
    ensures exists m :: 0 <= m < n && TakenBy(x, ids[m], pages, pageSize)
  {
    if n > 0 {
      assert ids[..n][..n - 1] == ids[..n - 1];
      if x in RunOf(ids[n - 1], ps[n - 1], pageSize) {
        assert TakenBy(x, ids[n - 1], pages, pageSize);
      } else {
        RunsTaken(ps, ids, n - 1, pages, leaf, pageSize, x);
      }
    }
  }

  /** The pieces of a node are on new pages, in place of those in gone. */
  lemma {:induction false} PiecesMoved(b: Books, b': Books, gone: set<Pgid>, ps: seq<seq<Inode>>, ids: seq<Pgid>,
                                       leaf: bool, pageSize: nat)
    requires pageSize > 0 && InOrder(b) && gone <= b.tree && Elems(ids) !! b.used && 0 in b.used
    requires OnFile(b'.pages, ps, ids, leaf) && Untouched(b.pages, b'.pages, b.used)
    requires FitNew(b.pages, b'.pages, pageSize)
    requires b'.tree == b.tree - gone + Elems(ids) && b'.used == b.used + RunsOf(ps, ids, pageSize)
    requires b'.freed == b.freed + gone && Elems(ids) <= b'.used
    ensures Moved(b, b', gone, pageSize) && InOrder(b')
  {
    forall x | x in b'.used && x !in b.used ensures NewlyTaken(x, b.used, b', pageSize) {
      assert ids[..|ids|] == ids;
      RunsTaken(ps, ids, |ids|, b'.pages, leaf, pageSize, x);
      var m :| 0 <= m < |ids| && TakenBy(x, ids[m], b'.pages, pageSize);
      assert ids[m] in Elems(ids);
    }
  }
}
