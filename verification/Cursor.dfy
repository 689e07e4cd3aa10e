/** Cursors: a stack of references to the nodes or pages from the root down, with an index into each. */
module Cursors {
  import opened Options
  import opened Bytes
  import opened Pgids
  import opened Levels
  import opened Tree
  import opened Arena
  import opened Steps
  import opened Paths
  import opened Buckets

  /** elemRef: an entry of a cached node or, if there is none, of a page. */
  datatype ElemRef = ElemRef(id: Pgid, node: Node?, index: int)

  /** The level of the d-th reference from the root. */
  ghost function Height(lv: Stack, d: nat): nat
    requires d < |lv|
  {
    |lv| - 1 - d
  }

  /** The d-th reference is to node pos[d] of its level. */
  ghost predicate HopAt(lv: Stack, refs: seq<ElemRef>, pos: seq<nat>, d: nat)
    requires d < |refs| == |pos| <= |lv|
  {
    var k := Height(lv, d);
    && pos[d] < |lv[k]| && lv[k][pos[d]].id == refs[d].id
    && (d + 1 < |refs| ==>
      0 <= refs[d].index < |lv[k][pos[d]].inodes| && pos[d + 1] == Off(lv[k], pos[d]) + refs[d].index)
  }

  /** The references lead from the root down, each to the child that the one before points to. */
  ghost predicate Path(lv: Stack, refs: seq<ElemRef>, pos: seq<nat>)
  {
    && |refs| == |pos| <= |lv| && (refs != [] ==> pos[0] == 0)
    && forall d {:trigger HopAt(lv, refs, pos, d)} :: 0 <= d < |refs| ==> HopAt(lv, refs, pos, d)
  }

  /** Going down one more step. */
  lemma {:induction false} PathDown(lv: Stack, refs: seq<ElemRef>, pos: seq<nat>, r: ElemRef)
    requires WF(lv) && Path(lv, refs, pos) && refs != [] && |refs| < |lv|
    requires var k, x := Height(lv, |refs| - 1), refs[|refs| - 1].index;
             && pos[|refs| - 1] < |lv[k]| && 0 <= x < |lv[k][pos[|refs| - 1]].inodes|
             && r.id == lv[k][pos[|refs| - 1]].inodes[x].pgid
    ensures var k := Height(lv, |refs| - 1);
            && pos[|refs| - 1] < |lv[k]|
            && Path(lv, refs + [r], pos + [Off(lv[k], pos[|refs| - 1]) + refs[|refs| - 1].index])
  {
    var d := |refs| - 1;
    var k, x := Height(lv, d), refs[d].index;
    var j := PlaceEntry(lv, k, pos[d], x);
    var refs', pos' := refs + [r], pos + [j];
    forall e | 0 <= e < |refs'| ensures HopAt(lv, refs', pos', e) {
      assert e <= d ==> HopAt(lv, refs, pos, e);
    }
  }

  lemma {:induction false} PathChild(lv: Stack, refs: seq<ElemRef>, pos: seq<nat>, r: ElemRef) returns (j: nat)
    requires WF(lv) && Path(lv, refs, pos) && refs != [] && |refs| < |lv|
    requires var k, x := Height(lv, |refs| - 1), refs[|refs| - 1].index;
             && pos[|refs| - 1] < |lv[k]| && 0 <= x < |lv[k][pos[|refs| - 1]].inodes|
             && r.id == lv[k][pos[|refs| - 1]].inodes[x].pgid
    ensures Path(lv, refs + [r], pos + [j])
    ensures j < |lv[Height(lv, |refs|)]| && lv[Height(lv, |refs|)][j].id == r.id
  {
    PathDown(lv, refs, pos, r);
    j := PlaceEntry(lv, Height(lv, |refs| - 1), pos[|refs| - 1], refs[|refs| - 1].index);
  }

  lemma {:induction false} PathUp(lv: Stack, refs: seq<ElemRef>, pos: seq<nat>, n: nat)
    requires Path(lv, refs, pos) && n <= |refs|
    ensures Path(lv, refs[..n], pos[..n])
  {
    forall d | 0 <= d < n ensures HopAt(lv, refs[..n], pos[..n], d) {
      assert HopAt(lv, refs, pos, d);
    }
  }

  /** The last reference may point to any entry. */
  lemma {:induction false} PathSet(lv: Stack, refs: seq<ElemRef>, pos: seq<nat>, r: ElemRef)
    requires Path(lv, refs, pos) && refs != [] && r.id == refs[|refs| - 1].id
    ensures Path(lv, refs[|refs| - 1 := r], pos)
  {
    var refs' := refs[|refs| - 1 := r];
    forall d | 0 <= d < |refs| ensures HopAt(lv, refs', pos, d) {
      assert HopAt(lv, refs, pos, d);
    }
  }

  lemma {:induction false} PathAny(lv: Stack, refs: seq<ElemRef>, pos: seq<nat>, r: ElemRef, r': ElemRef, j: nat)
    requires Path(lv, refs + [r], pos + [j]) && |refs| == |pos| && r.id == r'.id
    ensures Path(lv, refs + [r'], pos + [j])
  {
    PathSet(lv, refs + [r], pos + [j], r');
    assert (refs + [r])[|refs| := r'] == refs + [r'];
  }

  /** The path after moving on at depth i and then down along first entries. */
  ghost predicate Advanced(refs: seq<ElemRef>, pos: seq<nat>, refs': seq<ElemRef>, pos': seq<nat>, i: nat)
  {
    && |refs| == |refs'| == |pos| == |pos'| && i < |refs| && pos'[..i + 1] == pos[..i + 1]
    && refs'[i].index == refs[i].index + 1 && forall d :: i < d < |refs| ==> refs'[d].index == 0
  }

  /** Every reference below depth i is at the end of its node. */
  ghost predicate AtEnd(lv: Stack, refs: seq<ElemRef>, pos: seq<nat>, i: int)
    requires Path(lv, refs, pos)
  {
    forall d {:trigger HopAt(lv, refs, pos, d)} :: 0 <= d && i < d < |refs| ==>
      HopAt(lv, refs, pos, d) && refs[d].index >= |lv[Height(lv, d)][pos[d]].inodes| - 1
  }

  /** Moving on when everything below is at its end leads to the next node of each level below. */
  lemma {:induction false} NextNodes(lv: Stack, refs: seq<ElemRef>, pos: seq<nat>, refs': seq<ElemRef>, pos': seq<nat>,
                                     i: nat, d: nat)
    requires WF(lv) && Path(lv, refs, pos) && Path(lv, refs', pos') && Advanced(refs, pos, refs', pos', i)
    requires AtEnd(lv, refs, pos, i) && i < d < |refs|
    ensures pos'[d] == pos[d] + 1
    decreases d
  {
    assert HopAt(lv, refs, pos, d - 1) && HopAt(lv, refs', pos', d - 1);
    if i + 1 < d {
      NextNodes(lv, refs, pos, refs', pos', i, d - 1);
      FlatSplit(lv[Height(lv, d - 1)], pos[d - 1]);
    } else {
      assert pos'[..i + 1][i] == pos[..i + 1][i];
    }
  }

  /** When everything is at its end the path leads to the last node of each level. */
  lemma {:induction false} LastNodes(lv: Stack, refs: seq<ElemRef>, pos: seq<nat>, d: nat)
    requires WF(lv) && Path(lv, refs, pos) && AtEnd(lv, refs, pos, -1) && d < |refs|
    ensures HopAt(lv, refs, pos, d) && pos[d] + 1 == |lv[Height(lv, d)]|
    ensures Off(lv[Height(lv, d)], pos[d]) + |lv[Height(lv, d)][pos[d]].inodes| == |Flat(lv[Height(lv, d)])|
    decreases d
  {
    assert HopAt(lv, refs, pos, d);
    if d > 0 {
      LastNodes(lv, refs, pos, d - 1);
      SepsBelow(lv, Height(lv, d));
    }
    LastEntry(lv[Height(lv, d)], pos[d]);
  }

  /** What a bucket's nodes and pages hold is what its tree holds. */
  lemma {:induction false} ViewOf(b: Bucket, k: nat, j: nat)
    requires b.Valid() && k < |b.levels| && j < |b.levels[k]|
    ensures WF(b.levels)
    ensures var r := b.levels[k][j];
            if r.id in b.nodes then b.nodes[r.id].id == r.id && b.nodes[r.id].inodes == r.inodes
              && b.nodes[r.id].isLeaf == (k == 0)
            else r.id in b.pages && b.pages[r.id] == Page(k == 0, r.inodes)
  {
    Unfold(b.model, b.pages, b.levels);
    assert ShownAt(b.model, b.pages, b.levels, k, j);
    if b.levels[k][j].id in b.nodes {
      assert b.CachedAt(b.levels[k][j].id);
    }
  }

  /** The place of a key in its leaf, seen in the whole bucket. */
  lemma {:induction false} SoughtAt(lv: Stack, j: nat, key: Key)
    requires WF(lv) && Belongs(lv, 0, j, key)
    ensures var c, xs, x := Contents(lv), lv[0][j].inodes, Arena.Search(lv[0][j].inodes, key);
            && Arena.Search(c, key) == Off(lv[0], j) + x && x <= |xs|
            && (x < |xs| ==> Arena.Search(c, key) < |c| && c[Arena.Search(c, key)] == xs[x])
            && (Found(c, key) <==> Found(xs, key))
  {
    LeafSearch(lv, j, key);
    if Arena.Search(lv[0][j].inodes, key) < |lv[0][j].inodes| {
      FlatAt(lv[0], j, Arena.Search(lv[0][j].inodes, key));
    }
  }

  /** The key belongs to the child of node q at depth d that entry i points to. */
  ghost predicate BelongsBelow(lv: Stack, d: nat, q: nat, key: Key, i: nat)
  {
    && d + 1 < |lv| && q < |lv[Height(lv, d)]|
    && Belongs(lv, Height(lv, d + 1), Off(lv[Height(lv, d)], q) + i, key)
  }

  lemma {:induction false} DescendBelow(lv: Stack, d: nat, q: nat, key: Key, i: nat)
    requires WF(lv) && d + 1 < |lv| && Belongs(lv, Height(lv, d), q, key)
      && ChildFor(lv[Height(lv, d)][q].inodes, key, i)
    ensures i < |lv[Height(lv, d)][q].inodes| && BelongsBelow(lv, d, q, key, i)
  {
    DescendTo(lv, Height(lv, d), q, key, i);
  }

  lemma {:induction false} WentDown(lv: Stack, refs: seq<ElemRef>, pos: seq<nat>, refs': seq<ElemRef>, pos': seq<nat>,
                                    key: Key)
    requires 0 < |refs| == |pos| && |refs'| == |refs| + 1 && Path(lv, refs', pos')
    requires refs'[..|refs|] == refs && pos'[..|refs|] == pos && refs[|refs| - 1].index >= 0
    requires BelongsBelow(lv, |refs| - 1, pos[|refs| - 1], key, refs[|refs| - 1].index)
    ensures HopAt(lv, refs', pos', |refs|) && Belongs(lv, Height(lv, |refs|), pos'[|refs|], key)
  {
    var d := |refs| - 1;
    assert HopAt(lv, refs', pos', d) && HopAt(lv, refs', pos', d + 1);
    assert pos'[..|refs|][d] == pos'[d] && refs'[..|refs|][d] == refs'[d];
  }

  class Cursor {
    const bucket: Bucket
    var stack: seq<ElemRef>
    ghost var pos: seq<nat>    // where in their levels the referenced nodes are

    constructor (bucket: Bucket)
      ensures this.bucket == bucket && stack == [] && pos == []
    {
      this.bucket := bucket;
      stack := [];
      pos := [];
    }

    ghost predicate RefOk(r: ElemRef)
      reads bucket`nodes
    {
      if r.node != null then r.node.id == r.id && bucket.Has(r.node) else r.id !in bucket.nodes && r.id in bucket.pages
    }

    ghost predicate RefsOk()
      reads this, bucket`nodes
    {
      forall d {:trigger RefOk(stack[d])} :: 0 <= d < |stack| ==> RefOk(stack[d])
    }

    /** The bucket is valid. */
    ghost predicate Whole()
      reads bucket, bucket.nodes.Values
    {
      forall x {:trigger Steps.Open(x)} :: Steps.Open(x) ==> bucket.Valid()
    }

    ghost predicate Valid()
      reads this, bucket, bucket.nodes.Values
    {
      Whole() && RefsOk() && Path(bucket.levels, stack, pos)
    }

    function Inodes(r: ElemRef): seq<Inode>
      requires r.node != null || r.id in bucket.pages
      reads r.node
    {
      if r.node != null then r.node.inodes else bucket.pages[r.id].inodes
    }

    function IsLeaf(r: ElemRef): bool
      requires r.node != null || r.id in bucket.pages
      reads r.node
    {
      if r.node != null then r.node.isLeaf else bucket.pages[r.id].isLeaf
    }

    function Count(r: ElemRef): nat
      requires r.node != null || r.id in bucket.pages
      reads r.node
    {
      |Inodes(r)|
    }

    /** The entries of the d-th node from the root. */
    ghost function Entries(d: nat): seq<Inode>
      requires Path(bucket.levels, stack, pos) && d < |stack|
      reads this, bucket`levels
    {
      assert HopAt(bucket.levels, stack, pos, d);
      bucket.levels[Height(bucket.levels, d)][pos[d]].inodes
    }

    lemma {:induction false} RefIs(d: nat)
      requires Valid() && d < |stack|
      ensures stack[d].node != null || stack[d].id in bucket.pages
      ensures Inodes(stack[d]) == Entries(d) && IsLeaf(stack[d]) == (d + 1 == |bucket.levels|)
      ensures WF(bucket.levels) && HopAt(bucket.levels, stack, pos, d)
    {
      assert HopAt(bucket.levels, stack, pos, d) && RefOk(stack[d]);
      assert Steps.Open(0);
      ViewOf(bucket, Height(bucket.levels, d), pos[d]);
    }

    /** Bucket.pageNode: the cached node if there is one, else the page. */
    method PageNode(id: Pgid, index: int) returns (r: ElemRef)
      requires id in bucket.nodes || id in bucket.pages
      requires id in bucket.nodes ==> bucket.nodes[id].id == id
      ensures r.id == id && r.index == index && RefOk(r)
    {
      r := ElemRef(id, if id in bucket.nodes then bucket.nodes[id] else null, index);
    }

    /** One step down: the child that the last reference points to, with the given index. */
    method Push(id: Pgid)
      requires Valid() && stack != [] && |stack| < |bucket.levels|
      requires 0 <= stack[|stack| - 1].index < |Entries(|stack| - 1)|
      requires id == Entries(|stack| - 1)[stack[|stack| - 1].index].pgid
      modifies `stack, `pos
      ensures Valid() && |stack| == |old(stack)| + 1 && stack[..|old(stack)|] == old(stack)
        && pos[..|old(stack)|] == old(pos)
      ensures stack[|old(stack)|].index == 0
    {
      ghost var j := BelowTop(id);
      var r := PageNode(id, 0);
      PathAny(bucket.levels, stack, pos, ElemRef(id, null, 0), r, j);
      stack := stack + [r];
      pos := pos + [j];
      assert forall e :: 0 <= e < |stack| - 1 ==> old(RefOk(stack[e]));
    }

    method PushTop()
      requires Valid() && stack != [] && |stack| < |bucket.levels|
      requires 0 <= stack[|stack| - 1].index < |Entries(|stack| - 1)|
      modifies `stack, `pos
      ensures Valid() && |stack| == |old(stack)| + 1 && stack[..|old(stack)|] == old(stack)
        && pos[..|old(stack)|] == old(pos)
      ensures stack[|old(stack)|].index == 0
    {
      RefIs(|stack| - 1);
      Push(Inodes(stack[|stack| - 1])[stack[|stack| - 1].index].pgid);
    }

    /** Where the child is that the last reference points to. */
    lemma {:induction false} BelowTop(id: Pgid) returns (j: nat)
      requires Valid() && stack != [] && |stack| < |bucket.levels|
      requires 0 <= stack[|stack| - 1].index < |Entries(|stack| - 1)|
      requires id == Entries(|stack| - 1)[stack[|stack| - 1].index].pgid
      ensures Path(bucket.levels, stack + [ElemRef(id, null, 0)], pos + [j])
      ensures if id in bucket.nodes then bucket.nodes[id].id == id else id in bucket.pages
    {
      RefIs(|stack| - 1);
      j := PathChild(bucket.levels, stack, pos, ElemRef(id, null, 0));
      assert Steps.Open(0);
      ViewOf(bucket, Height(bucket.levels, |stack|), j);
    }

    /** The cursor stands on a leaf. */
    ghost predicate OnLeaf()
      reads this, bucket`levels
    {
      stack != [] && |stack| == |bucket.levels|
    }

    /** The entry that comes next in the bucket. */
    ghost function Upcoming(): nat
      requires Path(bucket.levels, stack, pos) && OnLeaf()
      reads this, bucket`levels
    {
      var d := |stack| - 1;
      assert HopAt(bucket.levels, stack, pos, d);
      var x := stack[d].index + 1;
      Off(bucket.levels[0], pos[d]) + (if x < 0 then 0 else if x < |Entries(d)| then x else |Entries(d)|)
    }

    /** The cursor stands on entry p of the bucket. */
    ghost predicate OnEntry(p: nat)
      requires Path(bucket.levels, stack, pos) && OnLeaf()
      reads this, bucket`levels
    {
      var d := |stack| - 1;
      assert HopAt(bucket.levels, stack, pos, d);
      0 <= stack[d].index < |Entries(d)| && p == Off(bucket.levels[0], pos[d]) + stack[d].index
    }

    /** The last reference is to a leaf, or to an entry of a branch. */
    ghost predicate CanDescend()
      requires Path(bucket.levels, stack, pos)
      reads this, bucket`levels
    {
      stack != [] && (|stack| < |bucket.levels| ==> 0 <= stack[|stack| - 1].index < |Entries(|stack| - 1)|)
    }

    lemma {:induction false} FullBranch(d: nat)
      requires Valid() && d + 1 < |bucket.levels| && d < |stack|
      ensures Entries(d) != []
    {
      RefIs(d);
      assert LevelOk(bucket.levels, Height(bucket.levels, d));
    }

    /** One step down to a child, with the cursor on its first entry. */
    method DownFirst()
      requires Valid() && CanDescend() && |stack| < |bucket.levels|
      modifies `stack, `pos
      ensures Valid() && CanDescend() && |stack| == |old(stack)| + 1 && stack[|stack| - 1].index == 0
      ensures forall d :: 0 <= d < |old(stack)| ==> stack[d] == old(stack)[d] && pos[d] == old(pos)[d]
    {
      ghost var n := |stack|;
      PushTop();
      assert forall d :: 0 <= d < n ==> stack[d] == stack[..n][d] && pos[d] == pos[..n][d];
      if |stack| < |bucket.levels| {
        FullBranch(|stack| - 1);
      }
    }

    method AtLeaf() returns (leaf: bool)
      requires Valid() && stack != []
      ensures leaf <==> |stack| == |bucket.levels|
    {
      RefIs(|stack| - 1);
      leaf := IsLeaf(stack[|stack| - 1]);
    }

    /** first: down to a leaf along first entries. */
    method ToFirst()
      requires Valid() && CanDescend()
      modifies `stack, `pos
      ensures Valid() && OnLeaf() && |old(stack)| <= |stack|
      ensures forall d :: 0 <= d < |old(stack)| ==> stack[d] == old(stack)[d] && pos[d] == old(pos)[d]
      ensures forall d :: |old(stack)| <= d < |stack| ==> stack[d].index == 0
    {
      ghost var n := |stack|;
      var leaf := AtLeaf();
      while !leaf
        invariant Valid() && CanDescend() && n <= |stack| && (leaf <==> |stack| == |bucket.levels|)
        invariant forall d :: 0 <= d < n ==> stack[d] == old(stack)[d] && pos[d] == old(pos)[d]
        invariant forall d :: n <= d < |stack| ==> stack[d].index == 0
        decreases |bucket.levels| - |stack|
      {
        DownFirst();
        leaf := AtLeaf();
      }
    }

    /** Where in the bucket the cursor stands. */
    ghost function Here(): int
      requires Path(bucket.levels, stack, pos) && OnLeaf()
      reads this, bucket`levels
    {
      assert HopAt(bucket.levels, stack, pos, |stack| - 1);
      Off(bucket.levels[0], pos[|stack| - 1]) + stack[|stack| - 1].index
    }

    /** keyValue: the entry the cursor stands on, if any. */
    method KeyValue() returns (r: Option<Inode>)
      requires Valid() && OnLeaf() && (stack[|stack| - 1].index >= 0 || Entries(|stack| - 1) == [])
      ensures if stack[|stack| - 1].index < |Entries(|stack| - 1)| && Entries(|stack| - 1) != []
              then 0 <= Here() < |Contents(bucket.levels)| && OnEntry(Here())
                && r == Some(Contents(bucket.levels)[Here()])
              else r == None
    {
      var d := |stack| - 1;
      RefIs(d);
      var ref := stack[d];
      if Count(ref) == 0 || ref.index >= Count(ref) {
        return None;
      }
      FlatAt(bucket.levels[0], pos[d], ref.index);
      r := Some(Inodes(ref)[ref.index]);
    }

    /** Up to depth i, on to its next entry, and down to the first leaf below that. */
    method MoveOn(i: nat)
      requires Valid() && OnLeaf() && i < |stack| && AtEnd(bucket.levels, stack, pos, i)
      requires -1 <= stack[i].index < |Entries(i)| - 1
      modifies `stack, `pos
      ensures Valid() && OnLeaf() && stack[|stack| - 1].index >= 0 && Here() == old(Upcoming())
      ensures Entries(|stack| - 1) != [] ==> OnEntry(Here())
      ensures Entries(|stack| - 1) == [] ==>
        Upcoming() == old(Upcoming()) && pos[|stack| - 1] == old(pos[|stack| - 1]) + 1
    {
      ghost var refs, ps := stack, pos;
      RefIs(i);
      CutAt(i);
      ToFirst();
      Moved(bucket.levels, refs, ps, stack, pos, i);
      RefIs(|stack| - 1);
    }

    /** The references below depth i go, and reference i points to the next entry. */
    method CutAt(i: nat)
      requires Valid() && i < |stack| && -1 <= stack[i].index < |Entries(i)| - 1
      modifies `stack, `pos
      ensures Valid() && CanDescend() && |stack| == i + 1 && pos == old(pos)[..i + 1]
      ensures stack[i].index == old(stack)[i].index + 1
    {
      PathUp(bucket.levels, stack, pos, i + 1);
      PathSet(bucket.levels, stack[..i + 1], pos[..i + 1], stack[i].(index := stack[i].index + 1));
      assert forall d :: 0 <= d < |stack| ==> RefOk(stack[d]);
      ghost var x := Entries(i);
      stack := stack[..i + 1][i := stack[i].(index := stack[i].index + 1)];
      pos := pos[..i + 1];
      assert Entries(i) == x;
    }

    /** The deepest reference that is not at the end of its node; -1 if all are. */
    method DeepestLeft() returns (i: int)
      requires Valid()
      ensures -1 <= i < |stack| && AtEnd(bucket.levels, stack, pos, i)
      ensures i >= 0 ==> stack[i].index < |Entries(i)| - 1
    {
      i := |stack| - 1;
      while i >= 0
        invariant -1 <= i < |stack| && AtEnd(bucket.levels, stack, pos, i)
      {
        RefIs(i);
        if stack[i].index < Count(stack[i]) - 1 {
          return;
        }
        i := i - 1;
      }
    }

    /** One round of next: on to the next entry of some node, and down to the first leaf below it. */
    method Step() returns (moved: bool)
      requires Valid() && OnLeaf() && stack[|stack| - 1].index >= -1
      modifies `stack, `pos
      ensures Valid() && OnLeaf() && stack[|stack| - 1].index >= -1
      ensures !moved ==> stack == old(stack) && pos == old(pos) && Upcoming() == |Contents(bucket.levels)|
      ensures moved ==> Here() == old(Upcoming()) && stack[|stack| - 1].index >= 0
      ensures moved && Entries(|stack| - 1) != [] ==> OnEntry(Here())
      ensures moved && Entries(|stack| - 1) == [] ==>
        Upcoming() == old(Upcoming()) && pos[|stack| - 1] == old(pos[|stack| - 1]) + 1
    {
      var i := DeepestLeft();
      if i == -1 {
        RefIs(|stack| - 1);
        LastNodes(bucket.levels, stack, pos, |stack| - 1);
        return false;
      }
      assert HopAt(bucket.levels, stack, pos, i);
      MoveOn(i);
      moved := true;
    }

    /** next: to the next entry of the bucket, past empty leaves; None at the end. */
    method Advance() returns (r: Option<Inode>)
      requires Valid() && OnLeaf() && stack[|stack| - 1].index >= -1
      modifies `stack, `pos
      ensures Valid() && OnLeaf() && stack[|stack| - 1].index >= -1
      ensures Upcoming() == if old(Upcoming()) < |Contents(bucket.levels)| then old(Upcoming()) + 1 else old(Upcoming())
      ensures if old(Upcoming()) < |Contents(bucket.levels)|
              then OnEntry(old(Upcoming())) && r == Some(Contents(bucket.levels)[old(Upcoming())])
              else r == None && (stack == old(stack) || Entries(|stack| - 1) == [])
    {
      while true
        invariant Valid() && OnLeaf() && stack[|stack| - 1].index >= -1 && Upcoming() == old(Upcoming())
        invariant stack == old(stack) || Entries(|stack| - 1) == []
        decreases |bucket.levels[0]| - pos[|stack| - 1]
      {
        var moved := Step();
        if !moved {
          return None;
        }
        var empty;
        empty, r := EntryHere();
        if !empty {
          return;
        }
      }
    }

    /** What next gives for the place it moved to, unless that is an empty leaf. */
    method EntryHere() returns (empty: bool, r: Option<Inode>)
      requires Valid() && OnLeaf() && stack[|stack| - 1].index >= 0
      requires Entries(|stack| - 1) != [] ==> OnEntry(Here())
      ensures pos[|stack| - 1] < |bucket.levels[0]| && (empty <==> Entries(|stack| - 1) == [])
      ensures !empty ==> 0 <= Here() < |Contents(bucket.levels)| && r == Some(Contents(bucket.levels)[Here()])
    {
      RefIs(|stack| - 1);
      empty := Count(stack[|stack| - 1]) == 0;
      r := None;
      if !empty {
        r := KeyValue();
      }
    }

    /** First: the first entry of the bucket, past empty leaves; None if there is none. */
    method First() returns (r: Option<Inode>)
      requires bucket.Valid()
      modifies `stack, `pos
      ensures Valid() && OnLeaf() && stack[|stack| - 1].index >= -1
      ensures if Contents(bucket.levels) == [] then r == None && Upcoming() == 0
              else r == Some(Contents(bucket.levels)[0]) && Upcoming() == 1
    {
      r := FindFirst();
      assert Steps.Open(0);
    }

    method FindFirst() returns (r: Option<Inode>)
      requires Whole()
      modifies `stack, `pos
      ensures OnFirst() && |bucket.levels| > 0
      ensures r == if Contents(bucket.levels) == [] then None else Some(Contents(bucket.levels)[0])
    {
      ToFirstLeaf();
      SkipEmpty();
      r := AtFirst();
    }

    /** On the first leaf. */
    ghost predicate AtStart()
      reads this, bucket, bucket.nodes.Values
    {
      forall x {:trigger Steps.Open(x)} :: Steps.Open(x) ==>
        Valid() && OnLeaf() && stack[|stack| - 1].index == 0 && Here() == 0
    }

    /** On the first entry or, if there is none, on an empty leaf. */
    ghost predicate OnFirst()
      reads this, bucket, bucket.nodes.Values
    {
      forall x {:trigger Steps.Open(x)} :: Steps.Open(x) ==>
        && Valid() && OnLeaf() && stack[|stack| - 1].index >= -1
        && (if Contents(bucket.levels) == [] then Entries(|stack| - 1) == [] && Upcoming() == 0
            else OnEntry(0) && Here() == 0 && Upcoming() == 1)
    }

    /** keyValue for First. */
    method AtFirst() returns (r: Option<Inode>)
      requires OnFirst()
      ensures |bucket.levels| > 0
      ensures r == if Contents(bucket.levels) == [] then None else Some(Contents(bucket.levels)[0])
    {
      assert Steps.Open(0);
      r := KeyValue();
    }

    /** From the first leaf past leaves that are empty. */
    method SkipEmpty()
      requires AtStart()
      modifies `stack, `pos
      ensures OnFirst()
    {
      assert Steps.Open(0);
      RefIs(|stack| - 1);
      if Count(stack[|stack| - 1]) == 0 {
        var _ := Advance();
      } else {
        FlatAt(bucket.levels[0], pos[|stack| - 1], 0);
      }
    }

    method ToFirstLeaf()
      requires Whole()
      modifies `stack, `pos
      ensures AtStart()
    {
      ToRoot(0);
      if |stack| < |bucket.levels| {
        FullBranch(0);
      }
      ToFirst();
      FirstLeaf(bucket.levels, stack, pos, |stack| - 1);
      assert bucket.levels[0][..0] == [];
    }

    /** The stack with the root only. */
    method ToRoot(index: int)
      requires Whole()
      modifies `stack, `pos
      ensures Valid() && |stack| == 1 && pos == [0] && stack[0].index == index
    {
      assert Steps.Open(0);
      Unfold(bucket.model, bucket.pages, bucket.levels);
      ViewOf(bucket, |bucket.levels| - 1, 0);
      var r := PageNode(bucket.root, index);
      stack := [r];
      pos := [0];
      assert HopAt(bucket.levels, stack, pos, 0);
    }

    /** Next. */
    method Next() returns (r: Option<Inode>)
      requires Valid() && (stack != [] ==> OnLeaf() && stack[|stack| - 1].index >= -1)
      modifies `stack, `pos
      ensures Valid() && (stack != [] ==> OnLeaf() && stack[|stack| - 1].index >= -1)
      ensures if old(stack) == [] then stack == [] && r == None
              else if old(Upcoming()) < |Contents(bucket.levels)|
              then stack != [] && r == Some(Contents(bucket.levels)[old(Upcoming())])
                && Upcoming() == old(Upcoming()) + 1
              else stack != [] && r == None && Upcoming() == old(Upcoming())
    {
      if stack == [] {
        return None;
      }
      r := Advance();
    }

    /** Entry p of the bucket comes next. */
    ghost predicate Due(p: nat)
      reads this, bucket, bucket.nodes.Values
    {
      |bucket.levels| > 0 && forall x {:trigger Steps.Open(x)} :: Steps.Open(x) ==>
        Valid() && OnLeaf() && stack[|stack| - 1].index >= -1 && Upcoming() == p
    }

    method WalkFirst() returns (r: Option<Inode>)
      requires bucket.Valid()
      modifies `stack, `pos
      ensures |bucket.levels| > 0
      ensures if Contents(bucket.levels) == [] then r == None else r == Some(Contents(bucket.levels)[0]) && Due(1)
    {
      r := First();
    }

    method WalkNext(ghost p: nat) returns (r: Option<Inode>)
      requires Due(p)
      modifies `stack, `pos
      ensures if p < |Contents(bucket.levels)| then r == Some(Contents(bucket.levels)[p]) && Due(p + 1) else r == None
    {
      assert Steps.Open(0);
      r := Next();
    }

    /** The loop of ForEach: First, then Next until there is nothing more or a call fails. */
    method Walk(failing: nat) returns (seen: seq<Inode>, failed: bool)
      requires bucket.Valid()
      modifies `stack, `pos
      ensures |bucket.levels| > 0 && (failed <==> failing < |Contents(bucket.levels)|)
      ensures seen == if failed then Contents(bucket.levels)[..failing + 1] else Contents(bucket.levels)
    {
      seen := [];
      var r := WalkFirst();
      ghost var c := Contents(bucket.levels);
      while r != None
        invariant |seen| <= |c| && seen == c[..|seen|] && |seen| <= failing
        invariant if r == None then |seen| == |c| else |seen| < |c| && r == Some(c[|seen|]) && Due(|seen| + 1)
        decreases |c| - |seen|
      {
        seen := seen + [r.value];
        if |seen| > failing {
          return seen, true;
        }
        r := WalkNext(|seen|);
      }
      failed := false;
    }

    // ---- backwards ----

    /** The last reference points to the last entry of its node, if that has any. */
    ghost predicate AtLast()
      requires Path(bucket.levels, stack, pos)
      reads this, bucket`levels
    {
      stack != [] && stack[|stack| - 1].index == |Entries(|stack| - 1)| - 1
    }

    method SetIndex(index: int)
      requires Valid() && stack != []
      modifies `stack
      ensures Valid() && |stack| == |old(stack)| && stack[|stack| - 1].index == index
      ensures forall d :: 0 <= d < |stack| - 1 ==> stack[d] == old(stack)[d]
      ensures stack[|stack| - 1] == old(stack)[|stack| - 1].(index := index)
    {
      var d := |stack| - 1;
      PathSet(bucket.levels, stack, pos, stack[d].(index := index));
      assert forall e :: 0 <= e < |stack| ==> RefOk(stack[e]);
      stack := stack[d := stack[d].(index := index)];
    }

    /** One step down to a child, with the cursor on its last entry. */
    method DownLast()
      requires Valid() && CanDescend() && |stack| < |bucket.levels|
      modifies `stack, `pos
      ensures Valid() && CanDescend() && |stack| == |old(stack)| + 1 && AtLast()
      ensures forall d :: 0 <= d < |old(stack)| ==> stack[d] == old(stack)[d] && pos[d] == old(pos)[d]
    {
      DownFirst();
      RefIs(|stack| - 1);
      SetIndex(Count(stack[|stack| - 1]) - 1);
      if |stack| < |bucket.levels| {
        FullBranch(|stack| - 1);
      }
    }

    /** Every reference from depth n on is to the last entry of its node. */
    ghost predicate LastFrom(n: nat)
      requires Path(bucket.levels, stack, pos)
      reads this, bucket`levels
    {
      forall d {:trigger HopAt(bucket.levels, stack, pos, d)} :: n <= d < |stack| ==>
        HopAt(bucket.levels, stack, pos, d) && stack[d].index == |Entries(d)| - 1
    }

    /** last: down to a leaf along last entries. */
    method ToLast()
      requires Valid() && CanDescend()
      modifies `stack, `pos
      ensures Valid() && OnLeaf() && |old(stack)| <= |stack| && LastFrom(|old(stack)|)
      ensures forall d :: 0 <= d < |old(stack)| ==> stack[d] == old(stack)[d] && pos[d] == old(pos)[d]
    {
      ghost var n := |stack|;
      var leaf := AtLeaf();
      while !leaf
        invariant Valid() && CanDescend() && n <= |stack| && (leaf <==> |stack| == |bucket.levels|)
        invariant forall d :: 0 <= d < n ==> stack[d] == old(stack)[d] && pos[d] == old(pos)[d]
        invariant LastFrom(n)
        decreases |bucket.levels| - |stack|
      {
        ghost var refs, ps := stack, pos;
        DownLast();
        forall d | n <= d < |stack| ensures HopAt(bucket.levels, stack, pos, d) && stack[d].index == |Entries(d)| - 1 {
          assert d < |refs| ==> HopAt(bucket.levels, refs, ps, d);
        }
        leaf := AtLeaf();
      }
    }

    /** Last: the last entry of the last leaf; None if that leaf is empty. */
    method Last() returns (r: Option<Inode>)
      requires bucket.Valid()
      modifies `stack, `pos
      ensures Valid() && OnLeaf() && AtLast() && pos[|stack| - 1] + 1 == |bucket.levels[0]|
      ensures if Entries(|stack| - 1) == [] then r == None
              else (OnEntry(|Contents(bucket.levels)| - 1)
                    && r == Some(Contents(bucket.levels)[|Contents(bucket.levels)| - 1]))
    {
      ToLastLeaf();
      r := KeyValue();
    }

    method ToLastLeaf()
      requires Whole()
      modifies `stack, `pos
      ensures Valid() && OnLeaf() && AtLast() && pos[|stack| - 1] + 1 == |bucket.levels[0]|
      ensures Here() + 1 == |Contents(bucket.levels)|
    {
      ToRoot(0);
      RefIs(0);
      SetIndex(Count(stack[0]) - 1);
      if |stack| < |bucket.levels| {
        FullBranch(0);
      }
      ToLast();
      RefIs(|stack| - 1);
      AllLast();
      LastNodes(bucket.levels, stack, pos, |stack| - 1);
    }

    lemma {:induction false} AllLast()
      requires Path(bucket.levels, stack, pos) && stack != [] && LastFrom(1)
      requires HopAt(bucket.levels, stack, pos, 0) && stack[0].index == |Entries(0)| - 1
      ensures AtEnd(bucket.levels, stack, pos, -1) && AtLast()
    {
      forall d | 0 <= d < |stack| ensures HopAt(bucket.levels, stack, pos, d) && stack[d].index == |Entries(d)| - 1 {
        assert HopAt(bucket.levels, stack, pos, d);
      }
    }

    /** The deepest reference that is past the first entry of its node; the ones below are given up. */
    method PopToEarlier()
      requires Valid()
      modifies `stack, `pos
      ensures Valid() && |stack| <= |old(stack)| && stack == old(stack)[..|stack|] && pos == old(pos)[..|stack|]
      ensures stack != [] ==> stack[|stack| - 1].index > 0
      ensures forall d :: |stack| <= d < |old(stack)| ==> old(stack)[d].index <= 0
    {
      while |stack| > 0 && stack[|stack| - 1].index <= 0
        invariant Valid() && |stack| <= |old(stack)| && stack == old(stack)[..|stack|] && pos == old(pos)[..|stack|]
        invariant forall d :: |stack| <= d < |old(stack)| ==> old(stack)[d].index <= 0
      {
        var n := |stack| - 1;
        PathUp(bucket.levels, stack, pos, n);
        assert forall d :: 0 <= d < n ==> RefOk(stack[d]);
        stack := stack[..n];
        pos := pos[..n];
      }
    }

    /** Prev: back one entry in the leaf or, at its start, to the end of the leaf before; None if that
        leaf is empty. At the beginning the stack is given up, and stays so. */
    method Prev() returns (r: Option<Inode>)
      requires Valid() && (stack != [] ==> OnLeaf() && stack[|stack| - 1].index <= |Entries(|stack| - 1)|)
      modifies `stack, `pos
      ensures Valid() && (stack == [] <==> old(stack == [] || (stack[|stack| - 1].index <= 0 && pos[|stack| - 1] == 0)))
      ensures stack == [] ==> r == None
      ensures stack != [] ==> OnLeaf()
      ensures old(stack) != [] && old(stack[|stack| - 1].index) > 0 ==>
        stack != [] && pos == old(pos) && OnEntry(old(Here()) - 1) && 0 < old(Here()) <= |Contents(bucket.levels)|
        && r == Some(Contents(bucket.levels)[old(Here()) - 1])
      ensures stack != [] && old(stack[|stack| - 1].index) <= 0 ==>
        AtLast() && pos[|stack| - 1] + 1 == old(pos[|stack| - 1])
      ensures stack != [] && old(stack[|stack| - 1].index) <= 0 ==>
        if Entries(|stack| - 1) == [] then r == None
        else 0 <= Here() < |Contents(bucket.levels)| && OnEntry(Here()) && r == Some(Contents(bucket.levels)[Here()])
    {
      if stack == [] {
        return None;
      }
      var back := ToEarlier();
      if !back {
        return None;
      }
      r := KeyValue();
    }

    method ToEarlier() returns (back: bool)
      requires Valid() && OnLeaf() && stack[|stack| - 1].index <= |Entries(|stack| - 1)|
      modifies `stack, `pos
      ensures Valid() && (back <==> stack != []) && (back ==> OnLeaf())
      ensures !back <==> old(stack[|stack| - 1].index <= 0 && pos[|stack| - 1] == 0)
      ensures back && old(stack[|stack| - 1].index) > 0 ==>
        pos == old(pos) && Here() == old(Here()) - 1 && OnEntry(Here())
      ensures back && old(stack[|stack| - 1].index) <= 0 ==>
        AtLast() && pos[|stack| - 1] + 1 == old(pos[|stack| - 1])
    {
      ghost var refs, ps := stack, pos;
      PopToEarlier();
      if |stack| == 0 {
        FirstLeafBack(bucket.levels, refs, ps, |refs| - 1);
        return false;
      }
      ghost var i := |stack| - 1;
      BackDown(refs, ps);
      RefIs(|stack| - 1);
      Back(bucket.levels, refs, ps, stack, pos, i);
      back := true;
    }

    /** To the entry before that of the last reference, and down to the last leaf below. */
    method BackDown(ghost refs: seq<ElemRef>, ghost ps: seq<nat>)
      requires Valid() && stack != [] && stack[|stack| - 1].index > 0 && Path(bucket.levels, refs, ps)
      requires |stack| <= |refs| == |bucket.levels| && stack == refs[..|stack|] && pos == ps[..|stack|]
      requires forall d :: |stack| <= d < |refs| ==> refs[d].index <= 0
      modifies `stack, `pos
      ensures Valid() && OnLeaf() && MovedBack(bucket.levels, refs, ps, stack, pos, old(|stack|) - 1)
      ensures forall d :: 0 <= d < |old(stack)| ==> pos[d] == old(pos)[d]
    {
      var i := |stack| - 1;
      assert HopAt(bucket.levels, refs, ps, i);
      SetIndex(stack[i].index - 1);
      ToLast();
      forall d | i < d < |stack|
        ensures HopAt(bucket.levels, stack, pos, d)
        ensures stack[d].index == |bucket.levels[Height(bucket.levels, d)][pos[d]].inodes| - 1
      {
        assert HopAt(bucket.levels, stack, pos, d);
      }
    }

    /** Last, then Prev until there is nothing more, gives the entries after the last empty leaf, in
        reverse order. */
    method BackwardScan() returns (out: seq<Inode>)
      requires bucket.Valid()
      modifies `stack, `pos
      ensures |bucket.levels| > 0 && AfterEmpty(bucket.levels) <= |Contents(bucket.levels)|
      ensures out == Reversed(Contents(bucket.levels)[AfterEmpty(bucket.levels)..])
      ensures out == Reversed(Contents(bucket.levels)) <==> EmptyFirst(bucket.levels[0])
    {
      out := ScanAll();
      BackwardComplete(bucket.levels);
    }

    method ScanAll() returns (out: seq<Inode>)
      requires Whole()
      modifies `stack, `pos
      ensures |bucket.levels| > 0 && AfterEmpty(bucket.levels) <= |Contents(bucket.levels)|
      ensures out == Reversed(Contents(bucket.levels)[AfterEmpty(bucket.levels)..])
    {
      var r := ScanStart();
      ghost var c := Contents(bucket.levels);
      ghost var p := |c|;
      out := [];
      assert c[p..] == [];
      while r != None
        invariant Valid() && p <= |c|
        invariant if r == None then p == AfterEmpty(bucket.levels) else Scanning(p - 1) && r == Some(c[p - 1])
        invariant out == Reversed(c[p..])
        decreases p
      {
        ReversedAfter(c, p);
        out := out + [r.value];
        p := p - 1;
        r := ScanBack(p);
      }
    }

    method ScanStart() returns (r: Option<Inode>)
      requires Whole()
      modifies `stack, `pos
      ensures Valid() && |bucket.levels| > 0
      ensures var n := |Contents(bucket.levels)|;
              if r == None then n == AfterEmpty(bucket.levels)
              else n > 0 && Scanning(n - 1) && r == Some(Contents(bucket.levels)[n - 1])
    {
      assert Steps.Open(0);
      r := Last();
      TailIs(bucket.levels[0], |bucket.levels[0]|);
    }

    /** The scan stands on entry p, which comes after the last empty leaf. */
    ghost predicate Scanning(p: int)
      requires Path(bucket.levels, stack, pos)
      reads this, bucket`levels
    {
      OnLeaf() && 0 <= p < |Contents(bucket.levels)| && OnEntry(p) && TailStart(bucket.levels[0]) <= pos[|stack| - 1]
    }

    method ScanBack(ghost p: nat) returns (r: Option<Inode>)
      requires Valid() && Scanning(p)
      modifies `stack, `pos
      ensures Valid()
      ensures if r == None then p == AfterEmpty(bucket.levels)
              else p > 0 && Scanning(p - 1) && r == Some(Contents(bucket.levels)[p - 1])
    {
      ghost var j, x := pos[|stack| - 1], stack[|stack| - 1].index;
      RefIs(|stack| - 1);
      LeafBefore(bucket.levels[0], j);
      r := Prev();
    }

    // ---- searching ----

    /** A search for key leads through the last node on the stack. */
    ghost predicate Sought(key: Key)
      requires Path(bucket.levels, stack, pos)
      reads this, bucket`levels
    {
      && stack != [] && HopAt(bucket.levels, stack, pos, |stack| - 1)
      && Belongs(bucket.levels, Height(bucket.levels, |stack| - 1), pos[|stack| - 1], key)
    }

    /** searchNode and searchPage: the child whose key range holds the key. */
    method SearchBranch(key: Key)
      requires Valid() && |stack| < |bucket.levels| && Sought(key)
      modifies `stack, `pos
      ensures Valid() && Sought(key) && |stack| == |old(stack)| + 1
    {
      var index := ChildOf(|stack| - 1, key);
      SoughtBelow(key, index);
      DownTo(index, key);
    }

    lemma {:induction false} SoughtBelow(key: Key, index: nat)
      requires Valid() && |stack| < |bucket.levels| && Sought(key) && ChildFor(Entries(|stack| - 1), key, index)
      ensures index < |Entries(|stack| - 1)| && BelongsBelow(bucket.levels, |stack| - 1, pos[|stack| - 1], key, index)
    {
      RefIs(|stack| - 1);
      DescendBelow(bucket.levels, |stack| - 1, pos[|stack| - 1], key, index);
    }

    method ChildOf(d: nat, key: Key) returns (index: nat)
      requires Valid() && d < |stack|
      ensures ChildFor(Entries(d), key, index)
    {
      RefIs(d);
      AscAt(d);
      index := BranchIndex(Inodes(stack[d]), key);
    }

    /** One step down, to the child at the given index. */
    method DownTo(index: nat, ghost key: Key)
      requires Valid() && stack != [] && |stack| < |bucket.levels| && index < |Entries(|stack| - 1)|
      requires BelongsBelow(bucket.levels, |stack| - 1, pos[|stack| - 1], key, index)
      modifies `stack, `pos
      ensures Valid() && |stack| == |old(stack)| + 1 && Sought(key)
    {
      SetIndex(index);
      ghost var refs, ps := stack, pos;
      PushTop();
      WentDown(bucket.levels, refs, ps, stack, pos, key);
    }

    lemma {:induction false} AscAt(d: nat)
      requires Valid() && d < |stack|
      ensures Asc(Entries(d))
    {
      RefIs(d);
      assert LevelOk(bucket.levels, Height(bucket.levels, d));
    }

    /** search: down from the last node on the stack to the leaf for the key, and to its place there. */
    method Search(key: Key)
      requires Valid() && Sought(key)
      modifies `stack, `pos
      ensures Valid() && OnLeaf() && Sought(key) && stack[|stack| - 1].index == Arena.Search(Entries(|stack| - 1), key)
      decreases |bucket.levels| - |stack|
    {
      RefIs(|stack| - 1);
      if IsLeaf(stack[|stack| - 1]) {
        SearchLeaf(key);
        return;
      }
      SearchBranch(key);
      Search(key);
    }

    /** nsearch: to the place of the key in the leaf. */
    method SearchLeaf(key: Key)
      requires Valid() && OnLeaf() && Sought(key)
      modifies `stack
      ensures Valid() && OnLeaf() && Sought(key) && stack[|stack| - 1].index == Arena.Search(Entries(|stack| - 1), key)
    {
      RefIs(|stack| - 1);
      AscAt(|stack| - 1);
      var index := LowerBound(Inodes(stack[|stack| - 1]), key);
      SetIndex(index);
      assert HopAt(bucket.levels, stack, pos, |stack| - 1);
    }

    /** seek: to the place of the key in its leaf, and the entry there; None at the end of the leaf. */
    method SeekLeaf(key: Key) returns (r: Option<Inode>)
      requires bucket.Valid()
      modifies `stack, `pos
      ensures Valid() && OnLeaf() && Sought(key) && stack[|stack| - 1].index == Arena.Search(Entries(|stack| - 1), key)
      ensures r == if stack[|stack| - 1].index < |Entries(|stack| - 1)|
                   then Some(Entries(|stack| - 1)[stack[|stack| - 1].index]) else None
    {
      ToRoot(0);
      RefIs(0);
      RootBelongs(bucket.levels, key);
      Search(key);
      RefIs(|stack| - 1);
      var ref := stack[|stack| - 1];
      r := if ref.index >= Count(ref) then None else Some(Inodes(ref)[ref.index]);
    }

    /** Seek: the first entry at or after the key. */
    method Seek(key: Key) returns (r: Option<Inode>)
      requires bucket.Valid()
      modifies `stack, `pos
      ensures Valid() && OnLeaf()
      ensures var c := Contents(bucket.levels); var p := Arena.Search(c, key);
              r == if p < |c| then Some(c[p]) else None
    {
      r := SeekLeaf(key);
      SoughtIs(key);
      RefIs(|stack| - 1);
      if stack[|stack| - 1].index >= Count(stack[|stack| - 1]) {
        r := Advance();
      }
    }

    /** The place found in the leaf, seen in the whole bucket. */
    lemma {:induction false} SoughtIs(key: Key)
      requires Valid() && OnLeaf() && Sought(key) && stack[|stack| - 1].index == Arena.Search(Entries(|stack| - 1), key)
      ensures var c, x, xs := Contents(bucket.levels), stack[|stack| - 1].index, Entries(|stack| - 1);
              if x < |xs| then Arena.Search(c, key) < |c| && c[Arena.Search(c, key)] == xs[x]
              else Upcoming() == Arena.Search(c, key)
      ensures Found(Contents(bucket.levels), key) <==> Found(Entries(|stack| - 1), key)
    {
      var d := |stack| - 1;
      RefIs(d);
      SoughtAt(bucket.levels, pos[d], key);
    }

    /** node: the leaf the cursor stands on, read into a node together with all nodes above it. */
    method Node() returns (n: Node)
      requires Valid() && OnLeaf() && AllHealthy(bucket.levels, bucket.model)
      modifies bucket`nodes, bucket`model, bucket`Repr, bucket.Repr
      ensures bucket.Valid() && bucket.Has(n) && n.id == stack[|stack| - 1].id && n in bucket.Repr
      ensures AllHealthy(bucket.levels, bucket.model) && Marked(bucket.model) == old(Marked(bucket.model))
      ensures fresh(bucket.Repr - old(bucket.Repr)) && old(bucket.Repr) <= bucket.Repr
    {
      RefIs(|stack| - 1);
      assert Steps.Open(0);
      var top := stack[|stack| - 1];
      if top.node != null && IsLeaf(top) {
        assert RefOk(stack[|stack| - 1]);
        n := top.node;
      } else {
        n := ReadPath();
      }
      assert bucket.CachedAt(n.id);
    }

    /** The rest of node: from the root down, each node on the way is read. */
    method ReadPath() returns (n: Node)
      requires Valid() && bucket.Valid() && OnLeaf() && AllHealthy(bucket.levels, bucket.model)
      modifies bucket`nodes, bucket`model, bucket`Repr, bucket.Repr
      ensures bucket.Valid() && bucket.Has(n) && n.id == stack[|stack| - 1].id
      ensures AllHealthy(bucket.levels, bucket.model) && Marked(bucket.model) == old(Marked(bucket.model))
      ensures fresh(bucket.Repr - old(bucket.Repr)) && old(bucket.Repr) <= bucket.Repr
    {
      n := PathRoot();
      for d := 0 to |stack| - 1
        invariant bucket.Valid() && bucket.Has(n) && n.id == stack[d].id
        invariant AllHealthy(bucket.levels, bucket.model) && Marked(bucket.model) == old(Marked(bucket.model))
        invariant fresh(bucket.Repr - old(bucket.Repr)) && old(bucket.Repr) <= bucket.Repr
      {
        n := ChildOnPath(n, d);
      }
    }

    method PathRoot() returns (n: Node)
      requires Valid() && bucket.Valid() && OnLeaf() && AllHealthy(bucket.levels, bucket.model)
      modifies bucket`nodes, bucket`model, bucket`Repr
      ensures bucket.Valid() && bucket.Has(n) && n.id == stack[0].id
      ensures AllHealthy(bucket.levels, bucket.model) && Marked(bucket.model) == old(Marked(bucket.model))
      ensures fresh(bucket.Repr - old(bucket.Repr)) && old(bucket.Repr) <= bucket.Repr
    {
      RootRef();
      var root := stack[0].node;
      if root != null {
        n := root;
      } else {
        n := bucket.RootNode();
      }
    }

    lemma {:induction false} RootRef()
      requires Valid() && stack != []
      ensures stack[0].id == bucket.root
      ensures stack[0].node != null ==> bucket.Has(stack[0].node) && stack[0].node.id == stack[0].id
    {
      RefIs(0);
      assert RefOk(stack[0]) && Steps.Open(0);
    }

    method ChildOnPath(n: Node, d: nat) returns (c: Node)
      requires bucket.Valid() && Path(bucket.levels, stack, pos) && d + 1 < |stack|
      requires bucket.Has(n) && n.id == stack[d].id && AllHealthy(bucket.levels, bucket.model)
      modifies bucket`nodes, bucket`model, bucket`Repr, bucket.Repr
      ensures bucket.Valid() && bucket.Has(c) && c.id == stack[d + 1].id
      ensures AllHealthy(bucket.levels, bucket.model) && Marked(bucket.model) == old(Marked(bucket.model))
      ensures fresh(bucket.Repr - old(bucket.Repr)) && old(bucket.Repr) <= bucket.Repr
    {
      ghost var lv, k := bucket.levels, Height(bucket.levels, d);
      assert HopAt(lv, stack, pos, d) && HopAt(lv, stack, pos, d + 1);
      ViewOf(bucket, k, pos[d]);
      ghost var j := PlaceEntry(lv, k, pos[d], stack[d].index);
      assert bucket.CachedAt(n.id);
      c := bucket.HealthyChildAt(n, stack[d].index);
    }
  }

  /** The binary search of searchNode and searchPage. exact is set when the key is met on the way,
      which happens exactly if the entry that is found has it. */
  method BranchIndex(xs: seq<Inode>, key: Key) returns (index: nat)
    requires Asc(xs)
    ensures index == ChildIndex(xs, key)
  {
    var exact := false;
    var i, j := 0, |xs|;
    while i < j
      invariant 0 <= i <= j <= |xs|
      invariant forall m :: 0 <= m < i ==> Lt(xs[m].key, key)
      invariant forall m :: j <= m < |xs| ==> !Lt(xs[m].key, key)
      invariant exact <==> j < |xs| && xs[j].key == key
    {
      var h := (i + j) / 2;
      var c := Compare(xs[h].key, key);
      if c == 0 {
        exact := true;
      }
      if c == -1 {
        i := h + 1;
      } else {
        assert j < |xs| ==> Lt(xs[h].key, xs[j].key);
        RankInjective(xs[h].key, key);
        j := h;
      }
    }
    SearchIs(xs, key, i);
    index := i;
    if !exact && index > 0 {
      index := index - 1;
    }
  }

  /** The last empty leaf up to j, if there is one, is the one before j or an earlier one. */
  lemma {:induction false} TailIs(l: Level, j: nat)
    requires TailStart(l) <= j <= |l| && j > 0
    ensures if l[j - 1].inodes == [] then TailStart(l) == j else TailStart(l) <= j - 1
    ensures Off(l, j) <= |Flat(l)| && (j == |l| ==> Off(l, j) == |Flat(l)|)
  {
    OffMono(l, j, |l|);
    assert l[..|l|] == l;
    if j < |l| && l[|l| - 1].inodes != [] {
      TailIs(l[..|l| - 1], j);
    }
  }

  lemma {:induction false} LeafBefore(l: Level, j: nat)
    requires TailStart(l) <= j <= |l|
    ensures if j == 0 then Off(l, j) == 0 && TailStart(l) == 0
            else && (if l[j - 1].inodes == [] then TailStart(l) == j else TailStart(l) <= j - 1)
                 && Off(l, j) == Off(l, j - 1) + |l[j - 1].inodes|
  {
    if j == 0 {
      assert l[..0] == [];
    } else {
      TailIs(l, j);
      FlatSplit(l, j - 1);
    }
  }

  /** No entry comes before an empty leaf. */
  ghost predicate EmptyFirst(l: Level)
  {
    forall i, j :: 0 <= i < j < |l| && l[j].inodes == [] ==> l[i].inodes == []
  }

  lemma {:induction false} FlatEmpty(l: Level)
    ensures Flat(l) == [] <==> forall i :: 0 <= i < |l| ==> l[i].inodes == []
  {
    if i :| 0 <= i < |l| && l[i].inodes != [] {
      FlatSplit(l, i);
    } else if l != [] {
      FlatEmpty(l[1..]);
      FlatSplit(l, 0);
      assert l[..0] == [];
    }
  }

  lemma {:induction false} EmptyTail(l: Level)
    ensures |Flat(l[..TailStart(l)])| == 0 <==> EmptyFirst(l)
  {
    if l != [] {
      var n := |l| - 1;
      if l[n].inodes == [] {
        assert l[..|l|] == l;
        FlatEmpty(l);
      } else {
        EmptyTail(l[..n]);
        assert l[..n][..TailStart(l)] == l[..TailStart(l)];
        assert EmptyFirst(l) <==> EmptyFirst(l[..n]);
      }
    }
  }

  /** A backward scan sees everything exactly if no entry comes before an empty leaf. */
  lemma {:induction false} BackwardComplete(lv: Stack)
    requires |lv| > 0 && AfterEmpty(lv) <= |Contents(lv)|
    ensures Reversed(Contents(lv)[AfterEmpty(lv)..]) == Reversed(Contents(lv)) <==> EmptyFirst(lv[0])
  {
    ReversedLength(Contents(lv));
    ReversedLength(Contents(lv)[AfterEmpty(lv)..]);
    EmptyTail(lv[0]);
    if AfterEmpty(lv) == 0 {
      assert Contents(lv)[0..] == Contents(lv);
    }
  }

  lemma {:induction false} ReversedLength<T>(s: seq<T>)
    ensures |Reversed(s)| == |s|
  {
    if s != [] {
      ReversedLength(s[..|s| - 1]);
    }
  }

  ghost function Reversed<T>(s: seq<T>): seq<T>
  {
    if s == [] then [] else [s[|s| - 1]] + Reversed(s[..|s| - 1])
  }

  lemma {:induction false} ReversedCons<T>(x: T, s: seq<T>)
    ensures Reversed([x] + s) == Reversed(s) + [x]
  {
    if s != [] {
      ReversedCons(x, s[..|s| - 1]);
      assert ([x] + s)[..|s|] == [x] + s[..|s| - 1];
    }
  }

  lemma {:induction false} ReversedAfter<T>(c: seq<T>, p: nat)
    requires 0 < p <= |c|
    ensures Reversed(c[p - 1..]) == Reversed(c[p..]) + [c[p - 1]]
  {
    assert c[p - 1..] == [c[p - 1]] + c[p..];
    ReversedCons(c[p - 1], c[p..]);
  }

  /** The leaf after the last empty one. */
  ghost function TailStart(l: Level): (r: nat)
    ensures r <= |l|
  {
    if l == [] then 0 else if l[|l| - 1].inodes == [] then |l| else TailStart(l[..|l| - 1])
  }

  /** The entry that comes first after the last empty leaf. */
  ghost function AfterEmpty(lv: Stack): nat
    requires |lv| > 0
  {
    Off(lv[0], TailStart(lv[0]))
  }

  /** The path after moving back at depth i and then down along last entries. */
  ghost predicate MovedBack(lv: Stack, refs: seq<ElemRef>, pos: seq<nat>, refs': seq<ElemRef>, pos': seq<nat>, i: nat)
    requires Path(lv, refs', pos')
  {
    && |refs| == |refs'| == |pos| == |lv| && i < |refs| && pos'[i] == pos[i]
    && refs'[i].index == refs[i].index - 1 && (forall d :: i < d < |refs| ==> refs[d].index <= 0)
    && forall d {:trigger HopAt(lv, refs', pos', d)} :: i < d < |refs| ==>
      HopAt(lv, refs', pos', d) && refs'[d].index == |lv[Height(lv, d)][pos'[d]].inodes| - 1
  }

  lemma {:induction false} PrevNodes(lv: Stack, refs: seq<ElemRef>, pos: seq<nat>, refs': seq<ElemRef>, pos': seq<nat>,
                                     i: nat, d: nat)
    requires WF(lv) && Path(lv, refs, pos) && Path(lv, refs', pos') && MovedBack(lv, refs, pos, refs', pos', i)
    requires i < d < |refs|
    ensures pos[d] == pos'[d] + 1
    decreases d
  {
    assert HopAt(lv, refs, pos, d - 1) && HopAt(lv, refs', pos', d - 1);
    if i + 1 < d {
      PrevNodes(lv, refs, pos, refs', pos', i, d - 1);
      FlatSplit(lv[Height(lv, d - 1)], pos'[d - 1]);
    }
  }

  lemma {:induction false} Back(lv: Stack, refs: seq<ElemRef>, pos: seq<nat>, refs': seq<ElemRef>, pos': seq<nat>,
                                i: nat)
    requires WF(lv) && Path(lv, refs, pos) && Path(lv, refs', pos') && MovedBack(lv, refs, pos, refs', pos', i)
    ensures var D := |lv| - 1;
            && pos[D] < |lv[0]| && pos'[D] < |lv[0]|
            && (i == D ==> pos'[D] == pos[D] && refs'[D].index == refs[D].index - 1)
            && (i < D ==> pos[D] == pos'[D] + 1 && refs'[D].index == |lv[0][pos'[D]].inodes| - 1)
  {
    var D := |lv| - 1;
    assert HopAt(lv, refs, pos, D) && HopAt(lv, refs', pos', D);
    if i < D {
      PrevNodes(lv, refs, pos, refs', pos', i, D);
    }
  }

  /** When nothing is past the first entry of its node the path leads to the first leaf. */
  lemma {:induction false} FirstLeafBack(lv: Stack, refs: seq<ElemRef>, pos: seq<nat>, d: nat)
    requires Path(lv, refs, pos) && d < |refs| && forall e :: 0 <= e < |refs| ==> refs[e].index <= 0
    ensures pos[d] == 0
    decreases d
  {
    if d > 0 {
      FirstLeafBack(lv, refs, pos, d - 1);
      assert HopAt(lv, refs, pos, d - 1);
      assert lv[Height(lv, d - 1)][..0] == [];
    }
  }

  /** Down along first entries is the first leaf. */
  lemma {:induction false} FirstLeaf(lv: Stack, refs: seq<ElemRef>, pos: seq<nat>, d: nat)
    requires Path(lv, refs, pos) && d < |refs| && forall e :: 0 <= e < |refs| ==> refs[e].index == 0
    ensures pos[d] == 0
    decreases d
  {
    if d > 0 {
      FirstLeaf(lv, refs, pos, d - 1);
      assert HopAt(lv, refs, pos, d - 1);
      assert lv[Height(lv, d - 1)][..0] == [];
    }
  }

  /** Where the cursor is after moving on, by flat position. */
  lemma {:induction false} Moved(lv: Stack, refs: seq<ElemRef>, pos: seq<nat>, refs': seq<ElemRef>, pos': seq<nat>,
                                 i: nat)
    requires WF(lv) && Path(lv, refs, pos) && Path(lv, refs', pos') && Advanced(refs, pos, refs', pos', i)
    requires AtEnd(lv, refs, pos, i) && |refs| == |lv|
    ensures var D := |lv| - 1;
            && pos[D] < |lv[0]| && pos'[D] < |lv[0]|
            && (i == D ==> pos'[D] == pos[D] && refs'[D].index == refs[D].index + 1)
            && (i < D ==> pos'[D] == pos[D] + 1 && refs'[D].index == 0 && refs[D].index >= |lv[0][pos[D]].inodes| - 1)
            && (i < D ==> Off(lv[0], pos'[D]) == Off(lv[0], pos[D]) + |lv[0][pos[D]].inodes|)
  {
    var D := |lv| - 1;
    assert HopAt(lv, refs, pos, D) && HopAt(lv, refs', pos', D);
    if i < D {
      NextNodes(lv, refs, pos, refs', pos', i, D);
      FlatSplit(lv[0], pos[D]);
    } else {
      assert pos'[..i + 1][i] == pos[..i + 1][i];
    }
  }
}
