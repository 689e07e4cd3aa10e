/** Reading and changing single keys of a bucket in a write transaction. */
module Updates {
  import opened Options
  import opened Bytes
  import opened Pgids
  import opened Levels
  import opened Tree
  import opened Arena
  import opened Steps
  import opened Paths
  import opened Buckets
  import opened Cursors

  const MAX_KEY_SIZE := 32768
  const MAX_VALUE_SIZE := 0x7FFF_FFFE

  /** bucketLeafFlag: the entry is a nested bucket. */
  predicate IsBucket(x: Inode)
  {
    x.flags % 2 == 1
  }

  // ---- a cached leaf gets other entries ----

  /** Leaf j of the tree is cached as n, and xs may replace its entries. */
  ghost predicate Fitting(a: Nodes, pages: Pages, lv: Stack, n: Pgid, j: nat, xs: seq<Inode>)
  {
    && Tied(a, pages, lv) && n in a && j < |lv[0]| && lv[0][j].id == n && Pointless(xs)
    && Asc(xs) && |Seps(lv, 0)| == |lv[0]| && Within(Seps(lv, 0), j, xs)
    && (|lv| > 1 && j > 0 ==> |Flat(lv[1])| > j && forall i :: 0 <= i < |xs| ==> Le(Flat(lv[1])[j].key, xs[i].key))
  }

  lemma {:induction false} SetShown(a: Nodes, pages: Pages, lv: Stack, n: Pgid, j: nat, xs: seq<Inode>, m: bool)
    requires Fitting(a, pages, lv, n, j, xs)
    ensures ShownAll(SetEntries(a, n, xs, m), pages, SetLeaf(lv, j, xs))
    ensures Strict(SetEntries(a, n, xs, m), pages, SetLeaf(lv, j, xs))
  {
    var a': Nodes, lv': Stack := SetEntries(a, n, xs, m), SetLeaf(lv, j, xs);
    forall k, i | 0 <= k < |lv'| && 0 <= i < |lv'[k]| ensures ShownAt(a', pages, lv', k, i) {
      assert ShownAt(a, pages, lv, k, i);
      Differ(lv, k, i, 0, j);
    }
    forall k, i | 0 < k < |lv'| && 0 <= i < |lv'[k]| ensures StrictAt(a', pages, lv', k, i) {
      assert StrictAt(a, pages, lv, k, i);
      assert forall e :: 0 <= e < |lv[k][i].inodes| ==> EntryStrict(a, pages, lv[k][i].inodes[e]);
    }
  }

  lemma {:induction false} SetLinks(a: Nodes, pages: Pages, lv: Stack, n: Pgid, j: nat, xs: seq<Inode>, m: bool)
    requires Fitting(a, pages, lv, n, j, xs)
    ensures Linked(SetEntries(a, n, xs, m), Root(lv).id) && Listed(SetEntries(a, n, xs, m))
  {
    var a' := SetEntries(a, n, xs, m);
    ShownIs(a, pages, lv, 0, j, n);
    forall id | id in a' ensures LinkOk(a', Root(lv).id, id) && ListOk(a', id) {
      assert LinkOk(a, Root(lv).id, id) && ListOk(a, id);
      if id != Root(lv).id {
        var k, i, q, e := PlaceChild(a, pages, lv, id);
      }
    }
  }

  lemma {:induction false} SetPointless(lv: Stack, j: nat, xs: seq<Inode>)
    requires WF(lv) && LeafPgids(lv) && j < |lv[0]| && Pointless(xs)
    ensures Ids(SetLeaf(lv, j, xs)) == Ids(lv) && LeafPgids(SetLeaf(lv, j, xs))
  {
    var lv' := SetLeaf(lv, j, xs);
    FlatSet(lv[0], j, xs);
    FlatSplit(lv[0], j);
    forall id | id in Ids(lv) ensures id in Ids(lv') {
      var k, i := InIds(lv, id);
      IdsIn(lv', k, i);
    }
    forall id | id in Ids(lv') ensures id in Ids(lv) {
      var k, i := InIds(lv', id);
      IdsIn(lv, k, i);
    }
    var f, f' := Flat(lv[0]), Flat(lv'[0]);
    var b, c := |Flat(lv[0][..j])|, |lv[0][j].inodes|;
    forall i | 0 <= i < |f'| ensures f'[i].pgid == 0 {
      assert f'[i] == if i < b then f[i] else if i < b + |xs| then xs[i - b] else f[i - |xs| + c];
    }
  }

  lemma {:induction false} SetTied(a: Nodes, pages: Pages, lv: Stack, n: Pgid, j: nat, xs: seq<Inode>, m: bool)
    requires Fitting(a, pages, lv, n, j, xs)
    ensures Tied(SetEntries(a, n, xs, m), pages, SetLeaf(lv, j, xs))
    ensures Root(SetLeaf(lv, j, xs)).id == Root(lv).id && Ids(SetLeaf(lv, j, xs)) == Ids(lv)
    ensures Contents(SetLeaf(lv, j, xs)) == Flat(lv[0][..j]) + xs + Flat(lv[0][j + 1..])
  {
    SetLeafWF(lv, j, xs);
    SetShown(a, pages, lv, n, j, xs, m);
    SetLinks(a, pages, lv, n, j, xs, m);
    SetPointless(lv, j, xs);
  }

  lemma {:induction false} SetHealth(a: Nodes, lv: Stack, n: Pgid, j: nat, xs: seq<Inode>, m: bool)
    requires WF(lv) && AllHealthy(lv, a) && n in a && j < |lv[0]| && lv[0][j].id == n
    requires xs == [] ==> m || lv[0][j].inodes == []
    requires a[n].unbalanced ==> m
    ensures AllHealthy(SetLeaf(lv, j, xs), SetEntries(a, n, xs, m))
  {
    var a': Nodes, lv': Stack := SetEntries(a, n, xs, m), SetLeaf(lv, j, xs);
    forall k, i | 0 <= k < |lv'| && 0 <= i < |lv'[k]| ensures Healthy(lv', a', k, i) {
      assert Healthy(lv, a, k, i) && Healthy(lv, a, 0, j);
      Differ(lv, k, i, 0, j);
    }
  }

  /** What the cursor found holds for the key in the tree, and the leaf can take the change. */
  lemma {:induction false} PutStep(a: Nodes, pages: Pages, lv: Stack, n: Pgid, j: nat, x: Inode)
    requires InStep(a, pages, lv) && AllHealthy(lv, a) && Tight(lv) && |lv| > 0 && Belongs(lv, 0, j, x.key)
      && lv[0][j].id == n
    requires n in a && x.pgid == 0
    ensures a[n].inodes == lv[0][j].inodes
    ensures var xs := PutInode(a[n].inodes, x.key, x);
            var a', lv' := SetEntries(a, n, xs, a[n].unbalanced), SetLeaf(lv, j, xs);
            && InStep(a', pages, lv') && AllHealthy(lv', a') && Tight(lv') && RootId(lv') == RootId(lv)
              && Ids(lv') == Ids(lv)
            && Contents(lv') == PutInode(Contents(lv), x.key, x)
  {
    Unfold(a, pages, lv);
    ShownIs(a, pages, lv, 0, j, n);
    var y, xs := lv[0][j].inodes, PutInode(lv[0][j].inodes, x.key, x);
    assert LevelOk(lv, 0);
    PutFits(lv, j, xs, x);
    PutAsc(y, x);
    LeafPointless(lv, j);
    SetTied(a, pages, lv, n, j, xs, a[n].unbalanced);
    SetHealth(a, lv, n, j, xs, a[n].unbalanced);
    SetLeafTight(lv, j, xs);
    PutContents(lv, j, x);
  }

  lemma {:induction false} LeafPointless(lv: Stack, j: nat)
    requires WF(lv) && LeafPgids(lv) && j < |lv[0]|
    ensures Pointless(lv[0][j].inodes)
  {
    DistinctEntries(lv, 0, j);
  }

  lemma {:induction false} LeafAsc(a: Nodes, pages: Pages, lv: Stack, n: Pgid, j: nat)
    requires InStep(a, pages, lv) && n in a && |lv| > 0 && j < |lv[0]| && lv[0][j].id == n
    ensures Asc(a[n].inodes)
  {
    Unfold(a, pages, lv);
    ShownIs(a, pages, lv, 0, j, n);
    assert LevelOk(lv, 0);
  }

  lemma {:induction false} DelStep(a: Nodes, pages: Pages, lv: Stack, n: Pgid, j: nat, key: Key)
    requires InStep(a, pages, lv) && AllHealthy(lv, a) && Tight(lv) && |lv| > 0 && Belongs(lv, 0, j, key)
      && lv[0][j].id == n
    requires n in a
    ensures a[n].inodes == lv[0][j].inodes
    ensures var xs, m := DelInode(a[n].inodes, key), a[n].unbalanced || Found(a[n].inodes, key);
            var a', lv' := SetEntries(a, n, xs, m), SetLeaf(lv, j, xs);
            && InStep(a', pages, lv') && AllHealthy(lv', a') && Tight(lv') && RootId(lv') == RootId(lv)
              && Ids(lv') == Ids(lv)
            && Contents(lv') == DelInode(Contents(lv), key)
  {
    Unfold(a, pages, lv);
    ShownIs(a, pages, lv, 0, j, n);
    var y, xs, m := lv[0][j].inodes, DelInode(lv[0][j].inodes, key), a[n].unbalanced || Found(a[n].inodes, key);
    assert LevelOk(lv, 0);
    DelFits(lv, j, xs, key);
    LeafPointless(lv, j);
    assert Pointless(xs);
    SetTied(a, pages, lv, n, j, xs, m);
    SetLeafTight(lv, j, xs);
    DelContents(lv, j, key);
    SetHealth(a, lv, n, j, xs, m);
  }

  // ---- Get, Put and Delete ----

  datatype Error = TxClosed | TxNotWritable | KeyRequired | KeyTooLarge | ValueTooLarge | IncompatibleValue | Callback

  /** The transaction of a bucket. No page is at or above its high-water mark. */
  datatype Tx = Done | Reading | Writing(highWater: Pgid)

  /** A write transaction that has only put and deleted keys so far. */
  ghost predicate Putting(b: Bucket)
    reads b, b.nodes.Values
  {
    b.Valid() && AllHealthy(b.levels, b.model) && Tight(b.levels) && |b.levels| > 0
  }

  /** Get: the value under a key; None if there is none or it is a nested bucket. */
  method Get(b: Bucket, key: Key) returns (value: Option<seq<Byte>>)
    requires b.Valid()
    ensures |b.levels| > 0
    ensures var c, p := Contents(b.levels), Search(Contents(b.levels), key);
            value == if Found(c, key) && c[p].flags % 2 == 0 then Some(c[p].value) else None
  {
    var cursor := new Cursor(b);
    var r := cursor.SeekLeaf(key);
    cursor.SoughtIs(key);
    if r != None && IsBucket(r.value) {
      return None;
    }
    if r == None || r.value.key != key {
      return None;
    }
    value := Some(r.value.value);
  }

  /** What Put does: a new entry for the key, or a new value in its entry. */
  function NewEntry(key: Key, value: seq<Byte>): Inode
  {
    Inode(0, 0, key, value)
  }

  /** Put. */
  method Put(b: Bucket, tx: Tx, key: Key, value: seq<Byte>) returns (error: Option<Error>)
    requires Putting(b) && (tx.Writing? ==> tx.highWater > 0)
    modifies b`nodes, b`model, b`levels, b`Repr, b.Repr
    ensures Putting(b) && fresh(b.Repr - old(b.Repr)) && old(b.Repr) <= b.Repr && Ids(b.levels) == old(Ids(b.levels))
    ensures error == (
      if tx.Done? then Some(TxClosed)
      else if tx.Reading? then Some(TxNotWritable)
      else if key == [] then Some(KeyRequired)
      else if |key| > 32768 then Some(KeyTooLarge)
      else if |value| > 0x7FFF_FFFE then Some(ValueTooLarge)
      else if BucketAt(old(Contents(b.levels)), key) then Some(IncompatibleValue)
      else None)
    ensures Contents(b.levels) ==
      if error == None then PutInode(old(Contents(b.levels)), key, Inode(0, 0, key, value)) else old(Contents(b.levels))
  {
    if tx.Done? {
      return Some(TxClosed);
    } else if tx.Reading? {
      return Some(TxNotWritable);
    } else if |key| == 0 {
      return Some(KeyRequired);
    } else if |key| > MAX_KEY_SIZE {
      return Some(KeyTooLarge);
    } else if |value| > MAX_VALUE_SIZE {
      return Some(ValueTooLarge);
    }
    var cursor := new Cursor(b);
    var r := cursor.SeekLeaf(key);
    cursor.SoughtIs(key);
    if r != None && r.value.key == key && IsBucket(r.value) {
      return Some(IncompatibleValue);
    }
    PutHere(cursor, tx.highWater, key, value);
    error := None;
  }

  /** The entry for the key is a nested bucket. */
  ghost predicate BucketAt(c: seq<Inode>, key: Key)
  {
    Found(c, key) && c[Search(c, key)].flags % 2 == 1
  }

  method PutHere(cursor: Cursor, highWater: Pgid, key: Key, value: seq<Byte>)
    requires Putting(cursor.bucket) && cursor.Valid() && cursor.OnLeaf() && cursor.Sought(key)
    requires key != [] && highWater > 0
    modifies cursor.bucket`nodes, cursor.bucket`model, cursor.bucket`levels, cursor.bucket`Repr, cursor.bucket.Repr
    ensures Putting(cursor.bucket) && Ids(cursor.bucket.levels) == old(Ids(cursor.bucket.levels))
    ensures fresh(cursor.bucket.Repr - old(cursor.bucket.Repr)) && old(cursor.bucket.Repr) <= cursor.bucket.Repr
    ensures Contents(cursor.bucket.levels) == PutInode(old(Contents(cursor.bucket.levels)), key, NewEntry(key, value))
  {
    var b := cursor.bucket;
    ghost var j := cursor.pos[|cursor.stack| - 1];
    var n := cursor.Node();
    ghost var a, lv := b.model, b.levels;
    PutStep(a, b.pages, lv, n.id, j, NewEntry(key, value));
    LeafAsc(a, b.pages, lv, n.id, j);
    b.PutIn(n, NewEntry(key, value), highWater);
    b.levels := SetLeaf(lv, j, PutInode(a[n.id].inodes, key, NewEntry(key, value)));
    assert b.Cached();
  }

  /** Delete. It refuses if the entry at the place of the key in its leaf is a nested bucket, even if
      that entry has another key. */
  method Delete(b: Bucket, tx: Tx, key: Key) returns (error: Option<Error>, ghost j: nat)
    requires Putting(b)
    modifies b`nodes, b`model, b`levels, b`Repr, b.Repr
    ensures Putting(b) && fresh(b.Repr - old(b.Repr)) && old(b.Repr) <= b.Repr && Ids(b.levels) == old(Ids(b.levels))
    ensures error == (
      if tx.Done? then Some(TxClosed)
      else if tx.Reading? then Some(TxNotWritable)
      else if LandsOnBucket(old(b.levels), key) then Some(IncompatibleValue)
      else None)
    ensures Contents(b.levels) ==
      if error == None then DelInode(old(Contents(b.levels)), key) else old(Contents(b.levels))
    ensures error == None ==> DeletedAt(old(b.levels), b.levels, key, j)
  {
    if tx.Done? {
      return Some(TxClosed), 0;
    } else if tx.Reading? {
      return Some(TxNotWritable), 0;
    }
    var cursor, r := SeekLanding(b, key);
    if r != None && IsBucket(r.value) {
      return Some(IncompatibleValue), 0;
    }
    j := cursor.pos[|cursor.stack| - 1];
    DeleteHere(cursor, key);
    error := None;
  }

  /** A cursor at the place of the key, and the entry there. */
  method SeekLanding(b: Bucket, key: Key) returns (cursor: Cursor, r: Option<Inode>)
    requires b.Valid()
    ensures fresh(cursor) && cursor.bucket == b && cursor.Valid() && cursor.OnLeaf() && cursor.Sought(key)
    ensures r == Landing(b.levels, key)
  {
    cursor := new Cursor(b);
    r := cursor.SeekLeaf(key);
    cursor.RefIs(|cursor.stack| - 1);
    LandingIs(b.levels, key, cursor.pos[|cursor.stack| - 1]);
  }

  method DeleteHere(cursor: Cursor, key: Key)
    requires Putting(cursor.bucket) && cursor.Valid() && cursor.OnLeaf() && cursor.Sought(key)
    modifies cursor.bucket`nodes, cursor.bucket`model, cursor.bucket`levels, cursor.bucket`Repr, cursor.bucket.Repr
    ensures Putting(cursor.bucket) && Ids(cursor.bucket.levels) == old(Ids(cursor.bucket.levels))
    ensures fresh(cursor.bucket.Repr - old(cursor.bucket.Repr)) && old(cursor.bucket.Repr) <= cursor.bucket.Repr
    ensures Contents(cursor.bucket.levels) == DelInode(old(Contents(cursor.bucket.levels)), key)
    ensures DeletedAt(old(cursor.bucket.levels), cursor.bucket.levels, key, old(cursor.pos[|cursor.stack| - 1]))
  {
    var b := cursor.bucket;
    ghost var j := cursor.pos[|cursor.stack| - 1];
    var n := cursor.Node();
    ghost var a, lv := b.model, b.levels;
    DelStep(a, b.pages, lv, n.id, j, key);
    LeafAsc(a, b.pages, lv, n.id, j);
    b.DelFrom(n, key);
    b.levels := SetLeaf(lv, j, DelInode(a[n.id].inodes, key));
    assert b.Cached();
  }

  /** The leaf for a key. */
  ghost predicate LeafFor(lv: Stack, key: Key, j: nat)
  {
    |lv| > 0 && Belongs(lv, 0, j, key)
  }

  /** The tree once the key is deleted from leaf j. */
  ghost predicate DeletedAt(lv: Stack, lv': Stack, key: Key, j: nat)
  {
    LeafFor(lv, key, j) && lv' == SetLeaf(lv, j, DelInode(lv[0][j].inodes, key))
  }

  /** The entry at the place of the key in its leaf. */
  ghost function Landing(lv: Stack, key: Key): Option<Inode>
  {
    if exists j: nat :: LeafFor(lv, key, j) then
      var j: nat :| LeafFor(lv, key, j);
      var s := Search(lv[0][j].inodes, key);
      if s < |lv[0][j].inodes| then Some(lv[0][j].inodes[s]) else None
    else None
  }

  lemma {:induction false} LandingIs(lv: Stack, key: Key, j: nat)
    requires WF(lv) && LeafFor(lv, key, j)
    ensures var xs, s := lv[0][j].inodes, Search(lv[0][j].inodes, key);
            Landing(lv, key) == if s < |xs| then Some(xs[s]) else None
  {
    OneLeaf(lv, key, j);
  }

  lemma {:induction false} OneLeaf(lv: Stack, key: Key, j: nat)
    requires WF(lv) && LeafFor(lv, key, j)
    ensures forall i: nat :: LeafFor(lv, key, i) ==> i == j
  {
    forall i: nat | LeafFor(lv, key, i) ensures i == j {
      if i < j {
        LeafOrder(lv, key, i, j);
      } else if j < i {
        LeafOrder(lv, key, j, i);
      }
    }
  }

  lemma {:induction false} LeafOrder(lv: Stack, key: Key, i: nat, j: nat)
    requires WF(lv) && LeafFor(lv, key, i) && i < j < |lv[0]|
    ensures !LeafFor(lv, key, j)
  {
    SepsAsc(lv, 0);
    assert i + 1 < j ==> Lt(Seps(lv, 0)[i + 1].key, Seps(lv, 0)[j].key);
  }

  ghost predicate LandsOnBucket(lv: Stack, key: Key)
  {
    Landing(lv, key).Some? && IsBucket(Landing(lv, key).value)
  }

  /** Delete is to fail exactly for a nested bucket under that very key. It does, unless the first entry at
      or after the key in its leaf is a nested bucket under another key. */
  lemma {:induction false} DeleteAsMeant(lv: Stack, key: Key, j: nat)
    requires WF(lv) && LeafFor(lv, key, j)
    ensures (LandsOnBucket(lv, key) <==> BucketAt(Contents(lv), key))
      <==> !(LandsOnBucket(lv, key) && Landing(lv, key).value.key != key)
  {
    LandingIs(lv, key, j);
    LeafSearch(lv, j, key);
    if Search(lv[0][j].inodes, key) < |lv[0][j].inodes| {
      FlatAt(lv[0], j, Search(lv[0][j].inodes, key));
    }
  }

  const LONE: Inode := Inode(1, 0, [5], [])
  const LONE_PAGES: Pages := map[3 := Page(true, [LONE])]
  ghost const LONE_TREE: Stack := [[Rec(3, [LONE])]]

  lemma {:induction false} LoneReady()
    ensures InStep(map[], LONE_PAGES, LONE_TREE) && AllHealthy(LONE_TREE, map[]) && Tight(LONE_TREE)
    ensures RootId(LONE_TREE) == 3 && Contents(LONE_TREE) == [LONE] && !Found([LONE], [4])
    ensures LandsOnBucket(LONE_TREE, [4])
  {
    var lv := LONE_TREE;
    FlatOne(Rec(3, [LONE]));
    var c, d := Compare([], [5]), Compare([4], [5]);
    assert Seps(lv, 0) == [Inode(0, 3, [], [])];
    assert LevelOk(lv, 0);
    assert ShownAt(map[], LONE_PAGES, lv, 0, 0);
    assert Healthy(lv, map[], 0, 0);
    assert Search([LONE], [4]) == 0;
    RootBelongs(lv, [4]);
    LandingIs(lv, [4], 0);
  }

  /** A bucket on one page that holds only a nested bucket under the key 5: deleting the key 4 fails. */
  method DeleteRefusesMissingKey(tx: Tx, pageSize: nat) returns (value: Option<seq<Byte>>, error: Option<Error>)
    requires tx.Writing?
    ensures !Found([LONE], [4]) && value == None && error == Some(IncompatibleValue)
  {
    LoneReady();
    var b := new Bucket.Open(LONE_PAGES, pageSize, 3, LONE_TREE);
    value := Get(b, [4]);
    ghost var j;
    error, j := Delete(b, tx, [4]);
  }

  // ---- ForEach ----

  /** ForEach: calls the function with every entry in order, once, until a call fails. Call number failing
      is the first to fail, if there are as many. */
  method ForEach(b: Bucket, tx: Tx, failing: nat) returns (seen: seq<Inode>, error: Option<Error>)
    requires b.Valid()
    ensures |b.levels| > 0
    ensures var c := Contents(b.levels);
            if tx.Done? then seen == [] && error == Some(TxClosed)
            else if failing < |c| then seen == c[..failing + 1] && error == Some(Callback)
            else seen == c && error == None
  {
    Unfold(b.model, b.pages, b.levels);
    if tx.Done? {
      return [], Some(TxClosed);
    }
    var cursor := new Cursor(b);
    var failed;
    seen, failed := cursor.Walk(failing);
    error := if failed then Some(Callback) else None;
  }

  // ---- Last after Delete ----

  /** Deleting the only key of the last leaf makes Last find nothing, whatever else the bucket holds. */
  method LastAfterDelete(b: Bucket, tx: Tx, key: Key) returns (r: Option<Inode>)
    requires Putting(b) && tx.Writing? && OnlyInLastLeaf(b.levels, key)
    modifies b`nodes, b`model, b`levels, b`Repr, b.Repr
    ensures Putting(b) && r == None && Contents(b.levels) == DelInode(old(Contents(b.levels)), key)
  {
    ghost var a, lv := b.model, b.levels;
    OnlyLanding(a, b.pages, lv, key);
    var error, j := Delete(b, tx, key);
    Emptied(a, b.pages, lv, b.levels, key, j);
    var cursor := new Cursor(b);
    r := cursor.Last();
    assert cursor.Entries(|cursor.stack| - 1) == [];
  }

  ghost predicate OnlyInLastLeaf(lv: Stack, key: Key)
  {
    && |lv| > 0 && |lv[0]| > 0 && LeafFor(lv, key, |lv[0]| - 1) && |lv[0][|lv[0]| - 1].inodes| == 1
    && lv[0][|lv[0]| - 1].inodes[0].key == key && !IsBucket(lv[0][|lv[0]| - 1].inodes[0])
  }

  lemma {:induction false} OnlyLanding(a: Nodes, pages: Pages, lv: Stack, key: Key)
    requires InStep(a, pages, lv) && OnlyInLastLeaf(lv, key)
    ensures !LandsOnBucket(lv, key)
  {
    Unfold(a, pages, lv);
    LandingIs(lv, key, |lv[0]| - 1);
  }

  lemma {:induction false} Emptied(a: Nodes, pages: Pages, lv: Stack, lv': Stack, key: Key, j: nat)
    requires InStep(a, pages, lv) && OnlyInLastLeaf(lv, key) && DeletedAt(lv, lv', key, j)
    ensures |lv'| > 0 && |lv'[0]| == |lv[0]| && lv'[0][|lv[0]| - 1].inodes == []
  {
    Unfold(a, pages, lv);
    OneLeaf(lv, key, |lv[0]| - 1);
    SearchAt(lv[0][j].inodes, 0);
  }

  const X := NewEntry([1], [])
  const Y := NewEntry([2], [])
  const FORK: seq<Inode> := [Inode(0, 3, [1], []), Inode(0, 4, [2], [])]
  const FORK_PAGES: Pages := map[3 := Page(true, [X]), 4 := Page(true, [Y]), 5 := Page(false, FORK)]
  ghost const FORK_TREE: Stack := [[Rec(3, [X]), Rec(4, [Y])], [Rec(5, FORK)]]

  lemma {:induction false} ForkKeys()
    ensures Lt([], [1]) && Lt([1], [2])
  {
    var a, b := Compare([], [1]), Compare([1], [2]);
    assert CompareFrom([1], [2], 0) == -1;
  }

  lemma {:induction false} ForkFlat()
    ensures Flat(FORK_TREE[0]) == [X, Y] && Flat(FORK_TREE[1]) == FORK
  {
    FlatOne(Rec(5, FORK));
    FlatOne(Rec(4, [Y]));
    assert FORK_TREE[0][1..] == [Rec(4, [Y])];
  }

  lemma {:induction false} ForkSeps()
    ensures Seps(FORK_TREE, 1) == [Inode(0, 5, [], [])]
    ensures Seps(FORK_TREE, 0) == [Inode(0, 3, [], []), Inode(0, 4, [2], [])]
  {
    var f := Fenced(FORK_TREE[1], Seps(FORK_TREE, 1));
    assert f == [f[0]];
    FlatOne(f[0]);
  }

  lemma {:induction false} ForkLeaves()
    ensures LevelOk(FORK_TREE, 0)
  {
    ForkSeps();
    ForkKeys();
  }

  lemma {:induction false} OneBranch(l: Level, g: seq<Inode>)
    requires l == [Rec(5, FORK)] && g == [Inode(0, 5, [], [])]
    ensures AllAsc(l) && NoDup(l) && Filled(l) && Fits(g, l)
  {
    ForkKeys();
  }

  lemma {:induction false} ForkWF()
    ensures WF(FORK_TREE)
  {
    ForkSeps();
    OneBranch(FORK_TREE[1], Seps(FORK_TREE, 1));
    assert LevelOk(FORK_TREE, 1);
    ForkLeaves();
    assert IdsOf(FORK_TREE[0]) !! IdsOf(FORK_TREE[1]);
  }

  lemma {:induction false} ForkShown()
    ensures ShownAll(map[], FORK_PAGES, FORK_TREE) && Strict(map[], FORK_PAGES, FORK_TREE)
  {
    var lv := FORK_TREE;
    forall k, j | 0 <= k < |lv| && 0 <= j < |lv[k]| ensures ShownAt(map[], FORK_PAGES, lv, k, j) {
    }
    forall k, j | 0 < k < |lv| && 0 <= j < |lv[k]| ensures StrictAt(map[], FORK_PAGES, lv, k, j) {
      assert lv[k][j] == Rec(5, FORK);
    }
  }

  lemma {:induction false} ForkTied()
    ensures Tied(map[], FORK_PAGES, FORK_TREE)
  {
    ForkWF();
    ForkShown();
    ForkFlat();
  }

  lemma {:induction false} ForkReady()
    ensures InStep(map[], FORK_PAGES, FORK_TREE) && AllHealthy(FORK_TREE, map[]) && Tight(FORK_TREE)
    ensures RootId(FORK_TREE) == 5 && OnlyInLastLeaf(FORK_TREE, [2]) && DelInode(Contents(FORK_TREE), [2]) == [X]
  {
    ForkTied();
    ForkFlat();
    ForkSeps();
    ForkKeys();
    forall k, j | 0 <= k < |FORK_TREE| && 0 <= j < |FORK_TREE[k]| ensures Healthy(FORK_TREE, map[], k, j) {
    }
    SearchAt([X, Y], 1);
  }

  /** A bucket of two leaves on pages, with one key each. Once the second key is deleted First finds the
      first one and Last finds nothing. */
  method LastMissesEntry(tx: Tx, pageSize: nat) returns (first: Option<Inode>, last: Option<Inode>)
    requires tx.Writing?
    ensures first == Some(X) && last == None
  {
    ForkReady();
    var b := new Bucket.Open(FORK_PAGES, pageSize, 5, FORK_TREE);
    last := LastAfterDelete(b, tx, [2]);
    var cursor := new Cursor(b);
    first := cursor.First();
  }
}
