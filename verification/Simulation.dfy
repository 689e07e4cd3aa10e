/** A bucket behaves as a map from keys to values, whatever is put and deleted in a transaction. */
module Simulation {
  import opened Options
  import opened Bytes
  import opened Pgids
  import opened Levels
  import opened Tree
  import opened Arena
  import opened Paths
  import opened Buckets
  import opened Updates

  type Value = seq<Byte>

  /** The map that a bucket without nested buckets stands for. */
  ghost function AsMap(c: seq<Inode>): map<Key, Value>
  {
    if c == [] then map[] else AsMap(c[..|c| - 1])[c[|c| - 1].key := c[|c| - 1].value]
  }

  ghost predicate Plain(c: seq<Inode>)
  {
    forall x :: x in c ==> !IsBucket(x)
  }

  lemma {:induction false} MapHas(c: seq<Inode>, key: Key)
    requires Asc(c)
    ensures key in AsMap(c) <==> exists x :: x in c && x.key == key
    ensures forall x :: x in c && x.key == key ==> AsMap(c)[key] == x.value
  {
    if c != [] {
      var d, z := c[..|c| - 1], c[|c| - 1];
      MapHas(d, key);
      assert forall x :: x in c <==> x in d || x == z;
      forall x | x in d ensures x.key != z.key {
        var i :| 0 <= i < |d| && d[i] == x;
        assert Lt(c[i].key, c[|c| - 1].key);
      }
    }
  }

  lemma {:induction false} FoundIs(c: seq<Inode>, key: Key)
    requires Asc(c)
    ensures Found(c, key) <==> exists x :: x in c && x.key == key
    ensures Found(c, key) ==> c[Search(c, key)] in c
  {
    if exists x :: x in c && x.key == key {
      var x :| x in c && x.key == key;
      var i :| 0 <= i < |c| && c[i] == x;
      SearchAt(c, i);
    }
  }

  lemma {:induction false} ReplaceMembers(c: seq<Inode>, s: nat, x: Inode, z: Inode)
    requires Asc(c) && s < |c| && c[s].key == x.key
    ensures z in c[s := x] <==> z == x || (z in c && z.key != x.key)
  {
    var r := c[s := x];
    assert r[s] == x;
    if z in c {
      var i :| 0 <= i < |c| && c[i] == z;
      SearchAt(c, i);
      SearchAt(c, s);
      assert i != s ==> r[i] == z;
    }
    if z in r {
      var i :| 0 <= i < |r| && r[i] == z;
      SearchAt(c, i);
      SearchAt(c, s);
      assert i != s ==> c[i] == z;
    }
  }

  lemma {:induction false} PutMembers(c: seq<Inode>, x: Inode, z: Inode)
    requires Asc(c)
    ensures z in PutInode(c, x.key, x) <==> z == x || (z in c && z.key != x.key)
  {
    var s := Search(c, x.key);
    FoundIs(c, x.key);
    if Found(c, x.key) {
      ReplaceMembers(c, s, x, z);
    } else {
      assert c == c[..s] + c[s..];
    }
  }

  lemma {:induction false} RemoveIs(c: seq<Inode>, s: nat)
    requires s < |c|
    ensures |RemoveAt(c, s)| == |c| - 1
    ensures forall i :: 0 <= i < |c| - 1 ==> RemoveAt(c, s)[i] == c[if i < s then i else i + 1]
  {
  }

  lemma {:induction false} RemoveMembers(c: seq<Inode>, s: nat, z: Inode)
    requires Asc(c) && s < |c|
    ensures z in RemoveAt(c, s) <==> z in c && z.key != c[s].key
  {
    RemoveIs(c, s);
    SearchAt(c, s);
    if z in c {
      var i :| 0 <= i < |c| && c[i] == z;
      SearchAt(c, i);
      assert i != s ==> RemoveAt(c, s)[if i < s then i else i - 1] == z;
    }
    if z in RemoveAt(c, s) {
      var i :| 0 <= i < |c| - 1 && RemoveAt(c, s)[i] == z;
      SearchAt(c, if i < s then i else i + 1);
    }
  }

  lemma {:induction false} DelMembers(c: seq<Inode>, key: Key, z: Inode)
    requires Asc(c)
    ensures z in DelInode(c, key) <==> z in c && z.key != key
  {
    FoundIs(c, key);
    if Found(c, key) {
      RemoveMembers(c, Search(c, key), z);
    }
  }

  lemma {:induction false} DelAsc(c: seq<Inode>, key: Key)
    requires Asc(c)
    ensures Asc(DelInode(c, key))
  {
    if Found(c, key) {
      RemoveIs(c, Search(c, key));
    }
  }

  /** Putting an entry updates the map. */
  lemma {:induction false} PutMap(c: seq<Inode>, x: Inode)
    requires Asc(c)
    ensures Asc(PutInode(c, x.key, x)) && AsMap(PutInode(c, x.key, x)) == AsMap(c)[x.key := x.value]
    ensures Plain(c) && !IsBucket(x) ==> Plain(PutInode(c, x.key, x))
  {
    var r := PutInode(c, x.key, x);
    PutAsc(c, x);
    forall key ensures key in AsMap(r) <==> key in AsMap(c)[x.key := x.value] {
      MapHas(c, key);
      MapHas(r, key);
      PutKey(c, x, key);
    }
    forall key | key in AsMap(r) ensures AsMap(r)[key] == AsMap(c)[x.key := x.value][key] {
      MapHas(c, key);
      MapHas(r, key);
      var z :| z in r && z.key == key;
      PutMembers(c, x, z);
    }
    forall z | z in r ensures z == x || z in c {
      PutMembers(c, x, z);
    }
  }

  lemma {:induction false} PutKey(c: seq<Inode>, x: Inode, key: Key)
    requires Asc(c)
    ensures (exists z :: z in PutInode(c, x.key, x) && z.key == key) <==>
      key == x.key || exists z :: z in c && z.key == key
  {
    PutMembers(c, x, x);
    if z :| z in PutInode(c, x.key, x) && z.key == key {
      PutMembers(c, x, z);
    }
    if z :| z in c && z.key == key {
      PutMembers(c, x, z);
    }
  }

  /** Deleting a key removes it from the map. */
  lemma {:induction false} DelMap(c: seq<Inode>, key: Key)
    requires Asc(c)
    ensures Asc(DelInode(c, key)) && AsMap(DelInode(c, key)) == AsMap(c) - {key}
    ensures Plain(c) ==> Plain(DelInode(c, key))
  {
    var r := DelInode(c, key);
    DelAsc(c, key);
    forall k ensures k in AsMap(r) <==> k in AsMap(c) && k != key {
      MapHas(c, k);
      MapHas(r, k);
      DelKey(c, key, k);
    }
    forall k | k in AsMap(r) ensures AsMap(r)[k] == AsMap(c)[k] {
      MapHas(c, k);
      MapHas(r, k);
      var z :| z in r && z.key == k;
      DelMembers(c, key, z);
    }
    forall z | z in r ensures z in c {
      DelMembers(c, key, z);
    }
  }

  lemma {:induction false} DelKey(c: seq<Inode>, key: Key, k: Key)
    requires Asc(c)
    ensures (exists z :: z in DelInode(c, key) && z.key == k) <==> k != key && exists z :: z in c && z.key == k
  {
    if z :| z in DelInode(c, key) && z.key == k {
      DelMembers(c, key, z);
    }
    if z :| z in c && z.key == k {
      DelMembers(c, key, z);
    }
  }

  // ---- sequences of operations ----

  datatype Op = PutOp(key: Key, value: Value) | DeleteOp(key: Key) | GetOp(key: Key)

  /** The reference: an in-memory map. */
  ghost function Model(m: map<Key, Value>, op: Op): map<Key, Value>
  {
    match op
    case PutOp(key, value) =>
      if 0 < |key| <= 32768 && |value| <= 0x7FFF_FFFE then m[key := value] else m
    case DeleteOp(key) => m - {key}
    case GetOp(key) => m
  }

  ghost function ModelAll(m: map<Key, Value>, ops: seq<Op>): map<Key, Value>
  {
    if ops == [] then m else Model(ModelAll(m, ops[..|ops| - 1]), ops[|ops| - 1])
  }

  ghost function Lookup(m: map<Key, Value>, key: Key): Option<Value>
  {
    if key in m then Some(m[key]) else None
  }

  /** What each operation of a sequence answers. */
  ghost predicate Answers(m: map<Key, Value>, ops: seq<Op>, results: seq<Option<Value>>)
  {
    && |results| == |ops|
    && forall i :: 0 <= i < |ops| ==>
      results[i] == if ops[i].GetOp? then Lookup(ModelAll(m, ops[..i]), ops[i].key) else None
  }

  ghost predicate PlainBucket(b: Bucket)
    reads b, b.nodes.Values
  {
    Putting(b) && Asc(Contents(b.levels)) && Plain(Contents(b.levels))
  }

  method Perform(b: Bucket, tx: Tx, op: Op) returns (r: Option<Value>)
    requires PlainBucket(b) && tx.Writing? && tx.highWater > 0
    modifies b`nodes, b`model, b`levels, b`Repr, b.Repr
    ensures PlainBucket(b) && fresh(b.Repr - old(b.Repr)) && old(b.Repr) <= b.Repr
      && Ids(b.levels) == old(Ids(b.levels))
    ensures AsMap(Contents(b.levels)) == Model(old(AsMap(Contents(b.levels))), op)
    ensures r == if op.GetOp? then Lookup(AsMap(Contents(b.levels)), op.key) else None
  {
    r := None;
    match op
    case PutOp(key, value) =>
      PerformPut(b, tx, key, value);
    case DeleteOp(key) =>
      PerformDelete(b, tx, key);
    case GetOp(key) =>
      r := PerformGet(b, key);
  }

  method PerformPut(b: Bucket, tx: Tx, key: Key, value: Value)
    requires PlainBucket(b) && tx.Writing? && tx.highWater > 0
    modifies b`nodes, b`model, b`levels, b`Repr, b.Repr
    ensures PlainBucket(b) && fresh(b.Repr - old(b.Repr)) && old(b.Repr) <= b.Repr
      && Ids(b.levels) == old(Ids(b.levels))
    ensures AsMap(Contents(b.levels)) == Model(old(AsMap(Contents(b.levels))), PutOp(key, value))
  {
    ghost var c := Contents(b.levels);
    FoundIs(c, key);
    PutMap(c, NewEntry(key, value));
    var error := Put(b, tx, key, value);
    assert error != Some(IncompatibleValue);
  }

  method PerformDelete(b: Bucket, tx: Tx, key: Key)
    requires PlainBucket(b) && tx.Writing?
    modifies b`nodes, b`model, b`levels, b`Repr, b.Repr
    ensures PlainBucket(b) && fresh(b.Repr - old(b.Repr)) && old(b.Repr) <= b.Repr
      && Ids(b.levels) == old(Ids(b.levels))
    ensures AsMap(Contents(b.levels)) == old(AsMap(Contents(b.levels))) - {key}
  {
    DelMap(Contents(b.levels), key);
    NoLanding(b, key);
    var error, _ := Delete(b, tx, key);
    assert error == None;
  }

  method PerformGet(b: Bucket, key: Key) returns (r: Option<Value>)
    requires PlainBucket(b)
    ensures r == Lookup(AsMap(Contents(b.levels)), key)
  {
    FoundIs(Contents(b.levels), key);
    MapHas(Contents(b.levels), key);
    r := Get(b, key);
  }

  /** Without nested buckets a deletion never lands on one. */
  lemma {:induction false} NoLanding(b: Bucket, key: Key)
    requires PlainBucket(b)
    ensures !LandsOnBucket(b.levels, key)
  {
    if j: nat :| LeafFor(b.levels, key, j) {
      LeafEntries(b.levels[0]);
    }
  }

  lemma {:induction false} LeafEntries(l: Level)
    ensures forall j, x :: 0 <= j < |l| && x in l[j].inodes ==> x in Flat(l)
  {
    forall j, x | 0 <= j < |l| && x in l[j].inodes ensures x in Flat(l) {
      FlatSplit(l, j);
    }
  }

  /** Any sequence of puts, deletes and gets answers as the map would, and leaves what the map holds. */
  method PerformAll(b: Bucket, tx: Tx, ops: seq<Op>) returns (results: seq<Option<Value>>)
    requires PlainBucket(b) && tx.Writing? && tx.highWater > 0
    modifies b`nodes, b`model, b`levels, b`Repr, b.Repr
    ensures PlainBucket(b) && fresh(b.Repr - old(b.Repr)) && Ids(b.levels) == old(Ids(b.levels))
    ensures AsMap(Contents(b.levels)) == ModelAll(old(AsMap(Contents(b.levels))), ops)
    ensures Answers(old(AsMap(Contents(b.levels))), ops, results)
  {
    results := [];
    ghost var m := AsMap(Contents(b.levels));
    for i := 0 to |ops|
      invariant PlainBucket(b) && fresh(b.Repr - old(b.Repr)) && old(b.Repr) <= b.Repr
        && Ids(b.levels) == old(Ids(b.levels))
      invariant AsMap(Contents(b.levels)) == ModelAll(m, ops[..i]) && Answers(m, ops[..i], results)
    {
      var r := Perform(b, tx, ops[i]);
      AnswersNext(m, ops, i, results, r);
      results := results + [r];
    }
    assert ops[..|ops|] == ops;
  }

  lemma {:induction false} AnswersNext(m: map<Key, Value>, ops: seq<Op>, i: nat, results: seq<Option<Value>>,
                                       r: Option<Value>)
    requires i < |ops| && Answers(m, ops[..i], results)
    requires r == if ops[i].GetOp? then Lookup(ModelAll(m, ops[..i]), ops[i].key) else None
    ensures ModelAll(m, ops[..i + 1]) == Model(ModelAll(m, ops[..i]), ops[i])
    ensures Answers(m, ops[..i + 1], results + [r])
  {
    assert ops[..i + 1][..i] == ops[..i];
    assert forall k :: 0 <= k < i ==> ops[..i + 1][..k] == ops[..i][..k];
  }
}
