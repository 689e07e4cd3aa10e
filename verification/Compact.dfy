/** bolt compact: a database is walked and copied, key by key, into an empty one. */
module Compaction {
  import opened Options
  import opened Bytes
  import opened Updates

  /** What the walk finds in a bucket, in the order of its cursor: pairs and nested buckets. */
  datatype Item = Pair(key: Key, value: seq<Byte>) | Sub(key: Key, bucket: Source)
  datatype Source = Source(sequence: nat, items: seq<Item>)

  /** The destination: a bucket by its keys. A bucket is reached by the path of names that leads to it. */
  datatype Entry = Value(value: seq<Byte>) | Nested(bucket: Target)
  datatype Target = Target(sequence: nat, kids: map<Key, Entry>)

  /** The bucket with the same keys, values, nested buckets and sequence numbers. */
  ghost function Copied(s: Source): Target
    decreases s, 1
  {
    Target(s.sequence, CopiedItems(s, |s.items|))
  }

  ghost function CopiedItems(s: Source, n: nat): map<Key, Entry>
    requires n <= |s.items|
    decreases s, 0, n
  {
    if n == 0 then map[] else (
      var x := s.items[n - 1];
      CopiedItems(s, n - 1)[x.key := match x case Pair(_, v) => Value(v) case Sub(_, b) => Nested(Copied(b))])
  }

  ghost function CopiedItem(x: Item): Entry
  {
    match x case Pair(_, v) => Value(v) case Sub(_, b) => Nested(Copied(b))
  }

  /** A source that Bolt can hold: no key twice in a bucket or empty, and keys and values of allowed size. */
  ghost predicate Holdable(s: Source)
    decreases s
  {
    && (forall i, j :: 0 <= i < j < |s.items| ==> s.items[i].key != s.items[j].key)
    && forall i :: 0 <= i < |s.items| ==> ItemHoldable(s.items[i])
  }

  ghost predicate ItemHoldable(x: Item)
    decreases x
  {
    && x.key != []
    && match x
       case Pair(k, v) => |k| <= 32768 && |v| <= 0x7FFF_FFFE
       case Sub(_, b) => Holdable(b)
  }

  lemma {:induction false} CopiedKeys(s: Source, n: nat)
    requires n <= |s.items|
    ensures forall k :: k in CopiedItems(s, n) ==> exists i :: 0 <= i < n && s.items[i].key == k
  {
    if n > 0 {
      CopiedKeys(s, n - 1);
      forall k | k in CopiedItems(s, n) ensures exists i :: 0 <= i < n && s.items[i].key == k {
        assert k != s.items[n - 1].key ==> k in CopiedItems(s, n - 1);
      }
    }
  }

  /** Everything in a bucket is in its copy. */
  lemma {:induction false} CopiedHas(s: Source, n: nat, i: nat)
    requires Holdable(s) && i < n <= |s.items|
    ensures s.items[i].key in CopiedItems(s, n) && CopiedItems(s, n)[s.items[i].key] == CopiedItem(s.items[i])
  {
    if i < n - 1 {
      CopiedHas(s, n - 1, i);
    }
  }

  /** A copy has the sequence number of the bucket, its keys and no others, its values, and copies of the
      buckets nested in it. */
  lemma {:induction false} CopiedIs(s: Source)
    requires Holdable(s)
    ensures Copied(s).sequence == s.sequence
    ensures forall k :: k in Copied(s).kids <==> exists i :: 0 <= i < |s.items| && s.items[i].key == k
    ensures forall i :: 0 <= i < |s.items| ==>
      match s.items[i]
      case Pair(k, v) => k in Copied(s).kids && Copied(s).kids[k] == Value(v)
      case Sub(k, b) => k in Copied(s).kids && Copied(s).kids[k] == Nested(Copied(b))
  {
    CopiedKeys(s, |s.items|);
    forall i | 0 <= i < |s.items|
      ensures s.items[i].key in Copied(s).kids && Copied(s).kids[s.items[i].key] == CopiedItem(s.items[i])
    {
      CopiedHas(s, |s.items|, i);
    }
  }

  // ---- the destination ----

  /** There is a bucket at the path. */
  ghost predicate HasPath(d: Target, path: seq<Key>)
    decreases |path|
  {
    path == [] || (path[0] in d.kids && d.kids[path[0]].Nested? && HasPath(d.kids[path[0]].bucket, path[1..]))
  }

  ghost function At(d: Target, path: seq<Key>): Target
    requires HasPath(d, path)
    decreases |path|
  {
    if path == [] then d else At(d.kids[path[0]].bucket, path[1..])
  }

  /** The destination with another bucket at the path. */
  function Replace(d: Target, path: seq<Key>, b: Target): Target
    requires HasPath(d, path)
    decreases |path|
  {
    if path == [] then b
    else d.(kids := d.kids[path[0] := Nested(Replace(d.kids[path[0]].bucket, path[1..], b))])
  }

  lemma {:induction false} Replaced(d: Target, path: seq<Key>, b: Target)
    requires HasPath(d, path)
    ensures HasPath(Replace(d, path, b), path) && At(Replace(d, path, b), path) == b
    decreases |path|
  {
    if path != [] {
      Replaced(d.kids[path[0]].bucket, path[1..], b);
    }
  }

  lemma {:induction false} ReplacedTwice(d: Target, path: seq<Key>, b: Target, c: Target)
    requires HasPath(d, path)
    ensures HasPath(Replace(d, path, b), path) && Replace(Replace(d, path, b), path, c) == Replace(d, path, c)
    decreases |path|
  {
    if path != [] {
      ReplacedTwice(d.kids[path[0]].bucket, path[1..], b, c);
      var d', d'' := Replace(d, path, b), Replace(d, path, c);
      assert Replace(d', path, c).kids == d''.kids;
    }
  }

  /** The bucket at the path with one more entry. */
  ghost function With(d: Target, path: seq<Key>, k: Key, e: Entry): Target
    requires HasPath(d, path)
  {
    var b := At(d, path);
    Replace(d, path, b.(kids := b.kids[k := e]))
  }

  ghost predicate IsNested(d: Target, k: Key)
  {
    k in d.kids && d.kids[k].Nested?
  }

  lemma {:induction false} PathSplit(d: Target, path: seq<Key>, k: Key)
    requires HasPath(d, path) && IsNested(At(d, path), k)
    ensures HasPath(d, path + [k]) && At(d, path + [k]) == At(d, path).kids[k].bucket
    decreases |path|
  {
    if path != [] {
      PathSplit(d.kids[path[0]].bucket, path[1..], k);
      assert (path + [k])[1..] == path[1..] + [k];
    } else {
      assert (path + [k])[1..] == [];
    }
  }

  lemma {:induction false} ReplaceSplit(d: Target, path: seq<Key>, k: Key, b: Target)
    requires HasPath(d, path) && IsNested(At(d, path), k) && HasPath(d, path + [k])
    ensures Replace(d, path + [k], b) == With(d, path, k, Nested(b))
    decreases |path|
  {
    if path != [] {
      assert (path + [k])[1..] == path[1..] + [k];
      ReplaceSplit(d.kids[path[0]].bucket, path[1..], k, b);
    } else {
      assert (path + [k])[1..] == [];
    }
  }

  /** Adding to a bucket that was just added is adding the larger bucket. */
  lemma {:induction false} WithWithin(d: Target, path: seq<Key>, k: Key, b: Target, k2: Key, e: Entry)
    requires HasPath(d, path)
    ensures var d' := With(d, path, k, Nested(b));
            && HasPath(d', path + [k]) && At(d', path + [k]) == b
            && With(d', path + [k], k2, e) == With(d, path, k, Nested(b.(kids := b.kids[k2 := e])))
  {
    var o := At(d, path);
    var o' := o.(kids := o.kids[k := Nested(b)]);
    var b2 := b.(kids := b.kids[k2 := e]);
    Replaced(d, path, o');
    PathSplit(Replace(d, path, o'), path, k);
    ReplaceSplit(Replace(d, path, o'), path, k, b2);
    WithTwice(d, path, k, b, b2);
  }

  lemma {:induction false} WithTwice(d: Target, path: seq<Key>, k: Key, b: Target, b2: Target)
    requires HasPath(d, path)
    ensures HasPath(With(d, path, k, Nested(b)), path)
    ensures With(With(d, path, k, Nested(b)), path, k, Nested(b2)) == With(d, path, k, Nested(b2))
  {
    var o := At(d, path);
    var o', o2 := o.(kids := o.kids[k := Nested(b)]), o.(kids := o.kids[k := Nested(b2)]);
    Replaced(d, path, o');
    ReplacedTwice(d, path, o', o2);
    assert o'.kids[k := Nested(b2)] == o2.kids;
  }

  /** The database that is copied to, and the transaction that is open on it. */
  class Destination {
    const txMaxSize: int
    const commitOk: nat -> bool  // which commits succeed
    const beginOk: nat -> bool   // which transactions can begin
    var committed: Target
    var working: Target          // what the open transaction sees
    var size: int                // of the keys and values in the open transaction
    var commits: nat
    var begins: nat

    constructor (txMaxSize: int, commitOk: nat -> bool, beginOk: nat -> bool)
      ensures this.txMaxSize == txMaxSize && this.commitOk == commitOk && this.beginOk == beginOk
      ensures commits == begins == size == 0 && committed == working == Target(0, map[])
    {
      this.txMaxSize, this.commitOk, this.beginOk, size := txMaxSize, commitOk, beginOk, 0;
      commits, begins := 0, 0;
      this.committed, this.working := Target(0, map[]), Target(0, map[]);
    }

    /** Every transaction so far could begin, and every commit succeeded. */
    ghost predicate AllWorked()
      reads `commits, `begins
    {
      (forall i :: 0 <= i < commits ==> commitOk(i)) && forall i :: 0 <= i < begins ==> beginOk(i)
    }

    method Commit() returns (ok: bool)
      modifies `committed, `commits
      ensures commits == old(commits) + 1 && ok == commitOk(old(commits))
      ensures committed == if ok then working else old(committed)
    {
      ok, commits := commitOk(commits), commits + 1;
      if ok {
        committed := working;
      }
    }

    method Begin() returns (ok: bool)
      modifies `working, `begins
      ensures begins == old(begins) + 1 && ok == beginOk(old(begins))
      ensures working == if ok then committed else old(working)
    {
      ok, begins := beginOk(begins), begins + 1;
      if ok {
        working := committed;
      }
    }

    /** tx.Bucket, then Bucket name by name: the handle is looked up in the transaction that is open now. */
    method Bucket(path: seq<Key>) returns (b: Option<Target>)
      ensures b == if HasPath(working, path) then Some(At(working, path)) else None
    {
      var c := working;
      for i := 0 to |path|
        invariant HasPath(working, path) <==> HasPath(c, path[i..])
        invariant HasPath(working, path) ==> At(working, path) == At(c, path[i..])
      {
        assert path[i..][1..] == path[i + 1..];
        if path[i] !in c.kids || !c.kids[path[i]].Nested? {
          return None;
        }
        c := c.kids[path[i]].bucket;
      }
      b := Some(c);
    }

    /** CreateBucket and SetSequence. */
    method CreateBucket(path: seq<Key>, k: Key, sequence: nat) returns (ok: bool)
      requires HasPath(working, path)
      modifies `working
      ensures ok <==> k != [] && k !in old(At(working, path)).kids
      ensures working == if ok then old(With(working, path, k, Nested(Target(sequence, map[])))) else old(working)
    {
      var b := Bucket(path);
      if k == [] || k in b.value.kids {
        return false;
      }
      working := Replace(working, path, b.value.(kids := b.value.kids[k := Nested(Target(sequence, map[]))]));
      ok := true;
    }

    method Put(path: seq<Key>, k: Key, v: seq<Byte>) returns (ok: bool)
      requires HasPath(working, path)
      modifies `working
      ensures ok <==> 0 < |k| <= 32768 && |v| <= 0x7FFF_FFFE && !IsNested(old(At(working, path)), k)
      ensures working == if ok then old(With(working, path, k, Value(v))) else old(working)
    {
      var b := Bucket(path);
      if |k| == 0 || |k| > MAX_KEY_SIZE || |v| > MAX_VALUE_SIZE || (k in b.value.kids && b.value.kids[k].Nested?) {
        return false;
      }
      working := Replace(working, path, b.value.(kids := b.value.kids[k := Value(v)]));
      ok := true;
    }

    /** The callback of compact: it commits first if the transaction would become too large. v is None for a
        bucket. */
    method Found(path: seq<Key>, k: Key, v: Option<seq<Byte>>, sequence: nat) returns (ok: bool)
      requires HasPath(working, path) && k != [] && k !in At(working, path).kids
      requires v != None ==> |k| <= 32768 && |v.value| <= 0x7FFF_FFFE
      modifies this
      ensures ok ==> working == old(With(working, path, k, NewEntry(v, sequence)))
      ensures var sz := |k| + if v == None then 0 else |v.value|;
              if old(size) + sz > txMaxSize && txMaxSize != 0 then
                && commits == old(commits) + 1 && (ok ==> size == sz)
                && committed == (if commitOk(old(commits)) then old(working) else old(committed))
                && begins == old(begins) + if commitOk(old(commits)) then 1 else 0
              else unchanged(`commits) && unchanged(`committed) && unchanged(`begins) && size == old(size) + sz
      ensures commits >= old(commits) && begins >= old(begins) && (old(AllWorked()) ==> (ok <==> AllWorked()))
    {
      var sz := |k| + (if v == None then 0 else |v.value|);
      if size + sz > txMaxSize && txMaxSize != 0 {
        ok := Commit();
        if !ok {
          return;
        }
        ok := Begin();
        if !ok {
          return;
        }
        size := 0;
      }
      size := size + sz;
      if v == None {
        ok := CreateBucket(path, k, sequence);
      } else {
        ok := Put(path, k, v.value);
      }
    }

    static ghost function NewEntry(v: Option<seq<Byte>>, sequence: nat): Entry
    {
      if v == None then Nested(Target(sequence, map[])) else Value(v.value)
    }

    /** walkBucket: the callback, then for a bucket everything in it, below the longer path. */
    method WalkBucket(path: seq<Key>, x: Item, sequence: nat) returns (ok: bool)
      requires HasPath(working, path) && ItemHoldable(x) && x.key !in At(working, path).kids
      requires x.Sub? ==> sequence == x.bucket.sequence
      modifies this
      ensures ok ==> working == old(With(working, path, x.key, CopiedItem(x)))
      ensures commits >= old(commits) && begins >= old(begins) && (old(AllWorked()) ==> (ok <==> AllWorked()))
      decreases x
    {
      ok := Found(path, x.key, if x.Pair? then Some(x.value) else None, sequence);
      if !ok || x.Pair? {
        return;
      }
      ghost var d := old(working);
      var s := x.bucket;
      for i := 0 to |s.items|
        invariant working == With(d, path, x.key, Nested(Target(s.sequence, CopiedItems(s, i))))
        invariant commits >= old(commits) && begins >= old(begins) && (old(AllWorked()) ==> AllWorked())
      {
        var y := s.items[i];
        WalkReady(d, path, x.key, s, i);
        ok := WalkBucket(path + [x.key], y, if y.Sub? then y.bucket.sequence else s.sequence);
        if !ok {
          return;
        }
      }
      ok := true;
    }

    /** The first transaction; nothing is in it yet. */
    method Start() returns (ok: bool)
      modifies `working, `begins, `size
      ensures begins == old(begins) + 1 && ok == beginOk(old(begins)) && size == 0
      ensures working == if ok then committed else old(working)
    {
      ok := Begin();
      size := 0;
    }

    /** compact: walk over an empty destination, and the last commit. */
    method Compact(s: Source) returns (ok: bool)
      requires Holdable(s) && committed == Target(0, map[]) && commits == begins == 0
      modifies this
      ensures ok <==> AllWorked()
      ensures ok ==> committed == Target(0, CopiedItems(s, |s.items|))
    {
      ok := Start();
      if !ok {
        return;
      }
      for i := 0 to |s.items|
        invariant working == Target(0, CopiedItems(s, i)) && AllWorked()
      {
        var y := s.items[i];
        CopiedKeys(s, i);
        assert ItemHoldable(y);
        ok := WalkBucket([], y, if y.Sub? then y.bucket.sequence else s.sequence);
        if !ok {
          return;
        }
      }
      ok := Commit();
    }
  }

  /** The next item of a bucket that is being copied can be added. */
  lemma {:induction false} WalkReady(d: Target, path: seq<Key>, k: Key, s: Source, i: nat)
    requires HasPath(d, path) && Holdable(s) && i < |s.items|
    ensures var b := Target(s.sequence, CopiedItems(s, i));
            var d' := With(d, path, k, Nested(b));
            && HasPath(d', path + [k]) && At(d', path + [k]) == b && s.items[i].key !in b.kids
              && ItemHoldable(s.items[i])
            && With(d', path + [k], s.items[i].key, CopiedItem(s.items[i]))
               == With(d, path, k, Nested(Target(s.sequence, CopiedItems(s, i + 1))))
  {
    var b := Target(s.sequence, CopiedItems(s, i));
    CopiedKeys(s, i);
    WithWithin(d, path, k, b, s.items[i].key, CopiedItem(s.items[i]));
    assert b.kids[s.items[i].key := CopiedItem(s.items[i])] == CopiedItems(s, i + 1);
  }
}
