/** The shape of a bucket's B+tree: its nodes level by level, from the leaves (level 0) up to
    the single root. All leaves sit at the same depth because they are one level; the children
    of a level, read from left to right, are exactly the nodes of the level below. */
module Levels {
  import opened Bytes
  import opened Pgids

  /** One entry of a node: a key with a value (leaf) or with the page of a child (branch). */
  datatype Inode = Inode(flags: nat, pgid: Pgid, key: Key, value: seq<Byte>)

  /** A node of the tree, named by the page it was read from. */
  datatype Rec = Rec(id: Pgid, inodes: seq<Inode>)

  type Level = seq<Rec>

  /** The entries of a level from left to right. */
  ghost function Flat(l: Level): seq<Inode>
  {
    if l == [] then [] else Flat(l[..|l| - 1]) + l[|l| - 1].inodes
  }

  /** How many entries come before node q of the level. */
  ghost function Off(l: Level, q: nat): nat
    requires q <= |l|
  {
    |Flat(l[..q])|
  }

  ghost function RemoveAt<T>(s: seq<T>, i: nat): seq<T>
    requires i < |s|
  {
    s[..i] + s[i + 1..]
  }

  /** Entries in strictly ascending key order. */
  ghost predicate Asc(xs: seq<Inode>)
  {
    forall i, j :: 0 <= i < j < |xs| ==> Lt(xs[i].key, xs[j].key)
  }

  /** The entries xs lie where the j-th of the separators e sends a search: at or after that
      separator and before the next one. */
  ghost predicate Within(e: seq<Inode>, j: nat, xs: seq<Inode>)
    requires j < |e|
  {
    forall i :: 0 <= i < |xs| ==>
      Le(e[j].key, xs[i].key) && (j + 1 < |e| ==> Lt(xs[i].key, e[j + 1].key))
  }

  /** The level l hangs below the entries e, one node per entry. */
  ghost predicate Fits(e: seq<Inode>, l: Level)
  {
    && |e| == |l|
    && forall j :: 0 <= j < |l| ==> e[j].pgid == l[j].id && Within(e, j, l[j].inodes)
  }

  /** No key of a node comes before the key its parent stores for it, except in the leftmost
      node of a level, which takes every smaller key. */
  ghost predicate Lower(e: seq<Inode>, l: Level)
  {
    forall j, i :: 0 < j < |l| && j < |e| && 0 <= i < |l[j].inodes| ==> Le(e[j].key, l[j].inodes[i].key)
  }

  ghost predicate AllAsc(l: Level)
  {
    forall j :: 0 <= j < |l| ==> Asc(l[j].inodes)
  }

  lemma {:induction false} FlatConcat(a: Level, b: Level)
    ensures Flat(a + b) == Flat(a) + Flat(b)
    decreases |b|
  {
    if b == [] {
      assert a + b == a;
    } else {
      var b' := b[..|b| - 1];
      assert (a + b)[..|a + b| - 1] == a + b';
      FlatConcat(a, b');
    }
  }

  lemma {:induction false} FlatOne(r: Rec)
    ensures Flat([r]) == r.inodes
  {
    assert [r][..0] == [];
  }

  /** The entries around node q. */
  lemma {:induction false} FlatSplit(l: Level, q: nat)
    requires q < |l|
    ensures Flat(l) == Flat(l[..q]) + l[q].inodes + Flat(l[q + 1..])
    ensures Off(l, q + 1) == Off(l, q) + |l[q].inodes| <= |Flat(l)|
  {
    assert l == l[..q] + ([l[q]] + l[q + 1..]);
    FlatConcat(l[..q], [l[q]] + l[q + 1..]);
    FlatConcat([l[q]], l[q + 1..]);
    FlatOne(l[q]);
    assert l[..q + 1] == l[..q] + [l[q]];
    FlatConcat(l[..q], [l[q]]);
  }

  /** Entry i of node q is entry Off(l, q) + i of the level. */
  lemma {:induction false} FlatAt(l: Level, q: nat, i: nat)
    requires q < |l| && i < |l[q].inodes|
    ensures Off(l, q) + i < |Flat(l)| && Flat(l)[Off(l, q) + i] == l[q].inodes[i]
  {
    FlatSplit(l, q);
  }

  lemma {:induction false} OffMono(l: Level, q: nat, r: nat)
    requires q <= r <= |l|
    ensures Off(l, q) <= Off(l, r) <= |Flat(l)|
    decreases |l| - q
  {
    if q < r {
      FlatSplit(l, q);
      OffMono(l, q + 1, r);
    } else if q < |l| {
      FlatSplit(l, q);
    } else {
      assert l[..q] == l;
    }
  }

  /** Which node holds entry p of the level. */
  lemma {:induction false} Locate(l: Level, p: nat) returns (q: nat, i: nat)
    requires p < |Flat(l)|
    ensures q < |l| && i < |l[q].inodes| && p == Off(l, q) + i && Flat(l)[p] == l[q].inodes[i]
    decreases |l|
  {
    var m := l[..|l| - 1];
    if p < |Flat(m)| {
      q, i := Locate(m, p);
      assert m[..q] == l[..q];
    } else {
      q, i := |l| - 1, p - |Flat(m)|;
    }
  }

  /** A level that hangs below ascending separators is itself in ascending order. */
  lemma {:induction false} FlatAsc(e: seq<Inode>, l: Level)
    requires Asc(e) && Fits(e, l) && AllAsc(l)
    ensures Asc(Flat(l))
  {
    var f := Flat(l);
    forall p, p' | 0 <= p < p' < |f| ensures Lt(f[p].key, f[p'].key) {
      var q, i := Locate(l, p);
      var q', i' := Locate(l, p');
      if q' < q {
        OffMono(l, q' + 1, q);
        FlatSplit(l, q');
      } else if q < q' {
        assert Lt(l[q].inodes[i].key, e[q + 1].key);
        assert Le(e[q'].key, l[q'].inodes[i'].key);
      }
    }
  }

  /** Node q of the level with other entries. */
  ghost function SetInodes(l: Level, q: nat, xs: seq<Inode>): Level
    requires q < |l|
  {
    l[q := Rec(l[q].id, xs)]
  }

  lemma {:induction false} FlatSet(l: Level, q: nat, xs: seq<Inode>)
    requires q < |l|
    ensures Flat(SetInodes(l, q, xs)) == Flat(l[..q]) + xs + Flat(l[q + 1..])
  {
    var m := SetInodes(l, q, xs);
    FlatSplit(m, q);
    assert m[..q] == l[..q] && m[q + 1..] == l[q + 1..];
  }

  lemma {:induction false} MiddleDel<T>(a: seq<T>, x: seq<T>, b: seq<T>, i: nat)
    requires i < |x|
    ensures RemoveAt(a + x + b, |a| + i) == a + RemoveAt(x, i) + b
  {
  }

  /** Deleting entry i of node q deletes that entry of the level. */
  lemma {:induction false} FlatDel(l: Level, q: nat, i: nat)
    requires q < |l| && i < |l[q].inodes|
    ensures Off(l, q) + i < |Flat(l)|
    ensures Flat(SetInodes(l, q, RemoveAt(l[q].inodes, i))) == RemoveAt(Flat(l), Off(l, q) + i)
  {
    FlatSplit(l, q);
    FlatSet(l, q, RemoveAt(l[q].inodes, i));
    FlatAt(l, q, i);
    MiddleDel(Flat(l[..q]), l[q].inodes, Flat(l[q + 1..]), i);
  }

  lemma {:induction false} MiddleReplace<T>(a: seq<T>, x: seq<T>, b: seq<T>, i: nat, ys: seq<T>)
    requires i < |x|
    ensures a + (x[..i] + ys + x[i + 1..]) + b == (a + x + b)[..|a| + i] + ys + (a + x + b)[|a| + i + 1..]
  {
    assert (a + x + b)[..|a| + i] == a + x[..i];
    assert (a + x + b)[|a| + i + 1..] == x[i + 1..] + b;
  }

  /** Replacing entry i of node q by the entries ys. */
  lemma {:induction false} FlatReplace(l: Level, q: nat, i: nat, ys: seq<Inode>)
    requires q < |l| && i < |l[q].inodes|
    ensures Off(l, q) + i < |Flat(l)|
    ensures Flat(SetInodes(l, q, l[q].inodes[..i] + ys + l[q].inodes[i + 1..]))
         == Flat(l)[..Off(l, q) + i] + ys + Flat(l)[Off(l, q) + i + 1..]
  {
    FlatAt(l, q, i);
    FlatSplit(l, q);
    FlatSet(l, q, l[q].inodes[..i] + ys + l[q].inodes[i + 1..]);
    MiddleReplace(Flat(l[..q]), l[q].inodes, Flat(l[q + 1..]), i, ys);
  }

  /** The separators e with lower bounds in place of the first key of each node: what a search
      can bring to child 0 of a node is bounded by what it can bring to the node. */
  ghost function Fenced(u: Level, g: seq<Inode>): (r: Level)
    ensures |r| == |u|
  {
    seq(|u|, q requires 0 <= q < |u| =>
      Rec(u[q].id, FenceNode(u[q].inodes, if q < |g| then g[q].key else [])))
  }

  ghost function FenceNode(xs: seq<Inode>, key: Key): (r: seq<Inode>)
    ensures |r| == |xs|
  {
    if xs == [] then [] else [xs[0].(key := key)] + xs[1..]
  }

  lemma {:induction false} FencedFlat(u: Level, g: seq<Inode>, n: nat)
    requires n <= |u|
    ensures |Flat(Fenced(u, g)[..n])| == |Flat(u[..n])|
  {
    if n > 0 {
      FencedFlat(u, g, n - 1);
      assert u[..n][..n - 1] == u[..n - 1];
      assert Fenced(u, g)[..n][..n - 1] == Fenced(u, g)[..n - 1];
    }
  }

  lemma {:induction false} FencedAt(u: Level, g: seq<Inode>, q: nat, i: nat)
    requires q < |u| && i < |u[q].inodes|
    ensures |Flat(Fenced(u, g))| == |Flat(u)| && Off(Fenced(u, g), q) == Off(u, q)
    ensures Off(u, q) + i < |Flat(u)| && Flat(u)[Off(u, q) + i] == u[q].inodes[i]
    ensures Flat(Fenced(u, g))[Off(u, q) + i]
         == if i == 0 then u[q].inodes[0].(key := if q < |g| then g[q].key else []) else u[q].inodes[i]
  {
    FencedOff(u, g, q);
    FlatAt(u, q, i);
    FlatAt(Fenced(u, g), q, i);
    FenceAt(u[q].inodes, if q < |g| then g[q].key else [], i);
  }

  lemma {:induction false} FencedOff(u: Level, g: seq<Inode>, q: nat)
    requires q <= |u|
    ensures |Flat(Fenced(u, g))| == |Flat(u)| && Off(Fenced(u, g), q) == Off(u, q)
  {
    FencedFlat(u, g, |u|);
    FencedFlat(u, g, q);
    assert u[..|u|] == u && Fenced(u, g)[..|u|] == Fenced(u, g);
  }

  lemma {:induction false} FenceAt(xs: seq<Inode>, key: Key, i: nat)
    requires i < |xs|
    ensures FenceNode(xs, key)[i] == if i == 0 then xs[0].(key := key) else xs[i]
  {
  }

  /** Fewer entries in a node never leave its bounds. */
  lemma {:induction false} FitsFewer(e: seq<Inode>, l: Level, q: nat, i: nat)
    requires Fits(e, l) && AllAsc(l) && q < |l| && i < |l[q].inodes|
    ensures Fits(e, SetInodes(l, q, RemoveAt(l[q].inodes, i)))
    ensures AllAsc(SetInodes(l, q, RemoveAt(l[q].inodes, i)))
  {
    var xs := RemoveAt(l[q].inodes, i);
    assert forall m :: 0 <= m < |xs| ==> xs[m] == l[q].inodes[if m < i then m else m + 1];
  }

  /** Entries stay within bounds that only move apart. */
  lemma {:induction false} WithinWider(e: seq<Inode>, o: nat, e': seq<Inode>, m: nat, xs: seq<Inode>)
    requires o < |e| && m < |e'| && Within(e, o, xs)
    requires Le(e'[m].key, e[o].key)
    requires m + 1 < |e'| ==> o + 1 < |e| && Le(e[o + 1].key, e'[m + 1].key)
    ensures Within(e', m, xs)
  {
  }

  /** An emptied node can go with its separator, or with the next one: its neighbours take over
      its key range. */
  lemma {:induction false} FitsRemove(e: seq<Inode>, l: Level, j: nat, e': seq<Inode>)
    requires Asc(e) && Fits(e, l) && AllAsc(l) && j < |l| && |e'| == |l| - 1
    requires forall m :: 0 <= m < |e'| ==> e'[m].pgid == e[if m < j then m else m + 1].pgid
    requires forall m :: 0 <= m < |e'| && m != j ==> e'[m].key == e[if m < j then m else m + 1].key
    requires j < |e'| ==> Le(e[j].key, e'[j].key) && Le(e'[j].key, e[j + 1].key)
    ensures Fits(e', RemoveAt(l, j)) && AllAsc(RemoveAt(l, j))
  {
    var l' := RemoveAt(l, j);
    forall m | 0 <= m < |l'| ensures e'[m].pgid == l'[m].id && Within(e', m, l'[m].inodes) {
      var o := if m < j then m else m + 1;
      assert l'[m] == l[o];
      WithinWider(e, o, e', m, l[o].inodes);
    }
  }

  lemma {:induction false} LowerRemove(e: seq<Inode>, l: Level, j: nat)
    requires Lower(e, l) && |e| == |l| && j < |l|
    ensures Lower(RemoveAt(e, j), RemoveAt(l, j))
  {
    var e', l' := RemoveAt(e, j), RemoveAt(l, j);
    forall m, i | 0 < m < |l'| && 0 <= i < |l'[m].inodes| ensures Le(e'[m].key, l'[m].inodes[i].key) {
      var o := if m < j then m else m + 1;
      assert e'[m] == e[o] && l'[m] == l[o];
    }
  }

  /** Bounds may move up as far as the keys stored in the parents. */
  lemma {:induction false} FitsRaised(f: seq<Inode>, f': seq<Inode>, e: seq<Inode>, l: Level)
    requires Fits(f, l) && Lower(e, l) && |e| == |f'| == |f| && (f' != [] ==> f'[0].key == f[0].key)
    requires forall m :: 0 <= m < |f| ==> f'[m].pgid == f[m].pgid && Le(f[m].key, f'[m].key)
    requires forall m :: 0 < m < |f| ==> Le(f'[m].key, e[m].key)
    ensures Fits(f', l)
  {
  }

  lemma {:induction false} FlatRemove(l: Level, j: nat)
    requires j < |l| && l[j].inodes == []
    ensures Flat(RemoveAt(l, j)) == Flat(l)
  {
    FlatSplit(l, j);
    FlatConcat(l[..j], l[j + 1..]);
  }

  /** Node j takes over the entries of its right neighbour, which goes with its separator. */
  ghost function Joined(l: Level, j: nat): Level
    requires j + 1 < |l|
  {
    l[..j] + [Rec(l[j].id, l[j].inodes + l[j + 1].inodes)] + l[j + 2..]
  }

  lemma {:induction false} FlatJoined(l: Level, j: nat)
    requires j + 1 < |l|
    ensures Flat(Joined(l, j)) == Flat(l)
  {
    var a, x, y, b := l[..j], [l[j]], [l[j + 1]], l[j + 2..];
    var xy := [Rec(l[j].id, l[j].inodes + l[j + 1].inodes)];
    FlatOne(l[j]);
    FlatOne(l[j + 1]);
    FlatOne(xy[0]);
    FlatConcat(x, y);
    FlatConcat(a, x + y);
    FlatConcat(a + (x + y), b);
    FlatConcat(a, xy);
    FlatConcat(a + xy, b);
    assert l == a + (x + y) + b;
  }

  lemma {:induction false} FitsJoined(e: seq<Inode>, l: Level, j: nat)
    requires Asc(e) && Fits(e, l) && AllAsc(l) && j + 1 < |l|
    ensures Fits(RemoveAt(e, j + 1), Joined(l, j)) && AllAsc(Joined(l, j))
  {
    var e', l' := RemoveAt(e, j + 1), Joined(l, j);
    var xs, ys := l[j].inodes, l[j + 1].inodes;
    WithinJoined(e, j, xs, ys);
    forall m | 0 <= m < |l'|
      ensures e'[m].pgid == l'[m].id && Within(e', m, l'[m].inodes) && Asc(l'[m].inodes)
    {
      if m == j {
        assert e'[j] == e[j];
        assert j + 1 < |e'| ==> e'[j + 1] == e[j + 2];
      } else {
        var o := if m < j then m else m + 1;
        assert e'[m] == e[o] && l'[m] == l[o];
        WithinWider(e, o, e', m, l[o].inodes);
      }
    }
  }

  lemma {:induction false} WithinJoined(e: seq<Inode>, j: nat, xs: seq<Inode>, ys: seq<Inode>)
    requires Asc(e) && j + 1 < |e| && Within(e, j, xs) && Within(e, j + 1, ys) && Asc(xs) && Asc(ys)
    ensures Asc(xs + ys)
    ensures forall i :: 0 <= i < |xs + ys| ==>
      Le(e[j].key, (xs + ys)[i].key) && (j + 2 < |e| ==> Lt((xs + ys)[i].key, e[j + 2].key))
  {
    assert Lt(e[j].key, e[j + 1].key);
    assert j + 2 < |e| ==> Lt(e[j + 1].key, e[j + 2].key);
  }

  lemma {:induction false} LowerJoined(e: seq<Inode>, l: Level, j: nat)
    requires Lower(e, l) && |e| == |l| && j + 1 < |l| && Lt(e[j].key, e[j + 1].key)
    ensures Lower(RemoveAt(e, j + 1), Joined(l, j))
  {
    var e', l' := RemoveAt(e, j + 1), Joined(l, j);
    forall m, i | 0 < m < |l'| && 0 <= i < |l'[m].inodes| ensures Le(e'[m].key, l'[m].inodes[i].key) {
      if m == j {
        assert e'[j] == e[j];
        assert l'[j].inodes[i] ==
          if i < |l[j].inodes| then l[j].inodes[i] else l[j + 1].inodes[i - |l[j].inodes|];
      } else {
        var o := if m < j then m else m + 1;
        assert e'[m] == e[o] && l'[m] == l[o];
      }
    }
  }

  /** The separator a parent keeps for a child: its page and its first key. */
  ghost function Head(r: Rec): Inode
    requires r.inodes != []
  {
    Inode(0, r.id, r.inodes[0].key, [])
  }

  ghost function Heads(ps: Level): seq<Inode>
    requires forall m :: 0 <= m < |ps| ==> ps[m].inodes != []
  {
    seq(|ps|, m requires 0 <= m < |ps| => Head(ps[m]))
  }

  /** Node j is replaced by pieces that together hold its entries, its separator by theirs. */
  ghost predicate Pieces(x: seq<Inode>, ps: Level)
  {
    && ps != [] && Flat(ps) == x
    && forall m :: 0 <= m < |ps| ==> ps[m].inodes != []
  }

  /** The heads of pieces of ascending entries ascend, and are entries of the whole. */
  lemma {:induction false} HeadsAsc(x: seq<Inode>, ps: Level)
    requires Asc(x) && Pieces(x, ps)
    ensures Asc(Heads(ps)) && x != [] && Heads(ps)[0].key == x[0].key
    ensures forall m :: 0 <= m < |ps| ==> exists i :: 0 <= i < |x| && x[i].key == Heads(ps)[m].key
  {
    var h := Heads(ps);
    forall m | 0 <= m < |ps| ensures Off(ps, m) < |x| && h[m].key == x[Off(ps, m)].key {
      FlatAt(ps, m, 0);
    }
    forall m, m' | 0 <= m < m' < |ps| ensures Off(ps, m) < Off(ps, m') {
      FlatSplit(ps, m);
      OffMono(ps, m + 1, m');
    }
    assert ps[..0] == [];
  }

  /** The pieces of ascending entries are ascending, below their own heads. */
  lemma {:induction false} PiecesFit(x: seq<Inode>, ps: Level)
    requires Asc(x) && Pieces(x, ps)
    ensures AllAsc(ps) && Fits(Heads(ps), ps)
    ensures forall m, i :: 0 <= m < |ps| && 0 <= i < |ps[m].inodes| ==> ps[m].inodes[i] in x
  {
    var h := Heads(ps);
    forall m, i | 0 <= m < |ps| && 0 <= i < |ps[m].inodes|
      ensures Le(h[m].key, ps[m].inodes[i].key) && ps[m].inodes[i] in x
      ensures m + 1 < |h| ==> Lt(ps[m].inodes[i].key, h[m + 1].key)
    {
      FlatAt(ps, m, i);
      FlatAt(ps, m, 0);
      if m + 1 < |h| {
        FlatSplit(ps, m);
        FlatAt(ps, m + 1, 0);
      }
    }
    forall m | 0 <= m < |ps| ensures Asc(ps[m].inodes) {
      forall i, i' | 0 <= i < i' < |ps[m].inodes| ensures Lt(ps[m].inodes[i].key, ps[m].inodes[i'].key) {
        FlatAt(ps, m, i);
        FlatAt(ps, m, i');
      }
    }
  }

  ghost function Spliced<T>(s: seq<T>, j: nat, ys: seq<T>): seq<T>
    requires j < |s|
  {
    s[..j] + ys + s[j + 1..]
  }

  lemma {:induction false} FlatSplice(l: Level, j: nat, ps: Level)
    requires j < |l|
    ensures Flat(Spliced(l, j, ps)) == Flat(l[..j]) + Flat(ps) + Flat(l[j + 1..])
  {
    FlatConcat(l[..j] + ps, l[j + 1..]);
    FlatConcat(l[..j], ps);
  }

  lemma {:induction false} FlatSpliced(l: Level, j: nat, ps: Level)
    requires j < |l| && Flat(ps) == l[j].inodes
    ensures Flat(Spliced(l, j, ps)) == Flat(l)
  {
    FlatSplit(l, j);
    FlatSplice(l, j, ps);
  }

  lemma {:induction false} AscSpliced(e: seq<Inode>, j: nat, h: seq<Inode>)
    requires Asc(e) && j < |e| && Asc(h)
    requires forall m :: 0 <= m < |h| ==>
      (j > 0 ==> Le(e[j].key, h[m].key)) && (j + 1 < |e| ==> Lt(h[m].key, e[j + 1].key))
    ensures Asc(Spliced(e, j, h))
  {
    var e' := Spliced(e, j, h);
    forall p, p' | 0 <= p < p' < |e'| ensures Lt(e'[p].key, e'[p'].key) {
      var o := if p < j then p else p - |h| + 1;
      var o' := if p' < j then p' else p' - |h| + 1;
      assert !(j <= p < j + |h|) ==> e'[p] == e[o];
      assert !(j <= p' < j + |h|) ==> e'[p'] == e[o'];
      assert j <= p < j + |h| ==> e'[p] == h[p - j];
      assert j <= p' < j + |h| ==> e'[p'] == h[p' - j];
    }
  }

  lemma {:induction false} SplicedIndex<T>(s: seq<T>, j: nat, ys: seq<T>)
    requires j < |s|
    ensures |Spliced(s, j, ys)| == |s| + |ys| - 1
    ensures forall m :: 0 <= m < |s| + |ys| - 1 ==>
      Spliced(s, j, ys)[m] == (if m < j then s[m] else if m < j + |ys| then ys[m - j] else s[m - |ys| + 1])
  {
  }

  /** Node j gives way to pieces of its entries, its separator to separators for the pieces:
      their heads, where the first may stay as low as the separator it replaces. */
  lemma {:induction false} FitsSpliced(e: seq<Inode>, l: Level, j: nat, ps: Level, h: seq<Inode>)
    requires Asc(e) && Fits(e, l) && AllAsc(l) && j < |l| && Pieces(l[j].inodes, ps)
    requires |h| == |ps| && h[0].pgid == ps[0].id && forall m :: 0 < m < |ps| ==> h[m] == Heads(ps)[m]
    requires Le(e[j].key, h[0].key) && Le(h[0].key, Heads(ps)[0].key)
    ensures Fits(Spliced(e, j, h), Spliced(l, j, ps)) && AllAsc(Spliced(l, j, ps))
  {
    var e', l' := Spliced(e, j, h), Spliced(l, j, ps);
    PiecesFit(l[j].inodes, ps);
    SplicedIndex(e, j, h);
    SplicedIndex(l, j, ps);
    forall m | 0 <= m < |l'|
      ensures e'[m].pgid == l'[m].id && Within(e', m, l'[m].inodes) && Asc(l'[m].inodes)
    {
      if j <= m < j + |ps| {
        FitsPiece(e, l, j, ps, h, m);
      } else {
        FitsOther(e, l, j, ps, h, m);
      }
    }
  }

  /** The nodes that are pieces. */
  lemma {:induction false} FitsPiece(e: seq<Inode>, l: Level, j: nat, ps: Level, h: seq<Inode>, m: nat)
    requires Fits(e, l) && j < |l| && Pieces(l[j].inodes, ps) && AllAsc(ps) && Fits(Heads(ps), ps)
    requires |h| == |ps| && h[0].pgid == ps[0].id && Le(h[0].key, Heads(ps)[0].key)
    requires forall m, i :: 0 <= m < |ps| && 0 <= i < |ps[m].inodes| ==> ps[m].inodes[i] in l[j].inodes
    requires forall m :: 0 < m < |ps| ==> h[m] == Heads(ps)[m]
    requires j <= m < j + |ps|
    ensures var e', l' := Spliced(e, j, h), Spliced(l, j, ps);
            m < |l'| == |e'| && e'[m].pgid == l'[m].id && Within(e', m, l'[m].inodes) && Asc(l'[m].inodes)
  {
    SplicedIndex(e, j, h);
    SplicedIndex(l, j, ps);
    PieceWithin(e, j, l[j].inodes, ps, h, m - j);
  }

  /** The nodes beside them. */
  lemma {:induction false} FitsOther(e: seq<Inode>, l: Level, j: nat, ps: Level, h: seq<Inode>, m: nat)
    requires Fits(e, l) && AllAsc(l) && j < |l| && |h| == |ps| > 0 && Le(e[j].key, h[0].key)
    requires m < |l| + |ps| - 1 && !(j <= m < j + |ps|)
    ensures var e', l' := Spliced(e, j, h), Spliced(l, j, ps);
            m < |l'| == |e'| && e'[m].pgid == l'[m].id && Within(e', m, l'[m].inodes) && Asc(l'[m].inodes)
  {
    SplicedIndex(e, j, h);
    SplicedIndex(l, j, ps);
    var o := if m < j then m else m - |ps| + 1;
    WithinWider(e, o, Spliced(e, j, h), m, l[o].inodes);
  }

  lemma {:induction false} PieceWithin(e: seq<Inode>, j: nat, x: seq<Inode>, ps: Level, h: seq<Inode>, m: nat)
    requires j < |e| && Within(e, j, x) && Pieces(x, ps) && Fits(Heads(ps), ps) && |h| == |ps| && m < |ps|
    requires forall m, i :: 0 <= m < |ps| && 0 <= i < |ps[m].inodes| ==> ps[m].inodes[i] in x
    requires forall m :: 0 <= m < |ps| ==> Le(h[m].key, Heads(ps)[m].key)
    requires forall m :: 0 < m < |ps| ==> h[m] == Heads(ps)[m]
    ensures forall i :: 0 <= i < |ps[m].inodes| ==>
      && Le(h[m].key, ps[m].inodes[i].key)
      && (m + 1 < |h| ==> Lt(ps[m].inodes[i].key, h[m + 1].key))
      && (m + 1 == |h| && j + 1 < |e| ==> Lt(ps[m].inodes[i].key, e[j + 1].key))
  {
    assert Within(Heads(ps), m, ps[m].inodes);
  }

  lemma {:induction false} LowerSpliced(e: seq<Inode>, l: Level, j: nat, ps: Level)
    requires Lower(e, l) && |e| == |l| && j < |l| && Asc(l[j].inodes) && Pieces(l[j].inodes, ps)
    ensures Lower(Spliced(e, j, Heads(ps)), Spliced(l, j, ps))
  {
    var e', l' := Spliced(e, j, Heads(ps)), Spliced(l, j, ps);
    PiecesFit(l[j].inodes, ps);
    SplicedIndex(e, j, Heads(ps));
    SplicedIndex(l, j, ps);
    forall m, i | 0 < m < |l'| && 0 <= i < |l'[m].inodes| ensures Le(e'[m].key, l'[m].inodes[i].key) {
      if j <= m < j + |ps| {
        assert Within(Heads(ps), m - j, ps[m - j].inodes);
      }
    }
  }
}
