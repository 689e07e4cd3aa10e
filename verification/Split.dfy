/** Splitting the entries of a node that is too large for a page. */
module Splits {
  import opened Pgids
  import opened Levels
  import opened Buckets

  const MIN_KEYS_PER_PAGE := 2

  /** The bytes a node with these entries takes. */
  ghost function SizeOf(xs: seq<Inode>): nat
  {
    16 + BodySize(xs)
  }

  lemma {:induction false} BodyNext(xs: seq<Inode>, i: nat)
    requires i < |xs|
    ensures BodySize(xs[..i + 1]) == BodySize(xs[..i]) + 16 + |xs[i].key| + |xs[i].value|
  {
    assert xs[..i + 1][..i] == xs[..i];
  }

  lemma {:induction false} BodyMono(xs: seq<Inode>, i: nat, j: nat)
    requires i <= j <= |xs|
    ensures BodySize(xs[..i]) <= BodySize(xs[..j])
    decreases j - i
  {
    if i < j {
      BodyNext(xs, j - 1);
      BodyMono(xs, i, j - 1);
    }
  }

  /** sizeLessThan: whether the node takes less than v bytes, without adding up more than needed.
      For a node without entries the answer is yes, whatever v is. */
  method SizeLessThan(xs: seq<Inode>, v: nat) returns (r: bool)
    ensures r <==> xs == [] || SizeOf(xs) < v
  {
    var sz := PAGE_HEADER_SIZE;
    for i := 0 to |xs|
      invariant sz == SizeOf(xs[..i]) && (i > 0 ==> sz < v)
    {
      BodyNext(xs, i);
      sz := sz + LEAF_ELEMENT_SIZE + |xs[i].key| + |xs[i].value|;
      if sz >= v {
        BodyMono(xs, i + 1, |xs|);
        assert xs[..|xs|] == xs;
        return false;
      }
    }
    assert xs[..|xs|] == xs;
    r := true;
  }

  /** Where a page is full: after two entries at least, before the entry that would take it over the
      bound, leaving at least three. */
  ghost predicate FullAt(xs: seq<Inode>, room: real, index: nat)
  {
    && 2 <= index < |xs| - 2
    && (index > 2 ==> SizeOf(xs[..index]) as real <= room)
    && (index + 1 < |xs| - 2 ==> SizeOf(xs[..index + 1]) as real > room)
  }

  /** splitIndex. When the loop ends without finding the place, sz counts one entry too many; the
      callers use only the index. */
  method SplitIndex(xs: seq<Inode>, threshold: nat) returns (index: nat, sz: nat)
    requires |xs| > 2 * MIN_KEYS_PER_PAGE
    ensures FullAt(xs, threshold as real, index)
    ensures sz == if SizeOf(xs[..index + 1]) > threshold then SizeOf(xs[..index]) else SizeOf(xs[..index + 1])
  {
    index, sz := 0, PAGE_HEADER_SIZE;
    for i := 0 to |xs| - MIN_KEYS_PER_PAGE
      invariant sz == SizeOf(xs[..i]) && (i > 0 ==> index == i - 1)
      invariant i > MIN_KEYS_PER_PAGE ==> sz <= threshold
    {
      index := i;
      BodyNext(xs, i);
      var elsize := LEAF_ELEMENT_SIZE + |xs[i].key| + |xs[i].value|;
      if i >= MIN_KEYS_PER_PAGE && sz + elsize > threshold {
        return;
      }
      sz := sz + elsize;
    }
    BodyNext(xs, index);
  }

  ghost function Concat(ps: seq<seq<Inode>>): seq<Inode>
  {
    if ps == [] then [] else Concat(ps[..|ps| - 1]) + ps[|ps| - 1]
  }

  /** A node that is left whole: it has too few entries for two pages, or fits one. */
  ghost predicate Whole(xs: seq<Inode>, pageSize: nat)
  {
    |xs| <= 4 || SizeOf(xs) < pageSize
  }

  /** The bytes that splitting fills a page to: fillPercent of its size, but a tenth at least and all at most. */
  ghost function Room(pageSize: nat, fillPercent: real): real
  {
    pageSize as real * (if fillPercent < 0.1 then 0.1 else if fillPercent > 1.0 then 1.0 else fillPercent)
  }

  lemma {:induction false} Portion(p: real, f: real)
    requires p >= 0.0 && f <= 1.0
    ensures p * f <= p
  {
    assert p * (1.0 - f) >= 0.0;
  }

  lemma {:induction false} RoomBound(pageSize: nat, fillPercent: real)
    ensures Room(pageSize, fillPercent) <= pageSize as real
  {
    Portion(pageSize as real, if fillPercent < 0.1 then 0.1 else if fillPercent > 1.0 then 1.0 else fillPercent);
  }

  /** The threshold, in whole bytes. */
  function Threshold(pageSize: nat, fillPercent: real): (t: nat)
    ensures 0.1 <= fillPercent <= 1.0 ==> t as real <= pageSize as real * fillPercent < t as real + 1.0
    ensures fillPercent < 0.1 ==> t as real <= pageSize as real * 0.1 < t as real + 1.0
    ensures fillPercent > 1.0 ==> t == pageSize
    ensures t as real <= Room(pageSize, fillPercent) < t as real + 1.0
  {
    var fill := if fillPercent < 0.1 then 0.1 else if fillPercent > 1.0 then 1.0 else fillPercent;
    assert pageSize as real * fill >= 0.0;
    (pageSize as real * fill).Floor
  }

  /** Sizes are whole, so comparing with the threshold is comparing with the bound. */
  lemma {:induction false} FullAtRoom(xs: seq<Inode>, t: nat, room: real, index: nat)
    requires FullAt(xs, t as real, index) && t as real <= room < t as real + 1.0
    ensures FullAt(xs, room, index)
  {
    if index + 1 < |xs| - 2 {
      assert SizeOf(xs[..index + 1]) >= t + 1;
    }
  }

  /** How entries are split: a node is left whole if it can be; else its first piece is cut off where a page
      is full, and the rest is split in turn. */
  ghost predicate SplitInto(xs: seq<Inode>, ps: seq<seq<Inode>>, pageSize: nat, room: real)
    decreases |ps|
  {
    && ps != []
    && if |ps| == 1 then ps[0] == xs && Whole(xs, pageSize)
       else Piece(xs, ps[0], pageSize, room) && SplitInto(xs[|ps[0]|..], ps[1..], pageSize, room)
  }

  ghost predicate Piece(xs: seq<Inode>, a: seq<Inode>, pageSize: nat, room: real)
  {
    !Whole(xs, pageSize) && a <= xs && FullAt(xs, room, |a|)
  }

  /** The pieces cut off so far, and the rest. */
  ghost predicate Cuts(xs: seq<Inode>, ps: seq<seq<Inode>>, rest: seq<Inode>, pageSize: nat, room: real)
    decreases |ps|
  {
    if ps == [] then rest == xs
    else Piece(xs, ps[0], pageSize, room) && Cuts(xs[|ps[0]|..], ps[1..], rest, pageSize, room)
  }

  lemma {:induction false} CutsNext(xs: seq<Inode>, ps: seq<seq<Inode>>, rest: seq<Inode>, a: seq<Inode>, b: seq<Inode>,
                                    pageSize: nat, room: real)
    requires Cuts(xs, ps, rest, pageSize, room) && Piece(rest, a, pageSize, room) && rest == a + b
    ensures Cuts(xs, ps + [a], b, pageSize, room)
    decreases |ps|
  {
    if ps == [] {
      assert xs[|a|..] == b && ([] + [a])[1..] == [];
    } else {
      CutsNext(xs[|ps[0]|..], ps[1..], rest, a, b, pageSize, room);
      assert (ps + [a])[1..] == ps[1..] + [a];
    }
  }

  lemma {:induction false} CutsLast(xs: seq<Inode>, ps: seq<seq<Inode>>, rest: seq<Inode>, pageSize: nat,
                                    room: real)
    requires Cuts(xs, ps, rest, pageSize, room) && Whole(rest, pageSize)
    ensures SplitInto(xs, ps + [rest], pageSize, room)
    decreases |ps|
  {
    if ps != [] {
      CutsLast(xs[|ps[0]|..], ps[1..], rest, pageSize, room);
      assert (ps + [rest])[1..] == ps[1..] + [rest];
    }
  }

  lemma {:induction false} ConcatFront(ps: seq<seq<Inode>>)
    requires ps != []
    ensures Concat(ps) == ps[0] + Concat(ps[1..])
  {
    if |ps| > 1 {
      ConcatFront(ps[..|ps| - 1]);
      assert ps[1..][..|ps| - 2] == ps[..|ps| - 1][1..];
    } else {
      assert ps[..0] == [];
    }
  }

  /** A node that goes on one page, or has too few entries to be split. */
  ghost predicate OnePage(xs: seq<Inode>, pageSize: nat)
  {
    |xs| <= 4 || SizeOf(xs) <= pageSize
  }

  lemma {:induction false} SplitConcat(xs: seq<Inode>, ps: seq<seq<Inode>>, pageSize: nat, room: real)
    requires SplitInto(xs, ps, pageSize, room)
    ensures Concat(ps) == xs
    decreases |ps|
  {
    ConcatFront(ps);
    if |ps| > 1 {
      SplitConcat(xs[|ps[0]|..], ps[1..], pageSize, room);
      assert ps[0] == xs[..|ps[0]|];
    } else {
      assert ps[1..] == [];
    }
  }

  /** What holds of piece m: the last is left whole; any other is cut off where a page is full. */
  lemma {:induction false} PieceAt(xs: seq<Inode>, ps: seq<seq<Inode>>, pageSize: nat, room: real, m: nat)
    requires SplitInto(xs, ps, pageSize, room) && m < |ps|
    ensures m == |ps| - 1 ==> Whole(ps[m], pageSize) && (|ps| > 1 ==> |ps[m]| > 2)
    ensures m < |ps| - 1 ==> |ps[m]| >= 2 && (|ps[m]| == 2 || SizeOf(ps[m]) as real <= room)
    decreases |ps|
  {
    if m > 0 {
      PieceAt(xs[|ps[0]|..], ps[1..], pageSize, room, m - 1);
    } else if |ps| > 1 {
      assert ps[0] == xs[..|ps[0]|];
    }
  }

  /** The pieces are the entries in order. Of several, each has two entries or more; any but the last is
      within the bound unless it has only two. Each goes on a page unless it has at most four. */
  lemma {:induction false} SplitFacts(xs: seq<Inode>, ps: seq<seq<Inode>>, pageSize: nat, room: real)
    requires SplitInto(xs, ps, pageSize, room) && room <= pageSize as real
    ensures Concat(ps) == xs && (|ps| == 1 <==> Whole(xs, pageSize)) && Whole(ps[|ps| - 1], pageSize)
    ensures |ps| > 1 ==> forall m :: 0 <= m < |ps| ==> |ps[m]| >= 2
    ensures forall m :: 0 <= m < |ps| - 1 ==> |ps[m]| <= 2 || SizeOf(ps[m]) as real <= room
    ensures forall m :: 0 <= m < |ps| ==> OnePage(ps[m], pageSize)
  {
    SplitConcat(xs, ps, pageSize, room);
    forall m | 0 <= m < |ps|
      ensures m == |ps| - 1 ==> Whole(ps[m], pageSize) && (|ps| > 1 ==> |ps[m]| > 2)
      ensures m < |ps| - 1 ==> |ps[m]| >= 2 && (|ps[m]| == 2 || SizeOf(ps[m]) as real <= room)
    {
      PieceAt(xs, ps, pageSize, room, m);
    }
  }

  /** splitTwo: the first piece and the rest; nothing is left when the node stays whole. */
  method SplitTwo(xs: seq<Inode>, pageSize: nat, fillPercent: real) returns (a: seq<Inode>, b: seq<Inode>)
    ensures if Whole(xs, pageSize) then a == xs && b == []
            else Piece(xs, a, pageSize, Room(pageSize, fillPercent)) && a + b == xs && |b| > 2
  {
    var small := SizeLessThan(xs, pageSize);
    if |xs| <= MIN_KEYS_PER_PAGE * 2 || small {
      return xs, [];
    }
    var threshold := Threshold(pageSize, fillPercent);
    var index, _ := SplitIndex(xs, threshold);
    FullAtRoom(xs, threshold, Room(pageSize, fillPercent), index);
    a, b := xs[..index], xs[index..];
  }

  /** split: the pieces of a node. */
  method Split(xs: seq<Inode>, pageSize: nat, fillPercent: real) returns (ps: seq<seq<Inode>>)
    ensures SplitInto(xs, ps, pageSize, Room(pageSize, fillPercent))
  {
    ghost var room := Room(pageSize, fillPercent);
    var a, node := SplitTwo(xs, pageSize, fillPercent);
    ps := [a];
    if node != [] {
      CutsNext(xs, [], xs, a, node, pageSize, room);
      assert [] + [a] == ps;
    }
    while |node| > 0
      invariant if node == [] then SplitInto(xs, ps, pageSize, room) else Cuts(xs, ps, node, pageSize, room)
      decreases |node|
    {
      var b;
      a, b := SplitTwo(node, pageSize, fillPercent);
      if b == [] {
        CutsLast(xs, ps, node, pageSize, room);
      } else {
        CutsNext(xs, ps, node, a, b, pageSize, room);
      }
      ps := ps + [a];
      node := b;
    }
  }
}
