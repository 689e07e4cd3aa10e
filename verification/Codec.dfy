/** The bytes of a page: how a node is written to it and read back. Numbers are stored with their
    least significant byte first; as in the original they keep only the bytes their field has. */
module Codecs {
  import opened Options
  import opened Bytes
  import opened Pgids
  import opened Levels
  import opened Arena
  import opened Buckets
  import Splits

  const BRANCH_PAGE_FLAG := 0x01
  const LEAF_PAGE_FLAG := 0x02
  const ELEMENT_SIZE := 16  // of a branch element as of a leaf element
  const MAX_ENTRIES := 0xFFFF

  // ---- numbers ----

  function Num(v: nat, n: nat): (r: seq<Byte>)
    ensures |r| == n
  {
    if n == 0 then [] else [v % 256] + Num(v / 256, n - 1)
  }

  function Value(b: seq<Byte>): nat
  {
    if b == [] then 0 else b[0] + 256 * Value(b[1..])
  }

  function Bound(n: nat): (r: nat)
    ensures r > 0
  {
    if n == 0 then 1 else 256 * Bound(n - 1)
  }

  /** A number that fits its field is read back. */
  lemma {:induction false} NumValue(v: nat, n: nat)
    requires v < Bound(n)
    ensures Value(Num(v, n)) == v
  {
    if n > 0 {
      NumValue(v / 256, n - 1);
      assert Num(v, n)[1..] == Num(v / 256, n - 1);
    }
  }

  lemma {:induction false} Bounds()
    ensures Bound(2) == 0x1_0000 && Bound(4) == 0x1_0000_0000 && Bound(8) == 0x1_0000_0000_0000_0000
  {
    assert Bound(2) == 256 * Bound(1);
    assert Bound(4) == 256 * Bound(3) && Bound(3) == 256 * Bound(2);
    assert Bound(8) == 256 * Bound(7) && Bound(7) == 256 * Bound(6) && Bound(6) == 256 * Bound(5)
      && Bound(5) == 256 * Bound(4);
  }

  // ---- bytes in a buffer ----

  /** The bytes s are found at offset at. */
  ghost predicate Has(b: seq<Byte>, at: nat, s: seq<Byte>)
  {
    at + |s| <= |b| && b[at..at + |s|] == s
  }

  /** The buffer b with the bytes s at offset at. */
  ghost function Over(b: seq<Byte>, at: nat, s: seq<Byte>): (r: seq<Byte>)
    requires at + |s| <= |b|
    ensures |r| == |b|
  {
    b[..at] + s + b[at + |s|..]
  }

  lemma {:induction false} OverHas(b: seq<Byte>, at: nat, s: seq<Byte>)
    requires at + |s| <= |b|
    ensures Has(Over(b, at, s), at, s)
  {
  }

  lemma {:induction false} OverKeeps(b: seq<Byte>, at: nat, s: seq<Byte>, lo: nat, t: seq<Byte>)
    requires at + |s| <= |b| && Has(b, lo, t) && (lo + |t| <= at || at + |s| <= lo)
    ensures Has(Over(b, at, s), lo, t)
  {
  }

  lemma {:induction false} HasBoth(b: seq<Byte>, at: nat, s: seq<Byte>, t: seq<Byte>)
    requires Has(b, at, s) && Has(b, at + |s|, t)
    ensures Has(b, at, s + t)
  {
  }

  lemma {:induction false} HasPart(b: seq<Byte>, at: nat, s: seq<Byte>, lo: nat, t: seq<Byte>)
    requires Has(b, at, s) && Has(s, lo, t)
    ensures Has(b, at + lo, t)
  {
    forall k | 0 <= k < |t| ensures b[at + lo + k] == t[k] {
      assert b[at..at + |s|][lo + k] == s[lo + k] && s[lo..lo + |t|][k] == t[k];
    }
  }

  method Copy(buf: array<Byte>, at: nat, s: seq<Byte>)
    requires at + |s| <= buf.Length
    modifies buf
    ensures buf[..] == Over(old(buf[..]), at, s)
  {
    forall k | 0 <= k < |s| {
      buf[at + k] := s[k];
    }
  }

  // ---- where things are ----

  /** Mentioning Look() is what unfolds IsStart and ElementAt; elsewhere they stay single facts. */
  ghost predicate Look(x: int) { true }

  ghost predicate IsStart(xs: seq<Inode>, i: nat, s: nat)
    requires i <= |xs|
  {
    forall t {:trigger Look(t)} :: Look(t) ==> s == PAGE_HEADER_SIZE + ELEMENT_SIZE * (|xs| - i) + BodySize(xs[..i])
  }

  /** Where the key and value of entry i start: after the header, the elements, and the keys and values
      before. */
  ghost function Start(xs: seq<Inode>, i: nat): nat
    requires i <= |xs|
  {
    assert IsStart(xs, i, PAGE_HEADER_SIZE + ELEMENT_SIZE * (|xs| - i) + BodySize(xs[..i]));
    var s: nat :| IsStart(xs, i, s);
    s
  }

  lemma {:induction false} StartIs(xs: seq<Inode>, i: nat)
    requires i <= |xs|
    ensures Start(xs, i) == PAGE_HEADER_SIZE + ELEMENT_SIZE * (|xs| - i) + BodySize(xs[..i])
  {
    assert IsStart(xs, i, PAGE_HEADER_SIZE + ELEMENT_SIZE * (|xs| - i) + BodySize(xs[..i]));
    assert IsStart(xs, i, Start(xs, i));
    assert Look(0);
  }

  lemma {:induction false} StartNext(xs: seq<Inode>, i: nat)
    requires i < |xs|
    ensures Start(xs, i + 1) == Start(xs, i) + |xs[i].key| + |xs[i].value|
  {
    StartIs(xs, i);
    StartIs(xs, i + 1);
    Splits.BodyNext(xs, i);
  }

  lemma {:induction false} StartMono(xs: seq<Inode>, i: nat, j: nat)
    requires i <= j <= |xs|
    ensures Start(xs, i) <= Start(xs, j)
    decreases j - i
  {
    if i < j {
      StartNext(xs, i);
      StartMono(xs, i + 1, j);
    }
  }

  lemma {:induction false} StartEnds(xs: seq<Inode>)
    ensures Start(xs, 0) == PAGE_HEADER_SIZE + ELEMENT_SIZE * |xs| && Start(xs, |xs|) == Splits.SizeOf(xs)
  {
    StartIs(xs, 0);
    StartIs(xs, |xs|);
    assert xs[..|xs|] == xs;
  }

  lemma {:induction false} StartWithin(xs: seq<Inode>, i: nat)
    requires i < |xs|
    ensures PAGE_HEADER_SIZE + ELEMENT_SIZE * (i + 1) <= Start(xs, 0) <= Start(xs, i)
    ensures Start(xs, i + 1) == Start(xs, i) + |xs[i].key| + |xs[i].value| <= Splits.SizeOf(xs)
  {
    StartEnds(xs);
    StartNext(xs, i);
    StartMono(xs, 0, i);
    StartMono(xs, i + 1, |xs|);
  }

  /** An element: for a leaf its flags, the distance to its key, and the sizes of key and value; for a
      branch the distance, the size of the key, and the page of the child. */
  function Element(leaf: bool, x: Inode, pos: nat): (r: seq<Byte>)
    ensures |r| == ELEMENT_SIZE
  {
    if leaf then Num(x.flags, 4) + Num(pos, 4) + Num(|x.key|, 4) + Num(|x.value|, 4)
    else Num(pos, 4) + Num(|x.key|, 4) + Num(x.pgid, 8)
  }

  /** The element of x is at offset e, with its key at the distance pos. */
  ghost predicate ElementAt(b: seq<Byte>, e: nat, leaf: bool, x: Inode, pos: nat)
  {
    e + ELEMENT_SIZE <= |b| && forall t {:trigger Look(t)} :: Look(t) ==> Has(b, e, Element(leaf, x, pos))
  }

  lemma {:induction false} ElementIs(b: seq<Byte>, e: nat, leaf: bool, x: Inode, pos: nat)
    requires e + ELEMENT_SIZE <= |b|
    ensures ElementAt(b, e, leaf, x, pos) <==> Has(b, e, Element(leaf, x, pos))
  {
    assert Look(0);
  }

  lemma {:induction false} ElementKept(b: seq<Byte>, at: nat, s: seq<Byte>, e: nat, leaf: bool, x: Inode, pos: nat)
    requires at + |s| <= |b| && ElementAt(b, e, leaf, x, pos) && (e + ELEMENT_SIZE <= at || at + |s| <= e)
    ensures ElementAt(Over(b, at, s), e, leaf, x, pos)
  {
    ElementIs(b, e, leaf, x, pos);
    OverKeeps(b, at, s, e, Element(leaf, x, pos));
  }

  lemma {:induction false} ElementMade(b: seq<Byte>, e: nat, leaf: bool, x: Inode, pos: nat)
    requires e + ELEMENT_SIZE <= |b|
    ensures ElementAt(Over(b, e, Element(leaf, x, pos)), e, leaf, x, pos)
  {
    OverHas(b, e, Element(leaf, x, pos));
  }

  /** Entry i of a page: its element and, at the distance that gives, its key and value. */
  ghost predicate EntryAt(b: seq<Byte>, leaf: bool, xs: seq<Inode>, i: nat)
    requires i < |xs|
  {
    var e, s := PAGE_HEADER_SIZE + ELEMENT_SIZE * i, Start(xs, i);
    e <= s && ElementAt(b, e, leaf, xs[i], s - e) && Has(b, s, xs[i].key + xs[i].value)
  }

  ghost predicate EntriesUpTo(b: seq<Byte>, leaf: bool, xs: seq<Inode>, n: nat)
    requires n <= |xs|
  {
    forall i :: 0 <= i < n ==> EntryAt(b, leaf, xs, i)
  }

  function FlagsOf(b: seq<Byte>): nat
    requires |b| >= PAGE_HEADER_SIZE
  {
    Value(b[8..10])
  }

  function CountOf(b: seq<Byte>): nat
    requires |b| >= PAGE_HEADER_SIZE
  {
    Value(b[10..12])
  }

  predicate IsLeafPage(b: seq<Byte>)
    requires |b| >= PAGE_HEADER_SIZE
  {
    FlagsOf(b) / LEAF_PAGE_FLAG % 2 == 1
  }

  /** The bytes b are the node with these entries. */
  ghost predicate Laid(b: seq<Byte>, leaf: bool, xs: seq<Inode>)
  {
    |b| >= PAGE_HEADER_SIZE && CountOf(b) == |xs| && IsLeafPage(b) == leaf && EntriesUpTo(b, leaf, xs, |xs|)
  }

  // ---- writing ----

  /** What node.write demands of a node; it panics otherwise. */
  ghost predicate Writable(leaf: bool, id: Pgid, xs: seq<Inode>)
  {
    && |xs| < 0xFFFF
    && forall i :: 0 <= i < |xs| ==> xs[i].key != [] && (!leaf ==> xs[i].pgid != id)
  }

  /** flags | bit. */
  function WithFlag(flags: nat, bit: nat): nat
    requires bit > 0
  {
    if flags / bit % 2 == 1 then flags else flags + bit
  }

  lemma {:induction false} EntryKept(b: seq<Byte>, at: nat, s: seq<Byte>, leaf: bool, xs: seq<Inode>, i: nat)
    requires at + |s| <= |b| && i < |xs| && EntryAt(b, leaf, xs, i)
    requires PAGE_HEADER_SIZE + ELEMENT_SIZE * (i + 1) <= at
    requires Start(xs, i) + |xs[i].key + xs[i].value| <= at || at + |s| <= Start(xs, i)
    ensures EntryAt(Over(b, at, s), leaf, xs, i)
  {
    var e, t := PAGE_HEADER_SIZE + ELEMENT_SIZE * i, Start(xs, i);
    ElementKept(b, at, s, e, leaf, xs[i], t - e);
    OverKeeps(b, at, s, t, xs[i].key + xs[i].value);
  }

  /** An earlier entry is clear of the bytes of element n, and of all from the start of entry n on. */
  lemma {:induction false} Clear(xs: seq<Inode>, i: nat, n: nat, at: nat, len: nat)
    requires i < n <= |xs|
    requires (PAGE_HEADER_SIZE + ELEMENT_SIZE * n <= at && at + len <= Start(xs, 0)) || Start(xs, n) <= at
    ensures PAGE_HEADER_SIZE + ELEMENT_SIZE * (i + 1) <= at
    ensures Start(xs, i) + |xs[i].key + xs[i].value| <= at || at + len <= Start(xs, i)
  {
    StartWithin(xs, i);
    StartMono(xs, i + 1, n);
    StartMono(xs, 0, n);
    StartMono(xs, 0, i);
  }

  lemma {:induction false} EntriesKept(b: seq<Byte>, at: nat, s: seq<Byte>, leaf: bool, xs: seq<Inode>, n: nat)
    requires at + |s| <= |b| && n <= |xs| && EntriesUpTo(b, leaf, xs, n)
    requires (PAGE_HEADER_SIZE + ELEMENT_SIZE * n <= at && at + |s| <= Start(xs, 0)) || Start(xs, n) <= at
    ensures EntriesUpTo(Over(b, at, s), leaf, xs, n)
  {
    forall i | 0 <= i < n ensures EntryAt(Over(b, at, s), leaf, xs, i) {
      Clear(xs, i, n, at, |s|);
      EntryKept(b, at, s, leaf, xs, i);
    }
  }

  /** One turn of the loop of node.write: the element of entry i, then its key and value at offset at. */
  method WriteEntry(buf: array<Byte>, leaf: bool, xs: seq<Inode>, i: nat, at: nat) returns (at': nat)
    requires i < |xs| && at == Start(xs, i) && Splits.SizeOf(xs) <= buf.Length && EntriesUpTo(buf[..], leaf, xs, i)
    modifies buf
    ensures at' == Start(xs, i + 1) && EntriesUpTo(buf[..], leaf, xs, i + 1)
    ensures Outside(old(buf[..]), buf[..], PAGE_HEADER_SIZE, Splits.SizeOf(xs))
  {
    StartWithin(xs, i);
    EntryWritten(buf[..], leaf, xs, i);
    CopyEntry(buf, PAGE_HEADER_SIZE + ELEMENT_SIZE * i, at, leaf, xs[i]);
    at' := at + |xs[i].key| + |xs[i].value|;
  }

  method CopyEntry(buf: array<Byte>, e: nat, at: nat, leaf: bool, x: Inode)
    requires e + ELEMENT_SIZE <= at && at + |x.key| + |x.value| <= buf.Length
    modifies buf
    ensures buf[..] == Over(Over(Over(old(buf[..]), e, Element(leaf, x, at - e)), at, x.key), at + |x.key|, x.value)
  {
    Copy(buf, e, Element(leaf, x, at - e));
    Copy(buf, at, x.key);
    Copy(buf, at + |x.key|, x.value);
  }

  /** Bytes before lo and from hi on stay as they are. */
  ghost predicate Outside(b: seq<Byte>, b': seq<Byte>, lo: nat, hi: nat)
  {
    |b'| == |b| && forall k :: 0 <= k < |b| && !(lo <= k < hi) ==> b'[k] == b[k]
  }

  lemma {:induction false} OverOutside(b: seq<Byte>, b': seq<Byte>, at: nat, s: seq<Byte>, lo: nat, hi: nat)
    requires at + |s| <= |b'| && Outside(b, b', lo, hi) && lo <= at && at + |s| <= hi
    ensures Outside(b, Over(b', at, s), lo, hi)
  {
  }

  /** The buffer after that turn. */
  ghost function Turn(b: seq<Byte>, leaf: bool, xs: seq<Inode>, i: nat): (r: seq<Byte>)
    requires i < |xs| && Splits.SizeOf(xs) <= |b|
    ensures |r| == |b|
  {
    StartWithin(xs, i);
    var e, s := PAGE_HEADER_SIZE + ELEMENT_SIZE * i, Start(xs, i);
    Over(Over(Over(b, e, Element(leaf, xs[i], s - e)), s, xs[i].key), s + |xs[i].key|, xs[i].value)
  }

  lemma {:induction false} EntryWritten(b: seq<Byte>, leaf: bool, xs: seq<Inode>, i: nat)
    requires i < |xs| && Splits.SizeOf(xs) <= |b| && EntriesUpTo(b, leaf, xs, i)
    ensures EntriesUpTo(Turn(b, leaf, xs, i), leaf, xs, i + 1)
    ensures Outside(b, Turn(b, leaf, xs, i), PAGE_HEADER_SIZE, Splits.SizeOf(xs))
  {
    StartWithin(xs, i);
    var e, s, k, v := PAGE_HEADER_SIZE + ELEMENT_SIZE * i, Start(xs, i), xs[i].key, xs[i].value;
    Others(b, leaf, xs, i, e, s, k, v, Element(leaf, xs[i], s - e));
    ElementMade(b, e, leaf, xs[i], s - e);
    ElementStays(Over(b, e, Element(leaf, xs[i], s - e)), e, leaf, xs[i], s - e, s, k, v);
    TextMade(Over(b, e, Element(leaf, xs[i], s - e)), s, k, v);
    assert EntryAt(Turn(b, leaf, xs, i), leaf, xs, i);
  }

  /** Writing key and value after an element. */
  lemma {:induction false} ElementStays(b: seq<Byte>, e: nat, leaf: bool, x: Inode, pos: nat, s: nat, k: seq<Byte>,
                                        v: seq<Byte>)
    requires ElementAt(b, e, leaf, x, pos) && e + ELEMENT_SIZE <= s && s + |k| + |v| <= |b|
    ensures ElementAt(Over(Over(b, s, k), s + |k|, v), e, leaf, x, pos)
  {
    ElementKept(b, s, k, e, leaf, x, pos);
    ElementKept(Over(b, s, k), s + |k|, v, e, leaf, x, pos);
  }

  lemma {:induction false} TextMade(b: seq<Byte>, s: nat, k: seq<Byte>, v: seq<Byte>)
    requires s + |k| + |v| <= |b|
    ensures Has(Over(Over(b, s, k), s + |k|, v), s, k + v)
  {
    var b2 := Over(b, s, k);
    OverHas(b, s, k);
    OverKeeps(b2, s + |k|, v, s, k);
    OverHas(b2, s + |k|, v);
    HasBoth(Over(b2, s + |k|, v), s, k, v);
  }

  lemma {:induction false} Others(b: seq<Byte>, leaf: bool, xs: seq<Inode>, i: nat, e: nat, s: nat, k: Key,
                                  v: seq<Byte>, x: seq<Byte>)
    requires i < |xs| && Splits.SizeOf(xs) <= |b| && EntriesUpTo(b, leaf, xs, i)
    requires e == PAGE_HEADER_SIZE + ELEMENT_SIZE * i && s == Start(xs, i) && k == xs[i].key && v == xs[i].value
    requires |x| == ELEMENT_SIZE && e + ELEMENT_SIZE <= Start(xs, 0) <= s && s + |k| + |v| <= Splits.SizeOf(xs)
    ensures var b3 := Over(Over(Over(b, e, x), s, k), s + |k|, v);
            EntriesUpTo(b3, leaf, xs, i) && Outside(b, b3, PAGE_HEADER_SIZE, Splits.SizeOf(xs))
  {
    var b1 := Over(b, e, x);
    var b2 := Over(b1, s, k);
    EntriesKept(b, e, x, leaf, xs, i);
    EntriesKept(b1, s, k, leaf, xs, i);
    EntriesKept(b2, s + |k|, v, leaf, xs, i);
    OverOutside(b, b, e, x, PAGE_HEADER_SIZE, Splits.SizeOf(xs));
    OverOutside(b, b1, s, k, PAGE_HEADER_SIZE, Splits.SizeOf(xs));
    OverOutside(b, b2, s + |k|, v, PAGE_HEADER_SIZE, Splits.SizeOf(xs));
  }

  /** The header fields that writing a node sets. */
  ghost predicate HeaderOk(b: seq<Byte>, flags: nat, count: nat)
  {
    Has(b, 8, Num(flags, 2)) && Has(b, 10, Num(count, 2))
  }

  /** node.write, onto a page of an allocated buffer whose header may carry flags already. The bytes
      from size() on are not touched; ok is false where the original panics. */
  method Write(buf: array<Byte>, id: Pgid, leaf: bool, xs: seq<Inode>) returns (ok: bool)
    requires Splits.SizeOf(xs) <= buf.Length
    modifies buf
    ensures ok <==> Writable(leaf, id, xs)
    ensures Outside(old(buf[..]), buf[..], 8, Splits.SizeOf(xs))
    ensures ok ==> Marked(old(buf[..]), buf[..], leaf, |xs|) && EntriesUpTo(buf[..], leaf, xs, |xs|)
  {
    ghost var b := buf[..];
    StartEnds(xs);
    StartMono(xs, 0, |xs|);
    var flags := WithFlag(Value(buf[8..10]), if leaf then LEAF_PAGE_FLAG else BRANCH_PAGE_FLAG);
    Copy(buf, 8, Num(flags, 2));
    if |xs| >= MAX_ENTRIES {
      return false;
    }
    Copy(buf, 10, Num(|xs|, 2));
    OverHeader(b, flags, |xs|);
    var at := PAGE_HEADER_SIZE + ELEMENT_SIZE * |xs|;
    for i := 0 to |xs|
      invariant at == Start(xs, i) && EntriesUpTo(buf[..], leaf, xs, i) && Outside(b, buf[..], 8, Splits.SizeOf(xs))
      invariant HeaderOk(buf[..], flags, |xs|)
      invariant forall k :: 0 <= k < i ==> xs[k].key != [] && (!leaf ==> xs[k].pgid != id)
    {
      if |xs[i].key| == 0 || (!leaf && xs[i].pgid == id) {
        return false;
      }
      ghost var b1 := buf[..];
      at := WriteEntry(buf, leaf, xs, i, at);
      HeaderKept(b1, buf[..], flags, |xs|, Splits.SizeOf(xs));
      OutsideTwice(b, b1, buf[..], Splits.SizeOf(xs));
    }
    ok := true;
  }

  /** The header of the node is written over b. */
  ghost predicate Marked(b: seq<Byte>, b': seq<Byte>, leaf: bool, count: nat)
  {
    && |b| >= PAGE_HEADER_SIZE
    && HeaderOk(b', WithFlag(Value(b[8..10]), if leaf then LEAF_PAGE_FLAG else BRANCH_PAGE_FLAG), count)
  }

  lemma {:induction false} OverHeader(b: seq<Byte>, flags: nat, count: nat)
    requires |b| >= PAGE_HEADER_SIZE
    ensures HeaderOk(Over(Over(b, 8, Num(flags, 2)), 10, Num(count, 2)), flags, count)
    ensures Outside(b, Over(Over(b, 8, Num(flags, 2)), 10, Num(count, 2)), 8, PAGE_HEADER_SIZE)
  {
    OverHas(b, 8, Num(flags, 2));
    OverHas(Over(b, 8, Num(flags, 2)), 10, Num(count, 2));
    OverKeeps(Over(b, 8, Num(flags, 2)), 10, Num(count, 2), 8, Num(flags, 2));
  }

  lemma {:induction false} HeaderKept(b: seq<Byte>, b': seq<Byte>, flags: nat, count: nat, hi: nat)
    requires HeaderOk(b, flags, count) && Outside(b, b', PAGE_HEADER_SIZE, hi) && |b| >= PAGE_HEADER_SIZE
    ensures HeaderOk(b', flags, count)
  {
    assert b'[8..10] == b[8..10] && b'[10..12] == b[10..12];
  }

  lemma {:induction false} OutsideTwice(b: seq<Byte>, b1: seq<Byte>, b2: seq<Byte>, hi: nat)
    requires Outside(b, b1, 8, hi) && Outside(b1, b2, PAGE_HEADER_SIZE, hi)
    ensures Outside(b, b2, 8, hi)
  {
  }

  // ---- reading ----

  function Field(b: seq<Byte>, at: nat, n: nat): nat
    requires at + n <= |b|
  {
    Value(b[at..at + n])
  }

  /** The element of entry i: how far its key is, and how long key and value are. */
  function KeyAt(b: seq<Byte>, leaf: bool, i: nat): (r: (nat, nat, nat))
    requires PAGE_HEADER_SIZE + ELEMENT_SIZE * (i + 1) <= |b|
  {
    var e := PAGE_HEADER_SIZE + ELEMENT_SIZE * i;
    if leaf then (e + Field(b, e + 4, 4), Field(b, e + 8, 4), Field(b, e + 12, 4))
    else (e + Field(b, e, 4), Field(b, e + 4, 4), 0)
  }

  /** What an element points to is on the page. The original follows it unchecked. */
  predicate InBounds(b: seq<Byte>, leaf: bool, i: nat)
  {
    && PAGE_HEADER_SIZE + ELEMENT_SIZE * (i + 1) <= |b|
    && var (at, klen, vlen) := KeyAt(b, leaf, i); at + klen + vlen <= |b|
  }

  ghost predicate Readable(b: seq<Byte>)
  {
    |b| >= PAGE_HEADER_SIZE && forall i :: 0 <= i < CountOf(b) ==> InBounds(b, IsLeafPage(b), i)
  }

  function Entry(b: seq<Byte>, leaf: bool, i: nat): Inode
    requires InBounds(b, leaf, i)
  {
    var e, (at, klen, vlen) := PAGE_HEADER_SIZE + ELEMENT_SIZE * i, KeyAt(b, leaf, i);
    if leaf then Inode(Field(b, e, 4), 0, b[at..at + klen], b[at + klen..at + klen + vlen])
    else Inode(0, Field(b, e + 8, 8), b[at..at + klen], [])
  }

  /** node.read: the entries of a page and its first key; ok is false where the original panics. */
  method Read(b: seq<Byte>) returns (ok: bool, leaf: bool, inodes: seq<Inode>, key: Key)
    requires Readable(b)
    ensures leaf == IsLeafPage(b)
    ensures ok <==> forall i :: 0 <= i < CountOf(b) ==> Entry(b, leaf, i).key != []
    ensures ok ==> |inodes| == CountOf(b) && forall i :: 0 <= i < |inodes| ==> inodes[i] == Entry(b, leaf, i)
    ensures ok ==> key == if inodes == [] then [] else inodes[0].key
  {
    leaf, inodes, key := IsLeafPage(b), [], [];
    for i := 0 to CountOf(b)
      invariant |inodes| == i && forall k :: 0 <= k < i ==> inodes[k] == Entry(b, leaf, k) && inodes[k].key != []
    {
      assert InBounds(b, leaf, i);
      inodes := inodes + [Entry(b, leaf, i)];
      if |inodes[i].key| == 0 {
        ok := false;
        return;
      }
    }
    if |inodes| > 0 {
      key := inodes[0].key;
    }
    ok := true;
  }

  /** What a page keeps of an entry. */
  ghost function Stored(leaf: bool, x: Inode): Inode
  {
    if leaf then x.(pgid := 0) else x.(flags := 0, value := [])
  }

  /** The numbers of an entry fit the fields of its element, and so do the offsets of the page. */
  ghost predicate Fits32(xs: seq<Inode>)
  {
    && Splits.SizeOf(xs) < 0x1_0000_0000
    && forall i :: 0 <= i < |xs| ==> xs[i].flags < 0x1_0000_0000 && xs[i].pgid < 0x1_0000_0000_0000_0000
  }

  lemma {:induction false} FieldIs(b: seq<Byte>, at: nat, s: seq<Byte>, lo: nat, v: nat, n: nat)
    requires Has(b, at, s) && Has(s, lo, Num(v, n)) && v < Bound(n)
    ensures at + lo + n <= |b| && Field(b, at + lo, n) == v
  {
    HasPart(b, at, s, lo, Num(v, n));
    NumValue(v, n);
  }

  lemma {:induction false} LeafFields(b: seq<Byte>, e: nat, x: Inode, pos: nat)
    requires Has(b, e, Element(true, x, pos)) && pos < 0x1_0000_0000 && x.flags < 0x1_0000_0000
    requires |x.key| < 0x1_0000_0000 && |x.value| < 0x1_0000_0000
    ensures e + ELEMENT_SIZE <= |b| && Field(b, e, 4) == x.flags && Field(b, e + 4, 4) == pos
    ensures Field(b, e + 8, 4) == |x.key| && Field(b, e + 12, 4) == |x.value|
  {
    Bounds();
    var s := Element(true, x, pos);
    FieldIs(b, e, s, 0, x.flags, 4);
    FieldIs(b, e, s, 4, pos, 4);
    FieldIs(b, e, s, 8, |x.key|, 4);
    FieldIs(b, e, s, 12, |x.value|, 4);
  }

  lemma {:induction false} BranchFields(b: seq<Byte>, e: nat, x: Inode, pos: nat)
    requires Has(b, e, Element(false, x, pos)) && pos < 0x1_0000_0000 && x.pgid < 0x1_0000_0000_0000_0000
    requires |x.key| < 0x1_0000_0000
    ensures e + ELEMENT_SIZE <= |b| && Field(b, e, 4) == pos && Field(b, e + 4, 4) == |x.key|
      && Field(b, e + 8, 8) == x.pgid
  {
    Bounds();
    var s := Element(false, x, pos);
    FieldIs(b, e, s, 0, pos, 4);
    FieldIs(b, e, s, 4, |x.key|, 4);
    FieldIs(b, e, s, 8, x.pgid, 8);
  }

  lemma {:induction false} TextBack(b: seq<Byte>, at: nat, k: seq<Byte>, v: seq<Byte>)
    requires Has(b, at, k + v)
    ensures at + |k| + |v| <= |b| && b[at..at + |k|] == k && b[at + |k|..at + |k| + |v|] == v
  {
    HasPart(b, at, k + v, 0, k);
    HasPart(b, at, k + v, |k|, v);
  }

  lemma {:induction false} LeafBack(b: seq<Byte>, i: nat, x: Inode, s: nat)
    requires var e := PAGE_HEADER_SIZE + ELEMENT_SIZE * i; e <= s && Has(b, e, Element(true, x, s - e))
    requires Has(b, s, x.key + x.value) && s + |x.key| + |x.value| < 0x1_0000_0000 && x.flags < 0x1_0000_0000
    ensures InBounds(b, true, i) && Entry(b, true, i) == x.(pgid := 0)
  {
    var e := PAGE_HEADER_SIZE + ELEMENT_SIZE * i;
    LeafFields(b, e, x, s - e);
    TextBack(b, s, x.key, x.value);
    assert KeyAt(b, true, i) == (s, |x.key|, |x.value|);
  }

  lemma {:induction false} BranchBack(b: seq<Byte>, i: nat, x: Inode, s: nat)
    requires var e := PAGE_HEADER_SIZE + ELEMENT_SIZE * i; e <= s && Has(b, e, Element(false, x, s - e))
    requires Has(b, s, x.key + x.value) && s + |x.key| < 0x1_0000_0000 && x.pgid < 0x1_0000_0000_0000_0000
    ensures InBounds(b, false, i) && Entry(b, false, i) == x.(flags := 0, value := [])
  {
    var e := PAGE_HEADER_SIZE + ELEMENT_SIZE * i;
    BranchFields(b, e, x, s - e);
    TextBack(b, s, x.key, x.value);
    assert KeyAt(b, false, i) == (s, |x.key|, 0);
  }

  lemma {:induction false} OneBack(b: seq<Byte>, leaf: bool, i: nat, x: Inode, s: nat)
    requires var e := PAGE_HEADER_SIZE + ELEMENT_SIZE * i; e <= s && ElementAt(b, e, leaf, x, s - e)
    requires Has(b, s, x.key + x.value) && s + |x.key| + |x.value| < 0x1_0000_0000
    requires x.flags < 0x1_0000_0000 && x.pgid < 0x1_0000_0000_0000_0000
    ensures InBounds(b, leaf, i) && Entry(b, leaf, i) == Stored(leaf, x)
  {
    ElementIs(b, PAGE_HEADER_SIZE + ELEMENT_SIZE * i, leaf, x, s - PAGE_HEADER_SIZE - ELEMENT_SIZE * i);
    if leaf {
      LeafBack(b, i, x, s);
    } else {
      BranchBack(b, i, x, s);
    }
  }

  /** The place of an entry, as numbers only. */
  lemma {:induction false} PlaceOf(b: seq<Byte>, leaf: bool, xs: seq<Inode>, i: nat) returns (s: nat)
    requires i < |xs| && EntryAt(b, leaf, xs, i) && Fits32(xs)
    ensures var e, x := PAGE_HEADER_SIZE + ELEMENT_SIZE * i, xs[i];
            && e <= s && ElementAt(b, e, leaf, x, s - e) && Has(b, s, x.key + x.value)
            && s + |x.key| + |x.value| < 0x1_0000_0000
  {
    s := Start(xs, i);
    StartWithin(xs, i);
  }

  /** An entry that was written is read back. */
  lemma {:induction false} EntryBack(b: seq<Byte>, leaf: bool, xs: seq<Inode>, i: nat)
    requires i < |xs| && EntryAt(b, leaf, xs, i) && Fits32(xs)
    ensures InBounds(b, leaf, i) && Entry(b, leaf, i) == Stored(leaf, xs[i])
  {
    var s := PlaceOf(b, leaf, xs, i);
    OneBack(b, leaf, i, xs[i], s);
  }

  lemma {:induction false} ValueBound(b: seq<Byte>)
    ensures Value(b) < Bound(|b|)
  {
    if b != [] {
      ValueBound(b[1..]);
    }
  }

  /** A node that was written, to a page that was not marked as a leaf before, is read back. */
  lemma {:induction false} NodeBack(b: seq<Byte>, b': seq<Byte>, leaf: bool, xs: seq<Inode>)
    requires Marked(b, b', leaf, |xs|) && EntriesUpTo(b', leaf, xs, |xs|) && Fits32(xs) && |xs| < MAX_ENTRIES
    requires |b'| >= PAGE_HEADER_SIZE && (!leaf ==> !IsLeafPage(b))
    ensures Readable(b') && IsLeafPage(b') == leaf && CountOf(b') == |xs|
    ensures forall i :: 0 <= i < |xs| ==> Entry(b', leaf, i) == Stored(leaf, xs[i])
  {
    HeaderBack(b, b', leaf, |xs|);
    LaidBack(b', leaf, xs);
  }

  lemma {:induction false} LaidBack(b: seq<Byte>, leaf: bool, xs: seq<Inode>)
    requires Laid(b, leaf, xs) && Fits32(xs)
    ensures Readable(b) && IsLeafPage(b) == leaf && CountOf(b) == |xs|
    ensures forall i :: 0 <= i < |xs| ==> Entry(b, leaf, i) == Stored(leaf, xs[i])
  {
    forall i | 0 <= i < |xs| ensures InBounds(b, leaf, i) && Entry(b, leaf, i) == Stored(leaf, xs[i]) {
      assert EntryAt(b, leaf, xs, i);
      EntryBack(b, leaf, xs, i);
    }
  }

  lemma {:induction false} HeaderBack(b: seq<Byte>, b': seq<Byte>, leaf: bool, count: nat)
    requires Marked(b, b', leaf, count) && count < MAX_ENTRIES && |b'| >= PAGE_HEADER_SIZE && (!leaf ==> !IsLeafPage(b))
    ensures IsLeafPage(b') == leaf && CountOf(b') == count
  {
    Bounds();
    ValueBound(b[8..10]);
    var flags := FlagsOf(b);
    NumValue(count, 2);
    WithFlagIs(flags, leaf);
    NumValue(WithFlag(flags, if leaf then LEAF_PAGE_FLAG else BRANCH_PAGE_FLAG), 2);
  }

  /** Setting the flag of the kind of page. */
  lemma {:induction false} WithFlagIs(flags: nat, leaf: bool)
    requires flags < 0x1_0000 && (!leaf ==> flags / LEAF_PAGE_FLAG % 2 == 0)
    ensures var f := WithFlag(flags, if leaf then LEAF_PAGE_FLAG else BRANCH_PAGE_FLAG);
            f < 0x1_0000 && (f / LEAF_PAGE_FLAG % 2 == 1 <==> leaf)
  {
  }

  /** Numbers are stored with the least significant byte first; what does not fit is lost. */
  lemma {:induction false} NumIs(v: nat)
    ensures Num(v, 2) == [v % 256, v / 0x100 % 256]
    ensures Num(v, 4) == [v % 256, v / 0x100 % 256, v / 0x1_0000 % 256, v / 0x100_0000 % 256]
    ensures Num(v, 8) == Num(v, 4) + Num(v / 0x1_0000_0000, 4)
  {
    NumFour(v, 4);
    NumFour(v, 0);
    NumTwo(v, 0);
    assert Num(v / 0x1_0000, 0) == [] && Num(v / 0x1_0000_0000, 0) == [];
  }

  lemma {:induction false} NumNext(v: nat, n: nat)
    requires n > 0
    ensures Num(v, n) == [v % 256] + Num(v / 256, n - 1)
  {
  }

  lemma {:induction false} NumFour(v: nat, n: nat)
    ensures Num(v, n + 4)
         == [v % 256, v / 0x100 % 256, v / 0x1_0000 % 256, v / 0x100_0000 % 256] + Num(v / 0x1_0000_0000, n)
  {
    DivTwice(v);
    var a, b := v / 0x1_0000, v / 0x1_0000_0000;
    NumTwo(v, n + 2);
    NumTwo(a, n);
    Regroup(v % 256, v / 0x100 % 256, a % 256, a / 0x100 % 256, Num(b, n));
  }

  lemma {:induction false} Regroup(a: Byte, b: Byte, c: Byte, d: Byte, r: seq<Byte>)
    ensures [a, b] + ([c, d] + r) == [a, b, c, d] + r
  {
  }

  lemma {:induction false} DivTwice(v: nat)
    ensures v / 0x1_0000 / 0x100 == v / 0x100_0000 && v / 0x1_0000 / 0x1_0000 == v / 0x1_0000_0000
  {
  }

  lemma {:induction false} NumTwo(v: nat, n: nat)
    ensures Num(v, n + 2) == [v % 256, v / 0x100 % 256] + Num(v / 0x1_0000, n)
  {
    NumNext(v, n + 2);
    NumNext(v / 0x100, n + 1);
  }

  ghost function U16(b: seq<Byte>, at: nat): nat
    requires at + 2 <= |b|
  {
    b[at] as int + 0x100 * b[at + 1] as int
  }

  ghost function U32(b: seq<Byte>, at: nat): nat
    requires at + 4 <= |b|
  {
    b[at] as int + 0x100 * b[at + 1] as int + 0x1_0000 * b[at + 2] as int + 0x100_0000 * b[at + 3] as int
  }

  ghost function U64(b: seq<Byte>, at: nat): nat
    requires at + 8 <= |b|
  {
    U32(b, at) + 0x1_0000_0000 * U32(b, at + 4)
  }

  lemma {:induction false} FieldNum(b: seq<Byte>, at: nat)
    ensures at + 2 <= |b| ==> Field(b, at, 2) == U16(b, at)
    ensures at + 4 <= |b| ==> Field(b, at, 4) == U32(b, at)
    ensures at + 8 <= |b| ==> Field(b, at, 8) == U64(b, at)
  {
    if at + 2 <= |b| {
      FieldNext(b, at, 2);
      FieldNext(b, at + 1, 1);
    }
    if at + 4 <= |b| {
      FieldFour(b, at, 4);
    }
    if at + 8 <= |b| {
      FieldFour(b, at, 8);
      FieldFour(b, at + 4, 4);
    }
  }

  lemma {:induction false} FieldNext(b: seq<Byte>, at: nat, n: nat)
    requires n > 0 && at + n <= |b|
    ensures Field(b, at, n) == b[at] + 256 * Field(b, at + 1, n - 1)
  {
    assert b[at..at + n][1..] == b[at + 1..at + n];
  }

  lemma {:induction false} FieldFour(b: seq<Byte>, at: nat, n: nat)
    requires n >= 4 && at + n <= |b|
    ensures Field(b, at, n) == U32(b, at) + 0x1_0000_0000 * Field(b, at + 4, n - 4)
  {
    FieldNext(b, at, n);
    FieldNext(b, at + 1, n - 1);
    FieldNext(b, at + 2, n - 2);
    FieldNext(b, at + 3, n - 3);
  }

  /** The header of a page that was written: its kind is marked among the flags, and the entries are counted. */
  lemma {:induction false} HeaderFormat(b: seq<Byte>, b': seq<Byte>, leaf: bool, count: nat)
    requires Marked(b, b', leaf, count) && count < 0xFFFF && |b'| >= 16
    ensures U16(b', 10) == count
    ensures var bit := if leaf then 2 else 1;
            U16(b', 8) == if U16(b, 8) / bit % 2 == 1 then U16(b, 8) else U16(b, 8) + bit
  {
    Bounds();
    ValueBound(b[8..10]);
    FieldNum(b, 8);
    FieldNum(b', 8);
    FieldNum(b', 10);
    NumValue(count, 2);
    var flags := WithFlag(Value(b[8..10]), if leaf then LEAF_PAGE_FLAG else BRANCH_PAGE_FLAG);
    NumValue(flags, 2);
  }

  lemma {:induction false} ElementFormat(b: seq<Byte>, e: nat, leaf: bool, x: Inode, pos: nat)
    requires ElementAt(b, e, leaf, x, pos) && pos < 0x1_0000_0000 && x.flags < 0x1_0000_0000
    requires |x.key| < 0x1_0000_0000 && |x.value| < 0x1_0000_0000 && x.pgid < 0x1_0000_0000_0000_0000
    ensures e + 16 <= |b|
    ensures leaf ==>
      U32(b, e) == x.flags && U32(b, e + 4) == pos && U32(b, e + 8) == |x.key| && U32(b, e + 12) == |x.value|
    ensures !leaf ==> U32(b, e) == pos && U32(b, e + 4) == |x.key| && U64(b, e + 8) == x.pgid
  {
    ElementIs(b, e, leaf, x, pos);
    FieldNum(b, e);
    FieldNum(b, e + 4);
    FieldNum(b, e + 8);
    FieldNum(b, e + 12);
    if leaf {
      LeafFields(b, e, x, pos);
    } else {
      BranchFields(b, e, x, pos);
    }
  }

  /** An entry whose element is at offset e and its key at s. */
  ghost predicate EntryFormat(b: seq<Byte>, leaf: bool, e: nat, s: nat, x: Inode)
  {
    && e + 16 <= |b| && e <= s && s + |x.key| + |x.value| <= |b|
    && (leaf ==> U32(b, e) == x.flags && U32(b, e + 4) == s - e && U32(b, e + 8) == |x.key|
                 && U32(b, e + 12) == |x.value|)
    && (!leaf ==> U32(b, e) == s - e && U32(b, e + 4) == |x.key| && U64(b, e + 8) == x.pgid)
    && b[s..s + |x.key|] == x.key && b[s + |x.key|..s + |x.key| + |x.value|] == x.value
  }

  lemma {:induction false} EntryFormatIs(b: seq<Byte>, leaf: bool, e: nat, s: nat, x: Inode)
    requires e <= s && ElementAt(b, e, leaf, x, s - e) && Has(b, s, x.key + x.value)
    requires s + |x.key| + |x.value| < 0x1_0000_0000 && x.flags < 0x1_0000_0000 && x.pgid < 0x1_0000_0000_0000_0000
    ensures EntryFormat(b, leaf, e, s, x)
  {
    ElementFormat(b, e, leaf, x, s - e);
    TextBack(b, s, x.key, x.value);
  }

  /** The format of entry i: its element of 16 bytes after the header of 16, and its key and value after
      all elements and the keys and values before it. */
  lemma {:induction false} Format(b: seq<Byte>, leaf: bool, xs: seq<Inode>, i: nat)
    requires i < |xs| && EntryAt(b, leaf, xs, i) && Fits32(xs)
    ensures EntryFormat(b, leaf, 16 + 16 * i, 16 + 16 * (|xs| - i) + BodySize(xs[..i]), xs[i])
  {
    StartIs(xs, i);
    StartWithin(xs, i);
    EntryFormatIs(b, leaf, 16 + 16 * i, Start(xs, i), xs[i]);
  }

  // ---- whole pages ----

  /** A buffer as the allocator makes it: count pages, zero but for the header. */
  method NewPages(id: Pgid, count: nat, pageSize: nat) returns (buf: array<Byte>)
    requires count * pageSize >= PAGE_HEADER_SIZE
    ensures fresh(buf) && buf.Length == count * pageSize
    ensures Has(buf[..], 0, Num(id, 8)) && (count > 0 ==> Has(buf[..], 12, Num(count - 1, 4)))
    ensures FlagsOf(buf[..]) == 0
  {
    buf := new Byte[count * pageSize](_ => 0);
    ghost var b := buf[..];
    Copy(buf, 0, Num(id, 8));
    OverHas(b, 0, Num(id, 8));
    ghost var b1 := buf[..];
    assert |Num(id, 8)| == 8 && b[8] == b[9] == 0;
    assert b1[8] == b[8] && b1[9] == b[9];
    assert b1[8..10] == [0, 0];
    if count > 0 {
      Copy(buf, 12, Num(count - 1, 4));
      OverHas(b1, 12, Num(count - 1, 4));
      OverKeeps(b1, 12, Num(count - 1, 4), 0, Num(id, 8));
      OverKeeps(b1, 12, Num(count - 1, 4), 8, [0, 0]);
    }
    ZeroFlags();
  }

  lemma {:induction false} ZeroFlags()
    ensures Value([0, 0]) == 0
  {
    assert [0, 0][1..] == [0] && [0][1..] == [];
  }

  /** Writing a node to size / pageSize + 1 pages and reading it back: a node whose entries are what a
      node of its kind keeps is the same afterwards, and never needs more room. */
  method WriteRead(id: Pgid, leaf: bool, xs: seq<Inode>, pageSize: nat)
    returns (count: nat, written: bool, ok: bool, leaf': bool, xs': seq<Inode>)
    requires pageSize > 0 && Fits32(xs)
    ensures count == (16 + BodySize(xs)) / pageSize + 1 && (written <==> Writable(leaf, id, xs))
    ensures written ==> ok && leaf' == leaf && |xs'| == |xs| && forall i :: 0 <= i < |xs| ==>
      xs'[i] == Stored(leaf, xs[i])
  {
    var size := NodeSize(leaf, xs);
    count := size / pageSize + 1;
    PagesHold(size, pageSize);
    var buf := NewPages(id, count, pageSize);
    ghost var b := buf[..];
    ok, leaf', xs' := false, leaf, xs;
    written := Write(buf, id, leaf, xs);
    if written {
      NodeBack(b, buf[..], leaf, xs);
      var key;
      ok, leaf', xs', key := Read(buf[..]);
    }
  }

  lemma {:induction false} PagesHold(size: nat, pageSize: nat)
    requires pageSize > 0
    ensures size <= (size / pageSize + 1) * pageSize
  {
    assert size == size / pageSize * pageSize + size % pageSize;
    assert (size / pageSize + 1) * pageSize == size / pageSize * pageSize + pageSize;
  }
}
