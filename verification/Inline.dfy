/** Inline buckets: a small bucket is kept whole in the value of its entry in the parent bucket. */
module Inlines {
  import opened Options
  import opened Bytes
  import opened Pgids
  import opened Levels
  import opened Buckets
  import opened Codecs
  import opened Updates
  import Splits

  const BUCKET_HEADER_SIZE := 16

  // ---- which buckets are kept inline ----

  ghost predicate Small(leaf: bool, xs: seq<Inode>, pageSize: nat)
  {
    && leaf && (forall i :: 0 <= i < |xs| ==> xs[i].flags % 2 == 0)
    && (xs == [] || Splits.SizeOf(xs) <= pageSize / 4)
  }

  /** inlineable: whether a bucket with this root node, if it has one in memory, is small enough and
      has no nested buckets. */
  method Inlineable(root: Option<(bool, seq<Inode>)>, pageSize: nat) returns (r: bool)
    ensures r <==> root.Some? && Small(root.value.0, root.value.1, pageSize)
  {
    if root == None || !root.value.0 {
      return false;
    }
    var xs, size := root.value.1, PAGE_HEADER_SIZE;
    for i := 0 to |xs|
      invariant size == Splits.SizeOf(xs[..i]) && (i > 0 ==> size <= pageSize / 4)
      invariant forall k :: 0 <= k < i ==> !IsBucket(xs[k])
    {
      Splits.BodyNext(xs, i);
      size := size + LEAF_ELEMENT_SIZE + |xs[i].key| + |xs[i].value|;
      if IsBucket(xs[i]) {
        return false;
      } else if size > pageSize / 4 {
        Splits.BodyMono(xs, i + 1, |xs|);
        assert xs[..|xs|] == xs;
        return false;
      }
    }
    assert xs[..|xs|] == xs;
    r := true;
  }

  /** A bucket that is kept inline has few entries, far from what a page can count, and a value that
      any bucket may have. */
  lemma {:induction false} SmallFew(xs: seq<Inode>, pageSize: nat)
    requires Small(true, xs, pageSize) && pageSize < 64 * 0xFFFF
    ensures |xs| < 0xFFFF && 16 + Splits.SizeOf(xs) <= 0x7FFF_FFFE
  {
    BodyCount(xs);
  }

  lemma {:induction false} BodyCount(xs: seq<Inode>)
    ensures BodySize(xs) >= 16 * |xs|
  {
    if xs != [] {
      BodyCount(xs[..|xs| - 1]);
    }
  }

  // ---- how they are kept ----

  /** The value of a bucket: its header, and its root node on a page of its own. */
  ghost predicate Kept(value: seq<Byte>, root: Pgid, sequence: nat, leaf: bool, xs: seq<Inode>)
  {
    && |value| == 16 + Splits.SizeOf(xs)
    && Has(value, 0, Num(root, 8)) && Has(value, 8, Num(sequence, 8))
    && Laid(value[16..], leaf, xs)
  }

  /** Bucket.write; ok is false where writing the node panics. */
  method WriteBucket(root: Pgid, sequence: nat, leaf: bool, xs: seq<Inode>) returns (ok: bool, value: seq<Byte>)
    ensures ok <==> Writable(leaf, 0, xs)
    ensures ok ==> Kept(value, root, sequence, leaf, xs)
  {
    var size := NodeSize(leaf, xs);
    var page := new Byte[size](_ => 0);
    ghost var b := page[..];
    assert b[8..10] == [0, 0];
    ZeroFlags();
    ok := Write(page, 0, leaf, xs);
    value := Num(root, 8) + Num(sequence, 8) + page[..];
    assert value[BUCKET_HEADER_SIZE..] == page[..];
    if ok {
      HeaderBack(b, page[..], leaf, |xs|);
    }
  }

  /** openBucket: the header of a bucket, and its page if it is inline. */
  method OpenBucket(value: seq<Byte>) returns (root: Pgid, sequence: nat, page: Option<seq<Byte>>)
    requires |value| >= 16
    ensures root == Value(value[0..8]) && sequence == Value(value[8..16])
    ensures page == if root == 0 then Some(value[16..]) else None
  {
    root, sequence := Value(value[0..8]), Value(value[8..16]);
    page := if root == 0 then Some(value[BUCKET_HEADER_SIZE..]) else None;
  }

  /** The parts of a bucket value that openBucket makes out. */
  lemma {:induction false} KeptBack(value: seq<Byte>, root: Pgid, sequence: nat, leaf: bool, xs: seq<Inode>)
    requires Kept(value, root, sequence, leaf, xs) && Fits32(xs)
    requires root < 0x1_0000_0000_0000_0000 && sequence < 0x1_0000_0000_0000_0000
    ensures Value(value[0..8]) == root && Value(value[8..16]) == sequence
    ensures U64(value, 0) == root && U64(value, 8) == sequence
    ensures var b := value[16..];
            && Readable(b) && IsLeafPage(b) == leaf && CountOf(b) == |xs|
            && forall i :: 0 <= i < |xs| ==> Entry(b, leaf, i) == Stored(leaf, xs[i])
  {
    Bounds();
    NumValue(root, 8);
    NumValue(sequence, 8);
    FieldNum(value, 0);
    FieldNum(value, 8);
    LaidBack(value[16..], leaf, xs);
  }

  /** A bucket kept inline and opened again has its header and its entries. */
  method InlineBack(sequence: nat, xs: seq<Inode>, pageSize: nat)
    returns (inline: bool, written: bool, sequence': nat, xs': seq<Inode>)
    requires pageSize < 64 * 0xFFFF && sequence < 0x1_0000_0000_0000_0000
    requires forall i :: 0 <= i < |xs| ==> xs[i].key != [] && xs[i].flags < 0x1_0000_0000 && xs[i].pgid == 0
    ensures inline <==> Small(true, xs, pageSize)
    ensures inline ==> written && sequence' == sequence && xs' == xs
  {
    inline := Inlineable(Some((true, xs)), pageSize);
    written, sequence', xs' := false, 0, [];
    if inline {
      SmallFew(xs, pageSize);
      var value;
      written, value := WriteBucket(0, sequence, true, xs);
      KeptBack(value, 0, sequence, true, xs);
      var root, page;
      root, sequence', page := OpenBucket(value);
      var ok, leaf, key;
      ok, leaf, xs', key := Read(page.value);
    }
  }
}
