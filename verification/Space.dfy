/** How the memory map and the file grow. */
module Spaces {
  import opened Options
  import opened Pgids

  const MAX_MMAP_STEP := 0x4000_0000  // 1 GB

  function Pow2(i: nat): (r: nat)
    ensures r > 0
  {
    if i == 0 then 1 else 2 * Pow2(i - 1)
  }

  lemma {:induction false} Pow2Mono(i: nat, j: nat)
    requires i <= j
    ensures Pow2(i) <= Pow2(j)
    decreases j - i
  {
    if i < j {
      Pow2Mono(i, j - 1);
    }
  }

  lemma {:induction false} Pow2Ends()
    ensures Pow2(15) == 0x8000 && Pow2(30) == MAX_MMAP_STEP
  {
    assert Pow2(5) == 32 && Pow2(10) == 32 * Pow2(5) && Pow2(15) == 32 * Pow2(10);
    assert Pow2(20) == 32 * Pow2(15) && Pow2(25) == 32 * Pow2(20) && Pow2(30) == 32 * Pow2(25);
  }

  /** What mmapSize picks for a request of up to 1 GB: the least power of two from 32 KB on. */
  ghost predicate LeastPower(size: nat, r: nat)
  {
    exists i :: 15 <= i <= 30 && r == Pow2(i) && size <= Pow2(i) && (i > 15 ==> Pow2(i - 1) < size)
  }

  /** For more: the least multiple of 1 GB, made a multiple of the page size, and at most the limit. */
  ghost predicate LeastSteps(size: nat, r: nat, pageSize: nat, maxMapSize: nat)
    requires pageSize > 0
  {
    exists steps: nat, pages: nat {:trigger Stepped(size, steps), Paged(steps, pages, pageSize)} ::
      Stepped(size, steps) && Paged(steps, pages, pageSize) && r == if pages > maxMapSize then maxMapSize else pages
  }

  ghost predicate Stepped(size: nat, steps: nat)
  {
    steps % 0x4000_0000 == 0 && size <= steps < size + 0x4000_0000
  }

  ghost predicate Paged(steps: nat, pages: nat, pageSize: nat)
    requires pageSize > 0
  {
    pages % pageSize == 0 && steps <= pages < steps + pageSize
  }

  /** The size that is mapped for a request. */
  ghost predicate MapSize(size: nat, r: nat, pageSize: nat, maxMapSize: nat)
    requires pageSize > 0
  {
    if size <= 0x4000_0000 then LeastPower(size, r) else LeastSteps(size, r, pageSize, maxMapSize)
  }

  /** Rounding up to the next multiple. */
  lemma {:induction false} RoundUp(x: nat, n: nat)
    requires n > 0 && x % n != 0
    ensures (x / n + 1) * n % n == 0 && x <= (x / n + 1) * n < x + n
  {
    assert x == x / n * n + x % n;
    assert (x / n + 1) * n == x / n * n + n;
    Multiple(x / n + 1, n);
  }

  lemma {:induction false} Multiple(k: nat, n: nat)
    requires n > 0
    ensures k * n % n == 0
  {
    var q, m := k * n / n, k * n % n;
    assert k * n == q * n + m && (q + 1) * n == q * n + n;
    if q < k {
      Scale(q + 1, k, n);
    } else {
      Scale(k, q, n);
    }
  }

  lemma {:induction false} Scale(a: nat, b: nat, n: nat)
    requires a <= b
    ensures a * n <= b * n
  {
    assert b * n == a * n + (b - a) * n;
  }

  /** mmapSize: the size to map for a request; None if it is more than can be mapped. */
  method MmapSize(size: nat, pageSize: nat, maxMapSize: nat) returns (r: Option<nat>)
    requires pageSize > 0 && maxMapSize >= MAX_MMAP_STEP
    ensures r == None <==> size > maxMapSize
    ensures r != None ==> size <= r.value <= maxMapSize
    ensures r != None ==> MapSize(size, r.value, pageSize, maxMapSize)
  {
    Pow2Ends();
    for i := 15 to 31
      invariant i > 15 ==> Pow2(i - 1) < size
    {
      if size <= Pow2(i) {
        Pow2Mono(i, 30);
        return Some(Pow2(i));
      }
    }
    if size > maxMapSize {
      return None;
    }
    var sz := size;
    var remainder := sz % MAX_MMAP_STEP;
    if remainder > 0 {
      StepUp(sz);
      sz := sz + MAX_MMAP_STEP - remainder;
    }
    ghost var steps := sz;
    assert Stepped(size, steps);
    if sz % pageSize != 0 {
      RoundUp(sz, pageSize);
      sz := (sz / pageSize + 1) * pageSize;
    }
    assert Paged(steps, sz, pageSize);
    if sz > maxMapSize {
      sz := maxMapSize;
    }
    r := Some(sz);
  }

  lemma {:induction false} StepUp(x: nat)
    requires x % MAX_MMAP_STEP > 0
    ensures (x + MAX_MMAP_STEP - x % MAX_MMAP_STEP) % MAX_MMAP_STEP == 0
  {
  }

  function Max(a: nat, b: nat): nat
  {
    if a < b then b else a
  }

  /** The length of a file of the given length, once the dirty buffers are written. */
  ghost function Extended(length: nat, dirty: seq<(nat, nat)>, pageSize: nat): nat
  {
    if dirty == [] then length else (
      var (p, overflow) := dirty[|dirty| - 1];
      Max(Extended(length, dirty[..|dirty| - 1], pageSize), (p + overflow + 1) * pageSize))
  }

  /** Page x ends within the first bytes. */
  ghost predicate EndsBy(x: nat, pageSize: nat, bytes: nat)
  {
    (x + 1) * pageSize <= bytes
  }

  /** The part of a database that knows its sizes. */
  class Space {
    const pageSize: nat
    const maxMapSize: nat
    const allocSize: nat
    const truncates: bool  // grow truncates the file: not on Windows, and not with NoGrowSync
    var datasz: nat        // bytes mapped
    var filesz: nat        // what grow last set the file to; 0 when the database is opened
    var length: nat        // bytes in the file
    var hwm: nat           // the high-water mark of the open transaction: pages from here on were never in use

    /** Open, on a file of the given length whose version has the given mark. */
    constructor (pageSize: nat, maxMapSize: nat, allocSize: nat, truncates: bool, length: nat, hwm: nat)
      requires pageSize > 0 && maxMapSize >= MAX_MMAP_STEP
      ensures Valid() && this.pageSize == pageSize && this.maxMapSize == maxMapSize && this.allocSize == allocSize
      ensures this.truncates == truncates && datasz == 0 && filesz == 0 && this.length == length && this.hwm == hwm
    {
      this.pageSize, this.maxMapSize, this.allocSize, this.truncates := pageSize, maxMapSize, allocSize, truncates;
      this.datasz, this.filesz, this.length, this.hwm := 0, 0, length, hwm;
    }

    ghost predicate Valid()
    {
      pageSize > 0 && maxMapSize >= MAX_MMAP_STEP
    }

    /** The page at the high-water mark is mapped whole. */
    ghost predicate Mapped()
      reads this
    {
      (hwm + 1) * pageSize <= datasz
    }

    /** The file holds these pages. */
    ghost predicate Holds(pages: set<nat>)
      reads this
    {
      forall x :: x in pages ==> EndsBy(x, pageSize, length)
    }

    /** The file has its meta pages, neither it nor the request is too large, and mapping does not fail. */
    ghost predicate CanMap(minsz: nat, fails: bool)
      reads `length
    {
      pageSize * 2 <= length <= maxMapSize && minsz <= maxMapSize && !fails
    }

    /** mmap: maps at least minsz bytes, and all of the file. fails says that unmapping, mapping or reading
        the meta pages fails, after which the size is not defined. */
    method Mmap(minsz: nat, fails: bool) returns (ok: bool)
      requires Valid()
      modifies `datasz
      ensures ok <==> CanMap(minsz, fails)
      ensures ok ==> minsz <= datasz && length <= datasz <= maxMapSize
      ensures ok ==> MapSize(if length < minsz then minsz else length, datasz, pageSize, maxMapSize)
    {
      if length < pageSize * 2 {
        return false;
      }
      var size := length;
      if size < minsz {
        size := minsz;
      }
      var r := MmapSize(size, pageSize, maxMapSize);
      if r == None {
        return false;
      }
      datasz := if fails then 0 else r.value;
      ok := !fails;
    }

    /** The end of allocate, when no run of free pages was found: the pages at the high-water mark are
        handed out. When it moves, the page that it moves to is mapped whole. */
    method Extend(count: nat, fails: bool) returns (p: Option<nat>)
      requires Valid()
      modifies `datasz, `hwm
      ensures var minsz := (old(hwm) + count + 1) * pageSize;
              p == None <==> minsz >= old(datasz) && !CanMap(minsz, fails)
      ensures p == None ==> hwm == old(hwm)
      ensures p != None ==> p == Some(old(hwm)) && hwm == old(hwm) + count && Mapped() && datasz >= old(datasz)
      ensures (old(hwm) + count + 1) * pageSize < old(datasz) ==> datasz == old(datasz)
    {
      var minsz := (hwm + count + 1) * pageSize;
      if minsz >= datasz {
        var ok := Mmap(minsz, fails);
        if !ok {
          return None;
        }
      }
      p := Some(hwm);
      hwm := hwm + count;
    }

    /** grow: if that much is mapped, the size recorded for the file becomes at least what is asked, on the
        branch that ignores the request too. Truncating never cuts off what is asked for. */
    method Grow(sz: nat)
      requires sz <= datasz
      modifies `filesz, `length
      ensures sz <= filesz && old(filesz) <= filesz
      ensures filesz == if sz <= old(filesz) then old(filesz) else if datasz < allocSize then datasz else sz + allocSize
      ensures length == if sz > old(filesz) && truncates then filesz else old(length)
    {
      if sz <= filesz {
        return;
      }
      var size := sz;
      if datasz < allocSize {
        size := datasz;
      } else {
        size := size + allocSize;
      }
      if truncates {
        length := size;
      }
      filesz := size;
    }

    /** writeAt: a page with its overflow pages; the file becomes longer if it must. */
    method WriteAt(p: nat, overflow: nat)
      modifies `length
      ensures length == Max(old(length), (p + overflow + 1) * pageSize) && Holds(Run(p, overflow + 1))
    {
      var end := (p + overflow + 1) * pageSize;
      forall x | x in Run(p, overflow + 1) ensures EndsBy(x, pageSize, end) {
        Scale(x + 1, p + overflow + 1, pageSize);
      }
      if length < end {
        length := end;
      }
    }

    /** The loop of tx.write. */
    method WritePages(dirty: seq<(nat, nat)>)
      modifies `length
      ensures length == Extended(old(length), dirty, pageSize)
      ensures old(length) <= length && forall i :: 0 <= i < |dirty| ==> Holds(Run(dirty[i].0, dirty[i].1 + 1))
    {
      for i := 0 to |dirty|
        invariant length == Extended(old(length), dirty[..i], pageSize)
        invariant old(length) <= length && forall k :: 0 <= k < i ==> Holds(Run(dirty[k].0, dirty[k].1 + 1))
      {
        assert dirty[..i + 1][..i] == dirty[..i];
        WriteAt(dirty[i].0, dirty[i].1);
      }
      assert dirty[..|dirty|] == dirty;
    }

    /** The growth at commit. The mark it compares with is taken after the tree is spilled, so of all
        allocations only the one for the freelist counts. */
    method GrowAtCommit(opgid: nat)
      requires opgid <= hwm && (hwm > opgid ==> Mapped())
      modifies `filesz, `length
      ensures hwm > opgid ==> (hwm + 1) * pageSize <= filesz
      ensures hwm > opgid && length != old(length) ==> (hwm + 1) * pageSize <= length
      ensures length == if hwm > opgid && (hwm + 1) * pageSize > old(filesz) && truncates then filesz else old(length)
      ensures hwm == opgid ==> filesz == old(filesz) && length == old(length)
    {
      if hwm > opgid {
        Grow((hwm + 1) * pageSize);
      }
    }

    /** From the allocation for the freelist to the write of the dirty pages. The freelist takes n pages: the
        run at p of free pages, or if p is 0 new ones at the mark. Pages of the versions before lie below
        the mark. After it the file holds them still, and all that was written; the size recorded for it
        covers the mark exactly if the freelist moved the mark or the size did before. */
    method Commit(n: nat, p: nat, dirty: seq<(nat, nat)>, fails: bool, ghost used: set<nat>) returns (list: Option<nat>)
      requires Valid() && n > 0 && Holds(used) && forall x :: x in used ==> x < hwm
      modifies `datasz, `hwm, `filesz, `length
      ensures p != 0 ==> list == Some(p) && hwm == old(hwm) && filesz == old(filesz)
      ensures p == 0 && list != None ==> list == Some(old(hwm)) && hwm == old(hwm) + n && Mapped()
      ensures var minsz := (old(hwm) + n + 1) * pageSize;
              list == None <==> p == 0 && minsz >= old(datasz) && !old(CanMap(minsz, fails))
      ensures list == None ==> hwm == old(hwm) && filesz == old(filesz) && length == old(length)
      ensures list != None ==> Holds(used + Run(list.value, n))
      ensures list != None ==> forall i :: 0 <= i < |dirty| ==> Holds(Run(dirty[i].0, dirty[i].1 + 1))
      ensures list != None ==>
        var grown := p == 0 && (hwm + 1) * pageSize > old(filesz) && truncates;
        length == Extended(if grown then filesz else old(length), dirty + [(list.value, n - 1)], pageSize)
      ensures list != None ==>
        ((hwm + 1) * pageSize <= filesz <==> p == 0 || (old(hwm) + 1) * pageSize <= old(filesz))
    {
      var opgid := hwm;
      list := Some(p);
      if p == 0 {
        list := Extend(n, fails);
        if list == None {
          return;
        }
      }
      GrowAtCommit(opgid);
      StillHolds(used, old(length));
      var pages := dirty + [(list.value, n - 1)];
      assert pages[..|dirty|] == dirty;
      assert Run(list.value, n - 1 + 1) == Run(list.value, n);
      WritePages(pages);
    }

    lemma {:induction false} StillHolds(used: set<nat>, was: nat)
      requires forall x :: x in used ==> x < hwm && EndsBy(x, pageSize, was)
      requires was <= length || (hwm + 1) * pageSize <= length
      ensures Holds(used)
    {
      forall x | x in used ensures EndsBy(x, pageSize, length) {
        Scale(x + 1, hwm + 1, pageSize);
      }
    }
  }

  /** The size recorded for the file can stay behind the mark: a database that was just opened and commits
      new pages for its tree, but none for its freelist, records 0, whatever its sizes. The file itself
      holds the pages. */
  method TreeAloneIsNotRecorded(s: Space, count: nat, p: nat, n: nat, dirty: seq<(nat, nat)>, ghost used: set<nat>)
    requires s.Valid() && s.filesz == 0 && s.Holds(used) && n > 0 && p != 0 && forall x :: x in used ==> x < s.hwm
    modifies s
    ensures s.filesz == 0 < (s.hwm + 1) * s.pageSize && s.Holds(used + Run(p, n))
    ensures forall i :: 0 <= i < |dirty| ==> s.Holds(Run(dirty[i].0, dirty[i].1 + 1))
    ensures s.hwm == old(s.hwm) + count || s.hwm == old(s.hwm)
  {
    var _ := s.Extend(count, false);
    var list := s.Commit(n, p, dirty, false, used);
    assert list == Some(p);
    Scale(1, s.hwm + 1, s.pageSize);
  }
}
