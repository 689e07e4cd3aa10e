/** Page ids, and the sorted lists of them that the freelist is made of. */
module Pgids {
  type Pgid = nat
  type Txid = nat

  const PAGE_HEADER_SIZE := 16

  ghost predicate Sorted(s: seq<Pgid>)
  {
    forall i, j :: 0 <= i < j < |s| ==> s[i] <= s[j]
  }

  /** Sorted without repetition. */
  ghost predicate Ascending(s: seq<Pgid>)
  {
    forall i, j :: 0 <= i < j < |s| ==> s[i] < s[j]
  }

  ghost predicate NoRepeat(s: seq<Pgid>)
  {
    forall i, j :: 0 <= i < j < |s| ==> s[i] != s[j]
  }

  ghost function Elems(s: seq<Pgid>): set<Pgid>
  {
    set x | x in s
  }

  /** The ids from a page to the last of its overflow pages. */
  function Run(start: Pgid, n: nat): (r: set<Pgid>)
    ensures forall x :: x in r <==> start <= x < start + n
  {
    if n == 0 then {} else Run(start, n - 1) + {start + n - 1}
  }

  /** An ascending list is determined by its elements. */
  lemma {:induction false} AscendingUnique(s: seq<Pgid>, t: seq<Pgid>)
    requires Ascending(s) && Ascending(t) && Elems(s) == Elems(t)
    ensures s == t
    decreases |s|
  {
    ElemsCount(s);
    ElemsCount(t);
    if s != [] {
      assert s[0] in Elems(t) && t[0] in Elems(s);
      assert s[0] == t[0];
      forall x | x in Elems(s[1..]) ensures x in Elems(t[1..]) {
        assert x in Elems(t);
      }
      forall x | x in Elems(t[1..]) ensures x in Elems(s[1..]) {
        assert x in Elems(s);
      }
      AscendingUnique(s[1..], t[1..]);
    }
  }

  lemma {:induction false} ElemsCount(s: seq<Pgid>)
    requires NoRepeat(s)
    ensures |Elems(s)| == |s|
  {
    if s == [] {
      assert Elems(s) == {};
    } else {
      ElemsCount(s[1..]);
      assert Elems(s) == {s[0]} + Elems(s[1..]);
    }
  }

  lemma {:induction false} MultisetSplit(s: seq<Pgid>, n: nat)
    requires n <= |s|
    ensures multiset(s) == multiset(s[..n]) + multiset(s[n..])
  {
    assert s == s[..n] + s[n..];
  }

  lemma {:induction false} Repeated(s: seq<Pgid>, i: nat, j: nat)
    requires i < j < |s| && s[i] == s[j]
    ensures multiset(s)[s[i]] >= 2
  {
    assert s == s[..i] + [s[i]] + s[i + 1..j] + [s[j]] + s[j + 1..];
  }

  lemma {:induction false} OnceEach(s: seq<Pgid>, x: Pgid)
    requires NoRepeat(s)
    ensures multiset(s)[x] <= 1
  {
    if s != [] {
      assert s == [s[0]] + s[1..];
      OnceEach(s[1..], x);
      assert s[0] !in s[1..];
    }
  }

  /** Sorting two lists without common ids together gives an ascending list of their union. */
  lemma {:induction false} MergedAscending(s: seq<Pgid>, a: seq<Pgid>, b: seq<Pgid>)
    requires Sorted(s) && multiset(s) == multiset(a) + multiset(b)
    requires NoRepeat(a) && NoRepeat(b) && Elems(a) !! Elems(b)
    ensures Ascending(s) && Elems(s) == Elems(a) + Elems(b)
  {
    forall i, j | 0 <= i < j < |s| ensures s[i] < s[j] {
      var x := s[i];
      OnceEach(a, x);
      OnceEach(b, x);
      assert x in a ==> x in Elems(a);
      assert x in b ==> x in Elems(b);
      assert multiset(s)[x] <= 1;
      if s[i] == s[j] {
        Repeated(s, i, j);
      }
    }
    forall x ensures x in Elems(s) <==> x in Elems(a) + Elems(b) {
      assert x in multiset(s) <==> x in multiset(a) || x in multiset(b);
    }
  }

  /** sort.Sort on page ids: a library routine, here by insertion. */
  function Sort(s: seq<Pgid>): (r: seq<Pgid>)
    ensures Sorted(r) && multiset(r) == multiset(s)
  {
    if s == [] then [] else
      assert s == s[..|s| - 1] + [s[|s| - 1]];
      Insert(Sort(s[..|s| - 1]), s[|s| - 1])
  }

  function Insert(s: seq<Pgid>, x: Pgid): (r: seq<Pgid>)
    requires Sorted(s)
    ensures Sorted(r) && multiset(r) == multiset(s) + multiset{x}
  {
    if s == [] || x <= s[0] then [x] + s else
      assert s == [s[0]] + s[1..];
      var r := Insert(s[1..], x);
      InsertAbove(r, s[1..], x, s[0]);
      [s[0]] + r
  }

  lemma {:induction false} InsertAbove(r: seq<Pgid>, s: seq<Pgid>, x: Pgid, low: Pgid)
    requires multiset(r) == multiset(s) + multiset{x} && low <= x && forall i :: 0 <= i < |s| ==> low <= s[i]
    ensures forall i :: 0 <= i < |r| ==> low <= r[i]
  {
    forall i | 0 <= i < |r| ensures low <= r[i] {
      assert r[i] in multiset(r);
      assert r[i] == x || r[i] in s;
    }
  }

  /** sort.Search for the first id above x. */
  method SearchAbove(s: seq<Pgid>, x: Pgid) returns (n: nat)
    requires Sorted(s)
    ensures n <= |s| && (forall i :: 0 <= i < n ==> s[i] <= x) && forall i :: n <= i < |s| ==> s[i] > x
  {
    var i, j := 0, |s|;
    while i < j
      invariant 0 <= i <= j <= |s|
      invariant forall m :: 0 <= m < i ==> s[m] <= x
      invariant forall m :: j <= m < |s| ==> s[m] > x
    {
      var h := (i + j) / 2;
      if s[h] <= x {
        i := h + 1;
      } else {
        j := h;
      }
    }
    n := i;
  }

  /** copy and append into an array that is large enough: s goes to dst from position at on. */
  method CopyInto(dst: array<Pgid>, at: nat, s: seq<Pgid>)
    requires at + |s| <= dst.Length
    modifies dst
    ensures dst[..at] == old(dst[..at]) && dst[at..at + |s|] == s && dst[at + |s|..] == old(dst[at + |s|..])
  {
    for i := 0 to |s|
      invariant dst[..at] == old(dst[..at]) && dst[at..at + i] == s[..i]
      invariant dst[at + i..] == old(dst[at + i..])
    {
      ghost var rest := dst[at + i..];
      dst[at + i] := s[i];
      assert dst[at + i + 1..] == rest[1..];
      assert dst[at..at + i + 1] == dst[at..at + i] + [s[i]];
    }
  }

  /** mergepgids: fills dst, from position at on, with the sorted ids of a and b. The list with the
      lower first id leads; what is not above the first id of the other is copied, then they swap. */
  method MergePgids(dst: array<Pgid>, at: nat, a: seq<Pgid>, b: seq<Pgid>)
    requires at + |a| + |b| <= dst.Length && Sorted(a) && Sorted(b)
    modifies dst
    ensures dst[..at] == old(dst[..at]) && dst[at + |a| + |b|..] == old(dst[at + |a| + |b|..])
    ensures Sorted(dst[at..at + |a| + |b|])
    ensures multiset(dst[at..at + |a| + |b|]) == multiset(a) + multiset(b)
  {
    if |a| == 0 {
      CopyInto(dst, at, b);
      assert dst[at..at + |b|] == b;
      return;
    }
    if |b| == 0 {
      CopyInto(dst, at, a);
      assert dst[at..at + |a|] == a;
      return;
    }
    if b[0] < a[0] {
      Interleave(dst, at, b, a);
    } else {
      Interleave(dst, at, a, b);
    }
  }

  /** The loop of mergepgids. */
  method Interleave(dst: array<Pgid>, at: nat, a: seq<Pgid>, b: seq<Pgid>)
    requires at + |a| + |b| <= dst.Length && Sorted(a) && Sorted(b) && a != [] && b != [] && a[0] <= b[0]
    modifies dst
    ensures dst[..at] == old(dst[..at]) && dst[at + |a| + |b|..] == old(dst[at + |a| + |b|..])
    ensures Sorted(dst[at..at + |a| + |b|])
    ensures multiset(dst[at..at + |a| + |b|]) == multiset(a) + multiset(b)
  {
    ghost var end := at + |a| + |b|;
    var m, lead, follow := at, a, b;
    assert dst[at..at] == [];
    while |lead| > 0
      invariant at <= m && m + |lead| + |follow| == end && Between(dst[at..m], lead, follow, a, b)
      invariant dst[..at] == old(dst[..at]) && dst[end..] == old(dst[end..])
      decreases |lead| + |follow|
    {
      var n := NextRound(dst, at, m, lead, follow, end, a, b);
      m := m + n;
      if n >= |lead| {
        lead := [];
        break;
      }
      lead, follow := follow, lead[n..];
    }
    Finish(dst, at, m, follow, a, b);
  }

  /** Mentioning Round() is what unfolds Between; elsewhere it stays a single fact. */
  ghost predicate Round(x: int) { true }

  /** Between rounds: the merged ids are sorted and below what is left, and with it all ids of a and b. */
  ghost predicate Between(done: seq<Pgid>, lead: seq<Pgid>, follow: seq<Pgid>, a: seq<Pgid>, b: seq<Pgid>)
  {
    forall x {:trigger Round(x)} :: Round(x) ==>
      Ahead(done, lead, follow) && multiset(done) + multiset(lead) + multiset(follow) == multiset(a) + multiset(b)
  }

  /** One round of the loop, up to the swap. */
  method NextRound(dst: array<Pgid>, ghost at: nat, m: nat, lead: seq<Pgid>, follow: seq<Pgid>, ghost end: nat,
                   ghost a: seq<Pgid>, ghost b: seq<Pgid>)
    returns (n: nat)
    requires at <= m && m + |lead| <= end <= dst.Length && lead != [] && Between(dst[at..m], lead, follow, a, b)
    modifies dst
    ensures 0 < n <= |lead| && dst[..at] == old(dst[..at]) && dst[end..] == old(dst[end..])
    ensures n < |lead| ==> Between(dst[at..m + n], follow, lead[n..], a, b)
    ensures n == |lead| ==> Between(dst[at..m + n], [], follow, a, b)
  {
    assert Round(0);
    n := Advance(dst, at, m, lead, follow, end);
  }

  /** The rest of the list that follows is above all that was merged. */
  method Finish(dst: array<Pgid>, ghost at: nat, m: nat, follow: seq<Pgid>, ghost a: seq<Pgid>, ghost b: seq<Pgid>)
    requires at <= m && m + |follow| <= dst.Length && Between(dst[at..m], [], follow, a, b)
    modifies dst
    ensures dst[..at] == old(dst[..at]) && dst[m + |follow|..] == old(dst[m + |follow|..])
    ensures Sorted(dst[at..m + |follow|])
    ensures multiset(dst[at..m + |follow|]) == multiset(a) + multiset(b)
  {
    assert Round(0);
    ghost var done := dst[at..m];
    CopyInto(dst, m, follow);
    assert dst[..at] == dst[..m][..at];
    assert dst[at..m + |follow|] == done + follow;
  }

  /** The merged ids are sorted and below what is left; the list that leads has the lower first id. */
  ghost predicate Ahead(done: seq<Pgid>, lead: seq<Pgid>, follow: seq<Pgid>)
  {
    && Sorted(done) && Sorted(lead) && Sorted(follow) && Below(done, lead) && Below(done, follow)
    && follow != [] && (lead != [] ==> lead[0] <= follow[0])
  }

  /** One round of mergepgids: what leads the other list is copied. */
  method Advance(dst: array<Pgid>, ghost at: nat, m: nat, lead: seq<Pgid>, follow: seq<Pgid>, ghost end: nat)
    returns (n: nat)
    requires at <= m && m + |lead| <= end <= dst.Length && lead != [] && Ahead(dst[at..m], lead, follow)
    modifies dst
    ensures 0 < n <= |lead| && dst[..at] == old(dst[..at]) && dst[end..] == old(dst[end..])
    ensures if n < |lead| then Ahead(dst[at..m + n], follow, lead[n..]) else Ahead(dst[at..m + n], [], follow)
    ensures multiset(dst[at..m + n]) + multiset(lead[n..]) == old(multiset(dst[at..m])) + multiset(lead)
  {
    ghost var done := dst[at..m];
    n := SearchAbove(lead, follow[0]);
    CopyInto(dst, m, lead[..n]);
    assert dst[at..m + n] == done + lead[..n];
    assert dst[..at] == dst[..m][..at] && dst[end..] == dst[m + n..][end - m - n..];
    AppendSorted(done, lead, follow, n);
    MultisetSplit(lead, n);
  }

  /** No id of s is above an id of t. */
  ghost predicate Below(s: seq<Pgid>, t: seq<Pgid>)
  {
    forall i, j :: 0 <= i < |s| && 0 <= j < |t| ==> s[i] <= t[j]
  }

  lemma {:induction false} AppendSorted(done: seq<Pgid>, lead: seq<Pgid>, follow: seq<Pgid>, n: nat)
    requires Sorted(done) && Sorted(lead) && Sorted(follow) && n <= |lead| && follow != []
    requires Below(done, lead) && Below(done, follow) && forall i :: 0 <= i < n ==> lead[i] <= follow[0]
    ensures Sorted(done + lead[..n]) && Below(done + lead[..n], lead[n..]) && Below(done + lead[..n], follow)
  {
  }

  /** pgids.merge: the sorted ids of a and b. */
  method Merge(a: seq<Pgid>, b: seq<Pgid>) returns (merged: seq<Pgid>)
    requires Sorted(a) && Sorted(b)
    ensures Sorted(merged) && multiset(merged) == multiset(a) + multiset(b)
  {
    if |a| == 0 {
      return b;
    }
    if |b| == 0 {
      return a;
    }
    var dst := new Pgid[|a| + |b|];
    MergePgids(dst, 0, a, b);
    merged := dst[..];
    assert dst[..] == dst[0..0 + |a| + |b|];
  }
}
