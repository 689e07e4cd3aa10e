/** Byte strings and their order, as bytes.Compare defines it. Every key comparison of the
    database goes through this order. */
module Bytes {
  type Byte = x: int | 0 <= x < 256

  type Key = seq<Byte>

  /** The three-way comparison: -1, 0 or 1 as a is before, equal to or after b. */
  function Compare(a: Key, b: Key): (r: int)
    ensures r == -1 <==> Lt(a, b)
    ensures r == 0 <==> a == b
    ensures r == 1 <==> Lt(b, a)
    decreases |a|
  {
    CompareRank(a, b, 0);
    CompareFrom(a, b, 0)
  }

  function CompareFrom(a: Key, b: Key, i: nat): int
    decreases |a| - i
  {
    if i >= |a| then (if i >= |b| then 0 else -1)
    else if i >= |b| then 1
    else if a[i] < b[i] then -1
    else if b[i] < a[i] then 1
    else CompareFrom(a, b, i + 1)
  }

  /** An order embedding of byte strings into the reals: digits in base 257, shifted by one so
      that a proper prefix comes first. It gives the order below for free that it is total and
      transitive. */
  ghost function Rank(k: Key): (r: real)
    ensures r >= 0.0 && (k == [] ==> r == 0.0)
  {
    assert IsRank(k, RankFrom(k, 0));
    var r :| IsRank(k, r);
    assert Digits(0);
    r
  }

  /** Mentioning Digits() is what unfolds IsRank; elsewhere a rank is just a number. */
  ghost predicate Digits(x: int) { true }

  ghost predicate IsRank(k: Key, r: real)
  {
    forall x {:trigger Digits(x)} :: Digits(x) ==> r == RankFrom(k, 0)
  }

  lemma {:induction false} RankIs(k: Key)
    ensures Rank(k) == RankFrom(k, 0)
  {
    assert IsRank(k, RankFrom(k, 0));
    assert IsRank(k, Rank(k));
    assert Digits(0);
  }

  ghost function RankFrom(k: Key, i: nat): (r: real)
    ensures 0.0 <= r < 1.0
    ensures i < |k| ==> r > 0.0
    decreases |k| - i
  {
    if i >= |k| then 0.0 else (k[i] as real + 1.0 + RankFrom(k, i + 1)) / 257.0
  }

  /** a comes strictly before b. */
  ghost predicate Lt(a: Key, b: Key) { Rank(a) < Rank(b) }

  /** a comes before b, or is b. */
  ghost predicate Le(a: Key, b: Key) { Rank(a) <= Rank(b) }

  lemma {:induction false} CompareRank(a: Key, b: Key, i: nat)
    requires i <= |a| && i <= |b| && a[..i] == b[..i]
    ensures CompareFrom(a, b, i) == -1 <==> RankFrom(a, i) < RankFrom(b, i)
    ensures CompareFrom(a, b, i) == 1 <==> RankFrom(b, i) < RankFrom(a, i)
    ensures CompareFrom(a, b, i) == 0 <==> a == b
    ensures CompareFrom(a, b, i) == 0 <==> RankFrom(a, i) == RankFrom(b, i)
    ensures Rank(a) == RankFrom(a, 0) && Rank(b) == RankFrom(b, 0)
    decreases |a| - i
  {
    RankIs(a);
    RankIs(b);
    if i < |a| && i < |b| {
      if a[i] == b[i] {
        CompareRank(a, b, i + 1);
      } else {
        assert a != b;
      }
    } else if i == |a| == |b| {
      assert a == a[..i] == b[..i] == b;
    }
  }

  /** Keys with the same place in the order are the same key. */
  lemma {:induction false} RankInjective(a: Key, b: Key)
    ensures Rank(a) == Rank(b) <==> a == b
  {
    CompareRank(a, b, 0);
  }

  /** The lexicographic order of unsigned bytes: a is a proper prefix of b, or the first byte in which they
      differ is less in a. */
  ghost predicate Before(a: Key, b: Key)
  {
    (a <= b && a != b) || exists i :: 0 <= i < |a| && i < |b| && a[..i] == b[..i] && a[i] < b[i]
  }

  lemma {:induction false} BeforeFrom(a: Key, b: Key, i: nat)
    requires i <= |a| && i <= |b| && a[..i] == b[..i]
    ensures CompareFrom(a, b, i) == -1 ==> Before(a, b)
    ensures CompareFrom(a, b, i) == 1 ==> Before(b, a)
    decreases |a| - i
  {
    if i < |a| && i < |b| {
      if a[i] == b[i] {
        assert a[..i + 1] == a[..i] + [a[i]] && b[..i + 1] == b[..i] + [b[i]];
        BeforeFrom(a, b, i + 1);
      }
    } else {
      assert a[..|a|] == a && b[..|b|] == b;
    }
  }

  lemma {:induction false} BeforeOnce(a: Key, b: Key)
    requires Before(a, b)
    ensures !Before(b, a) && a != b
  {
    if a <= b {
      assert forall i :: 0 <= i < |a| ==> a[i] == b[i];
    } else {
      var i :| 0 <= i < |a| && i < |b| && a[..i] == b[..i] && a[i] < b[i];
      forall j | 0 <= j < |a| && j < |b| ensures b[..j] == a[..j] ==> !(b[j] < a[j]) {
        DifferOnce(a, b, i, j);
      }
    }
  }

  lemma {:induction false} DifferOnce(a: Key, b: Key, i: nat, j: nat)
    requires i < |a| && i < |b| && j < |a| && j < |b| && a[..i] == b[..i] && a[i] < b[i]
    ensures b[..j] == a[..j] ==> !(b[j] < a[j])
  {
    if j < i {
      assert a[..i][j] == a[j] && b[..i][j] == b[j];
    } else if i < j {
      assert a[..j][i] == a[i] && b[..j][i] == b[i];
    }
  }

  /** The order of keys is that of their bytes. */
  lemma {:induction false} LtIs(a: Key, b: Key)
    ensures Lt(a, b) <==>
      (a <= b && a != b) || exists i :: 0 <= i < |a| && i < |b| && a[..i] == b[..i] && a[i] < b[i]
    ensures Le(a, b) <==> Lt(a, b) || a == b
  {
    var r := Compare(a, b);
    BeforeFrom(a, b, 0);
    RankInjective(a, b);
    if Before(a, b) {
      BeforeOnce(a, b);
    }
  }
}
