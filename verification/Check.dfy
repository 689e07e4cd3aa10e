/** The consistency check: every page below the high-water mark is reachable once or free. */
module Checks {
  import opened Options
  import opened Pgids
  import opened Protocol
  import opened Safety
  import opened Runs

  datatype Kind = BranchPage | LeafPage | OtherPage

  datatype Problem =
    | AlreadyFreed(id: Pgid)
    | OutOfBounds(id: Pgid)
    | MultipleReferences(id: Pgid)
    | ReachableFreed(id: Pgid)
    | InvalidType(id: Pgid)
    | UnreachableUnfreed(id: Pgid)

  /** A page as the check comes upon it. */
  datatype Visit = Visit(id: Pgid, overflow: nat, kind: Kind)

  /** What is found by following page ids down from a page. The same page may be found in several
      places; only branch pages are followed. */
  datatype Walk = Walk(page: Visit, kids: seq<Walk>)

  /** A bucket: inline, or with a root page, and the buckets nested in it. */
  datatype BucketPages = Inline | Paged(root: Walk, nested: seq<BucketPages>)

  /** The pages below a page in the order they are visited. */
  ghost function WalkVisits(w: Walk): seq<Visit>
    decreases w, 1
  {
    [w.page] + if w.page.kind == BranchPage then KidVisits(w, |w.kids|) else []
  }

  ghost function KidVisits(w: Walk, n: nat): seq<Visit>
    requires n <= |w.kids|
    decreases w, 0, n
  {
    if n == 0 then [] else KidVisits(w, n - 1) + WalkVisits(w.kids[n - 1])
  }

  /** The pages of a bucket and of the buckets in it. */
  ghost function BucketVisits(b: BucketPages): seq<Visit>
    decreases b, 1
  {
    if b.Inline? then [] else WalkVisits(b.root) + NestedVisits(b, |b.nested|)
  }

  ghost function NestedVisits(b: BucketPages, n: nat): seq<Visit>
    requires b.Paged? && n <= |b.nested|
    decreases b, 0, n
  {
    if n == 0 then [] else NestedVisits(b, n - 1) + BucketVisits(b.nested[n - 1])
  }

  /** The meta pages and the pages of the freelist. */
  ghost function Fixed(list: Pgid, overflow: nat): set<Pgid>
  {
    {0, 1} + Run(list, overflow + 1)
  }

  ghost function VisitRun(v: Visit): set<Pgid>
  {
    Run(v.id, v.overflow + 1)
  }

  /** All pages of the visits, with their overflow pages. */
  ghost function Reached(vs: seq<Visit>): (r: set<Pgid>)
  {
    if vs == [] then {} else Reached(vs[..|vs| - 1]) + VisitRun(vs[|vs| - 1])
  }

  /** A page that is within bounds, not free, and a branch or a leaf. */
  ghost predicate VisitOk(v: Visit, freed: set<Pgid>, top: Pgid)
  {
    v.id <= top && v.id !in freed && v.kind != OtherPage
  }

  /** Each visit is to a good page, and no page is met twice, nor one that is fixed. */
  ghost predicate VisitsOk(vs: seq<Visit>, fixed: set<Pgid>, freed: set<Pgid>, top: Pgid)
  {
    && (forall i :: 0 <= i < |vs| ==> VisitOk(vs[i], freed, top) && VisitRun(vs[i]) !! fixed)
    && forall i, j :: 0 <= i < j < |vs| ==> VisitRun(vs[i]) !! VisitRun(vs[j])
  }

  /** What it means that nothing is wrong with the free ids all and the pages that are visited. */
  ghost predicate Accounted(all: seq<Pgid>, vs: seq<Visit>, list: Pgid, overflow: nat, top: Pgid)
  {
    && NoRepeat(all) && VisitsOk(vs, Fixed(list, overflow), Elems(all), top)
    && AllIn(Fixed(list, overflow) + Reached(vs) + Elems(all), top)
  }

  /** What each report says of the free ids all and the pages visited. */
  ghost predicate IsProblem(all: seq<Pgid>, vs: seq<Visit>, fixed: set<Pgid>, top: Pgid, p: Problem)
  {
    match p
    case AlreadyFreed(id) => exists i, j :: 0 <= i < j < |all| && all[i] == id && all[j] == id
    case OutOfBounds(id) => id > top && exists i :: 0 <= i < |vs| && vs[i].id == id
    case MultipleReferences(id) => exists i :: 0 <= i < |vs| && id in VisitRun(vs[i]) && id in fixed + Reached(vs[..i])
    case ReachableFreed(id) => id in all && exists i :: 0 <= i < |vs| && vs[i].id == id
    case InvalidType(id) => id !in all && exists i :: 0 <= i < |vs| && vs[i].id == id && vs[i].kind == OtherPage
    case UnreachableUnfreed(id) => id < top && id !in all && id !in fixed && id !in Reached(vs)
  }

  /** check: it reports nothing exactly if all pages are accounted for, and else exactly what is wrong. */
  method Check(all: seq<Pgid>, root: BucketPages, list: Pgid, overflow: nat, top: Pgid) returns (problems: seq<Problem>)
    ensures problems == [] <==> Accounted(all, BucketVisits(root), list, overflow, top)
    ensures forall p :: p in problems <==> IsProblem(all, BucketVisits(root), Fixed(list, overflow), top, p)
  {
    var freed, p1 := CheckFreed(all);
    var reachable := {0, 1};
    for i := 0 to overflow + 1
      invariant reachable == {0, 1} + Run(list, i)
    {
      reachable := reachable + {list + i};
    }
    var p2;
    reachable, p2 := CheckBucket(root, reachable, freed, top, [], Fixed(list, overflow));
    assert Scan(0) && [] + BucketVisits(root) == BucketVisits(root);
    var p3 := CheckUsed(reachable, freed, top);
    problems := p1 + p2 + p3;
    ProblemsAre(all, BucketVisits(root), Fixed(list, overflow), top, p1, p2, p3);
  }

  lemma {:induction false} ProblemsAre(all: seq<Pgid>, vs: seq<Visit>, fixed: set<Pgid>, top: Pgid, p1: seq<Problem>,
                                       p2: seq<Problem>, p3: seq<Problem>)
    requires forall p :: p in p1 <==> p.AlreadyFreed? && Repeats(all, p.id)
    requires Told([], vs, fixed, Elems(all), top, p2)
    requires forall p :: p in p3 <==> p.UnreachableUnfreed? && p.id < top && p.id !in fixed + Reached(vs) + Elems(all)
    ensures forall p :: p in p1 + p2 + p3 <==> IsProblem(all, vs, fixed, top, p)
  {
    forall p ensures p in p1 + p2 + p3 <==> IsProblem(all, vs, fixed, top, p) {
      assert p in p1 + p2 + p3 <==> p in p1 || p in p2 || p in p3;
      assert p in p2 <==> FoundIn([], vs, fixed, Elems(all), top, p);
      assert forall i :: 0 <= i < |vs| ==> [] + vs[..i] == vs[..i];
      assert p.id in all <==> p.id in Elems(all);
    }
  }

  ghost predicate Repeats(all: seq<Pgid>, id: Pgid)
  {
    exists i, j :: 0 <= i < j < |all| && all[i] == id && all[j] == id
  }

  lemma {:induction false} RepeatsNext(all: seq<Pgid>, i: nat, id: Pgid)
    requires i < |all|
    ensures Repeats(all[..i + 1], id) <==> Repeats(all[..i], id) || (id in all[..i] && id == all[i])
  {
    var s, t := all[..i], all[..i + 1];
    if a, b :| 0 <= a < b < |t| && t[a] == id && t[b] == id {
      assert s[a] == id;
      assert b < i ==> s[b] == id;
    }
    if a, b :| 0 <= a < b < |s| && s[a] == id && s[b] == id {
      assert t[a] == id && t[b] == id;
    }
    if id in s && id == all[i] {
      var a :| 0 <= a < |s| && s[a] == id;
      assert t[a] == id && t[i] == id;
    }
  }

  method CheckFreed(all: seq<Pgid>) returns (freed: set<Pgid>, problems: seq<Problem>)
    ensures freed == Elems(all) && (problems == [] <==> NoRepeat(all))
    ensures forall p :: p in problems <==> p.AlreadyFreed? && Repeats(all, p.id)
  {
    freed, problems := {}, [];
    for i := 0 to |all|
      invariant freed == Elems(all[..i]) && (problems == [] <==> NoRepeat(all[..i]))
      invariant forall p :: p in problems <==> p.AlreadyFreed? && Repeats(all[..i], p.id)
    {
      var id := all[i];
      forall x ensures Repeats(all[..i + 1], x) <==> Repeats(all[..i], x) || (x in all[..i] && x == id) {
        RepeatsNext(all, i, x);
      }
      assert all[..i + 1] == all[..i] + [id];
      assert id in freed <==> id in all[..i];
      assert NoRepeat(all[..i + 1]) <==> NoRepeat(all[..i]) && id !in all[..i];
      if id in freed {
        problems := problems + [AlreadyFreed(id)];
      }
      freed := freed + {id};
    }
    assert all[..|all|] == all;
  }

  /** Mentioning Scan() is what unfolds Good; elsewhere it stays a single fact. */
  ghost predicate Scan(x: int) { true }

  ghost predicate Good(vs: seq<Visit>, fixed: set<Pgid>, freed: set<Pgid>, top: Pgid)
  {
    forall x {:trigger Scan(x)} :: Scan(x) ==> VisitsOk(vs, fixed, freed, top)
  }

  /** The visits more after those before, as far as problems go. */
  ghost predicate Reports(before: seq<Visit>, more: seq<Visit>, fixed: set<Pgid>, freed: set<Pgid>, top: Pgid,
                          problems: seq<Problem>)
  {
    Good(before, fixed, freed, top) ==> (problems == [] <==> Good(before + more, fixed, freed, top))
  }

  lemma {:induction false} GoodPrefix(before: seq<Visit>, more: seq<Visit>, fixed: set<Pgid>, freed: set<Pgid>,
                                      top: Pgid)
    requires Good(before + more, fixed, freed, top)
    ensures Good(before, fixed, freed, top)
  {
    assert Scan(0);
    var vs := before + more;
    assert forall i :: 0 <= i < |before| ==> vs[i] == before[i];
  }

  /** What is reached and reported after the visits more, when those before are done. */
  ghost predicate Progress(before: seq<Visit>, more: seq<Visit>, fixed: set<Pgid>, freed: set<Pgid>, top: Pgid,
                           reachable: set<Pgid>, problems: seq<Problem>)
  {
    && reachable == fixed + Reached(before + more) && Reports(before, more, fixed, freed, top, problems)
    && Told(before, more, fixed, freed, top, problems)
  }

  /** What visit v, after those before, gives a report of. */
  ghost predicate Tells(before: seq<Visit>, v: Visit, fixed: set<Pgid>, freed: set<Pgid>, top: Pgid, p: Problem)
  {
    match p
    case OutOfBounds(id) => v.id == id && id > top
    case MultipleReferences(id) => id in VisitRun(v) && id in fixed + Reached(before)
    case ReachableFreed(id) => v.id == id && id in freed
    case InvalidType(id) => v.id == id && id !in freed && v.kind == OtherPage
    case _ => false
  }

  ghost predicate FoundIn(before: seq<Visit>, more: seq<Visit>, fixed: set<Pgid>, freed: set<Pgid>, top: Pgid,
                          p: Problem)
  {
    exists i :: 0 <= i < |more| && Tells(before + more[..i], more[i], fixed, freed, top, p)
  }

  /** The reports of the visits more after those before. */
  ghost predicate Told(before: seq<Visit>, more: seq<Visit>, fixed: set<Pgid>, freed: set<Pgid>, top: Pgid,
                       problems: seq<Problem>)
  {
    forall p :: p in problems <==> FoundIn(before, more, fixed, freed, top, p)
  }

  lemma {:induction false} FoundBoth(before: seq<Visit>, one: seq<Visit>, two: seq<Visit>, fixed: set<Pgid>,
                                     freed: set<Pgid>, top: Pgid, p: Problem)
    ensures FoundIn(before, one + two, fixed, freed, top, p) <==>
      FoundIn(before, one, fixed, freed, top, p) || FoundIn(before + one, two, fixed, freed, top, p)
  {
    var both := one + two;
    forall i | 0 <= i < |one| ensures both[..i] == one[..i] && both[i] == one[i] {
    }
    forall i | 0 <= i < |two|
      ensures before + both[..|one| + i] == before + one + two[..i] && both[|one| + i] == two[i]
    {
      assert both[..|one| + i] == one + two[..i];
    }
    if i :| 0 <= i < |both| && Tells(before + both[..i], both[i], fixed, freed, top, p) {
      if i < |one| {
        assert Tells(before + one[..i], one[i], fixed, freed, top, p);
      } else {
        var k := i - |one|;
        assert both[..|one| + k] == both[..i];
        assert Tells(before + one + two[..k], two[k], fixed, freed, top, p);
      }
    }
    if i :| 0 <= i < |two| && Tells(before + one + two[..i], two[i], fixed, freed, top, p) {
      assert Tells(before + both[..|one| + i], both[|one| + i], fixed, freed, top, p);
    }
    if i :| 0 <= i < |one| && Tells(before + one[..i], one[i], fixed, freed, top, p) {
      assert Tells(before + both[..i], both[i], fixed, freed, top, p);
    }
  }

  /** The progress of one part and of the next is the progress of both. */
  lemma {:induction false} ProgressBoth(before: seq<Visit>, one: seq<Visit>, two: seq<Visit>, both: seq<Visit>,
                                        fixed: set<Pgid>,
                                        freed: set<Pgid>, top: Pgid, r1: set<Pgid>, p1: seq<Problem>, r2: set<Pgid>,
                                        p2: seq<Problem>)
    requires Progress(before, one, fixed, freed, top, r1, p1) && Progress(before + one, two, fixed, freed, top, r2, p2)
    requires both == one + two
    ensures Progress(before, both, fixed, freed, top, r2, p1 + p2)
  {
    assert before + both == (before + one) + two;
    if Good(before + one + two, fixed, freed, top) {
      GoodPrefix(before + one, two, fixed, freed, top);
    }
    forall p ensures p in p1 + p2 <==> FoundIn(before, both, fixed, freed, top, p) {
      FoundBoth(before, one, two, fixed, freed, top, p);
    }
  }

  lemma {:induction false} ProgressNone(before: seq<Visit>, fixed: set<Pgid>, freed: set<Pgid>, top: Pgid,
                                        reachable: set<Pgid>)
    requires reachable == fixed + Reached(before)
    ensures Progress(before, [], fixed, freed, top, reachable, [])
  {
    assert before + [] == before;
  }

  /** What one more visit adds. */
  lemma {:induction false} VisitNext(before: seq<Visit>, v: Visit, fixed: set<Pgid>, freed: set<Pgid>, top: Pgid)
    ensures Reached(before + [v]) == Reached(before) + VisitRun(v)
    ensures Good(before, fixed, freed, top) ==>
      (Good(before + [v], fixed, freed, top) <==> VisitOk(v, freed, top) && VisitRun(v) !! fixed + Reached(before))
  {
    var vs := before + [v];
    assert vs[..|before|] == before;
    assert Scan(0);
    ReachedIs(before, VisitRun(v));
    assert VisitRun(v) !! fixed + Reached(before) <==> VisitRun(v) !! fixed && VisitRun(v) !! Reached(before);
    if VisitsOk(before, fixed, freed, top) {
      assert forall i :: 0 <= i < |before| ==> vs[i] == before[i];
      if VisitsOk(vs, fixed, freed, top) {
        assert vs[|before|] == v;
      }
    }
  }

  lemma {:induction false} ToldOne(before: seq<Visit>, v: Visit, fixed: set<Pgid>, freed: set<Pgid>, top: Pgid,
                                   problems: seq<Problem>)
    requires forall p :: p in problems <==> Tells(before, v, fixed, freed, top, p)
    ensures Told(before, [v], fixed, freed, top, problems)
  {
    assert before + [v][..0] == before;
    forall p ensures p in problems <==> FoundIn(before, [v], fixed, freed, top, p) {
      if Tells(before, v, fixed, freed, top, p) {
        assert Tells(before + [v][..0], [v][0], fixed, freed, top, p);
      }
    }
  }

  lemma {:induction false} ReachedIs(vs: seq<Visit>, run: set<Pgid>)
    ensures run !! Reached(vs) <==> forall i :: 0 <= i < |vs| ==> VisitRun(vs[i]) !! run
  {
    if vs != [] {
      var pre := vs[..|vs| - 1];
      ReachedIs(pre, run);
      assert run !! Reached(vs) <==> run !! Reached(pre) && run !! VisitRun(vs[|vs| - 1]);
      assert forall i :: 0 <= i < |pre| ==> vs[i] == pre[i];
    }
  }

  /** checkBucket: the pages of a bucket, then the buckets nested in it. */
  method CheckBucket(b: BucketPages, before: set<Pgid>, freed: set<Pgid>, top: Pgid, ghost vs: seq<Visit>,
                     ghost fixed: set<Pgid>)
    returns (reachable: set<Pgid>, problems: seq<Problem>)
    requires before == fixed + Reached(vs)
    ensures Progress(vs, BucketVisits(b), fixed, freed, top, reachable, problems)
    decreases b, 1
  {
    if b.Inline? {
      reachable, problems := before, [];
      ProgressNone(vs, fixed, freed, top, reachable);
      return;
    }
    var more;
    ghost var own := WalkVisits(b.root);
    reachable, problems := ForEachPage(b.root, before, freed, top, vs, fixed);
    ghost var r1, p1 := reachable, problems;
    reachable, more := CheckNested(b, reachable, freed, top, vs + own, fixed);
    ProgressBoth(vs, own, NestedVisits(b, |b.nested|), BucketVisits(b), fixed, freed, top, r1, p1, reachable, more);
    problems := problems + more;
  }

  /** The loop of checkBucket over the nested buckets. */
  method CheckNested(b: BucketPages, before: set<Pgid>, freed: set<Pgid>, top: Pgid, ghost vs: seq<Visit>,
                     ghost fixed: set<Pgid>)
    returns (reachable: set<Pgid>, problems: seq<Problem>)
    requires b.Paged? && before == fixed + Reached(vs)
    ensures Progress(vs, NestedVisits(b, |b.nested|), fixed, freed, top, reachable, problems)
    decreases b, 0
  {
    reachable, problems := before, [];
    ProgressNone(vs, fixed, freed, top, reachable);
    for i := 0 to |b.nested|
      invariant Progress(vs, NestedVisits(b, i), fixed, freed, top, reachable, problems)
    {
      var more;
      ghost var r1, p1, done := reachable, problems, NestedVisits(b, i);
      reachable, more := CheckBucket(b.nested[i], reachable, freed, top, vs + done, fixed);
      ProgressBoth(vs, done, BucketVisits(b.nested[i]), NestedVisits(b, i + 1), fixed, freed, top, r1, p1,
                   reachable, more);
      problems := problems + more;
    }
  }

  /** forEachPage with the checks of checkBucket: the page itself, then what a branch points to. */
  method ForEachPage(w: Walk, before: set<Pgid>, freed: set<Pgid>, top: Pgid, ghost vs: seq<Visit>,
                     ghost fixed: set<Pgid>)
    returns (reachable: set<Pgid>, problems: seq<Problem>)
    requires before == fixed + Reached(vs)
    ensures Progress(vs, WalkVisits(w), fixed, freed, top, reachable, problems)
    decreases w, 2
  {
    reachable, problems := CheckPage(w.page, before, freed, top);
    VisitNext(vs, w.page, fixed, freed, top);
    ToldOne(vs, w.page, fixed, freed, top, problems);
    if w.page.kind != BranchPage {
      assert WalkVisits(w) == [w.page];
      return;
    }
    var more;
    ghost var r1, p1 := reachable, problems;
    reachable, more := ForEachKid(w, reachable, freed, top, vs + [w.page], fixed);
    ProgressBoth(vs, [w.page], KidVisits(w, |w.kids|), WalkVisits(w), fixed, freed, top, r1, p1, reachable, more);
    problems := problems + more;
  }

  /** The loop of forEachPage over the entries of a branch. */
  method ForEachKid(w: Walk, before: set<Pgid>, freed: set<Pgid>, top: Pgid, ghost vs: seq<Visit>,
                    ghost fixed: set<Pgid>)
    returns (reachable: set<Pgid>, problems: seq<Problem>)
    requires before == fixed + Reached(vs)
    ensures Progress(vs, KidVisits(w, |w.kids|), fixed, freed, top, reachable, problems)
    decreases w, 1
  {
    reachable, problems := before, [];
    ProgressNone(vs, fixed, freed, top, reachable);
    for i := 0 to |w.kids|
      invariant Progress(vs, KidVisits(w, i), fixed, freed, top, reachable, problems)
    {
      reachable, problems := NextKid(w, i, reachable, problems, freed, top, vs, fixed);
    }
  }

  method NextKid(w: Walk, i: nat, before: set<Pgid>, found: seq<Problem>, freed: set<Pgid>, top: Pgid,
                 ghost vs: seq<Visit>,
                 ghost fixed: set<Pgid>)
    returns (reachable: set<Pgid>, problems: seq<Problem>)
    requires i < |w.kids| && Progress(vs, KidVisits(w, i), fixed, freed, top, before, found)
    ensures Progress(vs, KidVisits(w, i + 1), fixed, freed, top, reachable, problems)
    decreases w, 0
  {
    var more;
    ghost var done := KidVisits(w, i);
    reachable, more := ForEachPage(w.kids[i], before, freed, top, vs + done, fixed);
    ProgressBoth(vs, done, WalkVisits(w.kids[i]), KidVisits(w, i + 1), fixed, freed, top, before, found,
                 reachable, more);
    problems := found + more;
  }

  /** The checks of one page. */
  method CheckPage(v: Visit, before: set<Pgid>, freed: set<Pgid>, top: Pgid)
    returns (reachable: set<Pgid>, problems: seq<Problem>)
    ensures reachable == before + VisitRun(v)
    ensures problems == [] <==> VisitOk(v, freed, top) && VisitRun(v) !! before
    ensures forall p :: p in problems <==>
      match p
      case OutOfBounds(id) => v.id == id && id > top
      case MultipleReferences(id) => id in VisitRun(v) && id in before
      case ReachableFreed(id) => v.id == id && id in freed
      case InvalidType(id) => v.id == id && id !in freed && v.kind == OtherPage
      case _ => false
  {
    reachable, problems := before, [];
    if v.id > top {
      problems := [OutOfBounds(v.id)];
    }
    for i := 0 to v.overflow + 1
      invariant reachable == before + Run(v.id, i)
      invariant problems == [] <==> Run(v.id, i) !! before && v.id <= top
      invariant forall p :: p in problems <==>
        (p == OutOfBounds(v.id) && v.id > top) || (p.MultipleReferences? && p.id in Run(v.id, i) && p.id in before)
    {
      if v.id + i in reachable {
        problems := problems + [MultipleReferences(v.id + i)];
      }
      reachable := reachable + {v.id + i};
    }
    if v.id in freed {
      problems := problems + [ReachableFreed(v.id)];
    } else if v.kind == OtherPage {
      problems := problems + [InvalidType(v.id)];
    }
  }

  ghost predicate AllIn(pages: set<Pgid>, top: Pgid)
  {
    forall id :: 0 <= id < top ==> id in pages
  }

  method CheckUsed(reachable: set<Pgid>, freed: set<Pgid>, top: Pgid) returns (problems: seq<Problem>)
    ensures problems == [] <==> AllIn(reachable + freed, top)
    ensures forall p :: p in problems <==> p.UnreachableUnfreed? && p.id < top && p.id !in reachable + freed
  {
    problems := [];
    for i := 0 to top
      invariant problems == [] <==> AllIn(reachable + freed, i)
      invariant forall p :: p in problems <==> p.UnreachableUnfreed? && p.id < i && p.id !in reachable + freed
    {
      assert AllIn(reachable + freed, i + 1) <==> AllIn(reachable + freed, i) && i in reachable + freed;
      if i !in reachable && i !in freed {
        problems := problems + [UnreachableUnfreed(i)];
      }
    }
  }

  // ---- the check at a commit ----

  /** A page that is visited twice is reported, whatever else is right. */
  lemma {:induction false} TwiceReported(all: seq<Pgid>, vs: seq<Visit>, list: Pgid, overflow: nat, top: Pgid, i: nat,
                                         j: nat)
    requires i < j < |vs| && vs[i].id == vs[j].id
    ensures !Accounted(all, vs, list, overflow, top)
  {
    assert vs[i].id in VisitRun(vs[i]) && vs[j].id in VisitRun(vs[j]);
  }

  /** The visits are to the pages of the tree, each once, and all of them branches or leaves. */
  ghost predicate Lists(vs: seq<Visit>, tree: Pages)
  {
    && (forall i :: 0 <= i < |vs| ==> vs[i].id in tree && vs[i].overflow == tree[vs[i].id] && vs[i].kind != OtherPage)
    && (forall i, j :: 0 <= i < j < |vs| ==> vs[i].id != vs[j].id)
    && forall p :: p in tree ==> exists i :: 0 <= i < |vs| && vs[i].id == p
  }

  lemma {:induction false} ReachedAll(vs: seq<Visit>, x: Pgid)
    ensures x in Reached(vs) <==> exists i :: 0 <= i < |vs| && x in VisitRun(vs[i])
  {
    if vs != [] {
      var pre := vs[..|vs| - 1];
      ReachedAll(pre, x);
      assert forall i :: 0 <= i < |pre| ==> vs[i] == pre[i];
    }
  }

  lemma {:induction false} ListsReach(vs: seq<Visit>, tree: Pages)
    requires Lists(vs, tree)
    ensures Reached(vs) == Span(tree)
  {
    forall x ensures x in Reached(vs) <==> x in Span(tree) {
      ReachedAll(vs, x);
      if x in Span(tree) {
        var p :| p in tree && x in PageRun(tree, p);
        var i :| 0 <= i < |vs| && vs[i].id == p;
        assert x in VisitRun(vs[i]);
      }
      if i :| 0 <= i < |vs| && x in VisitRun(vs[i]) {
        assert x in PageRun(tree, vs[i].id);
      }
    }
  }

  /** Pages of a tree that are apart, in bounds and not free give no report. */
  lemma {:induction false} ListsOk(vs: seq<Visit>, tree: Pages, fixed: set<Pgid>, freed: set<Pgid>, top: Pgid)
    requires Lists(vs, tree) && Apart(tree) && Span(tree) !! fixed && forall p :: p in tree ==> p <= top && p !in freed
    ensures VisitsOk(vs, fixed, freed, top)
  {
    forall i | 0 <= i < |vs| ensures VisitRun(vs[i]) !! fixed {
      assert PageRun(tree, vs[i].id) <= Span(tree);
    }
    forall i, j | 0 <= i < j < |vs| ensures VisitRun(vs[i]) !! VisitRun(vs[j]) {
      assert Separate(tree, vs[i].id, vs[j].id);
    }
  }

  lemma {:induction false} CleanIff(all: seq<Pgid>, vs: seq<Visit>, w: Writer, free: set<Pgid>, pending: Lists)
    requires NoRepeat(all) && Elems(all) == free + PendingIds(pending) && Apart(w.tree) && Lists(vs, w.tree)
    requires Span(w.tree) !! Run(w.meta.freelist, w.overflow + 1) && SpaceOk(Live(w), free, pending, w.meta.pgid)
    ensures Accounted(all, vs, w.meta.freelist, w.overflow, w.meta.pgid) <==>
      All(Live(w), free + PendingIds(pending), w.meta.pgid)
  {
    forall p | p in w.tree ensures p in Live(w) {
      assert p in PageRun(w.tree, p);
    }
    var fixed := Fixed(w.meta.freelist, w.overflow);
    assert Span(w.tree) <= Live(w);
    ListsReach(vs, w.tree);
    ListsOk(vs, w.tree, fixed, Elems(all), w.meta.pgid);
    if AllIn(fixed + Reached(vs) + Elems(all), w.meta.pgid) {
      forall x | 2 <= x < w.meta.pgid ensures x in Live(w) || x in free + PendingIds(pending) {
        assert x in fixed + Reached(vs) + Elems(all);
      }
    }
  }

  /** What a transaction is about to publish, checked. */
  ghost predicate Clean(s: State, all: seq<Pgid>, vs: seq<Visit>)
    requires s.writer.Some?
  {
    var w := s.writer.value;
    Accounted(all, vs, w.meta.freelist, w.overflow, w.meta.pgid)
  }

  /** The ids of the freelist, and visits to the pages of the writer's tree. */
  ghost predicate Checked(s: State, all: seq<Pgid>, vs: seq<Visit>)
  {
    && InPhase(s, PagesSynced) && NoRepeat(all) && Elems(all) == s.free + PendingIds(s.pending)
    && Lists(vs, s.writer.value.tree)
  }

  /** In every state of the protocol, checking what a transaction is about to publish finds nothing exactly
      if every page is in use, free or pending. */
  lemma {:induction false} CheckClean(s: State, all: seq<Pgid>, vs: seq<Visit>)
    requires Inv(s) && Checked(s, all, vs)
    ensures var w := s.writer.value; Clean(s, all, vs) <==> All(Live(w), s.free + PendingIds(s.pending), w.meta.pgid)
  {
    PublishedSpace(s, s.writer.value, Durable(s));
    CleanIff(all, vs, s.writer.value, s.free, s.pending);
  }

  /** A commit checks out exactly if no page was missing when its writer began. */
  lemma {:induction false} CommitChecks(s: State, all: seq<Pgid>, vs: seq<Visit>)
    requires Inv(s) && Checked(s, all, vs)
    ensures Clean(s, all, vs) <==> Covers(s)
  {
    var w, d := s.writer.value, Durable(s);
    CheckClean(s, all, vs);
    if Covers(s) {
      PublishCovers(s, w, d);
    } else {
      LostPage(s, w, d);
    }
  }

  /** In every run, a commit checks out exactly if no step before has read back an overflowing list that
      misses a page. */
  lemma {:induction false} RunChecks(ss: seq<State>, es: seq<Event>, leaf: int, i: nat, all: seq<Pgid>, vs: seq<Visit>)
    requires Execution(ss, es, leaf) && i < |ss| && Checked(ss[i], all, vs)
    ensures Clean(ss[i], all, vs) <==> NoLoss(ss, es, i)
  {
    RunCovers(ss, es, leaf, i);
    CommitChecks(ss[i], all, vs);
  }
}
