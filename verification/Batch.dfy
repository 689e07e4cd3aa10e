/** Batched updates: calls submitted by many goroutines run together in one transaction. A call that
    fails is taken out and told to try on its own, and the rest is tried again. */
module Batches {
  import opened Options

  type Error = string

  /** What a submitter receives on its channel. */
  datatype Reply = TrySolo | Done(err: Option<Error>)

  /** call: a function to run, named by a number, and a channel that holds one reply. */
  class Call {
    const fn: nat
    var reply: Option<Reply>

    constructor (fn: nat)
      ensures this.fn == fn && reply == None
    {
      this.fn := fn;
      this.reply := None;
    }

    /** Sending does not block, because nothing was sent before. */
    method Send(r: Reply)
      requires reply == None
      modifies this
      ensures reply == Some(r)
    {
      reply := Some(r);
    }
  }

  /** What the database and the functions do in each transaction: whether it can begin, whether a
      function returns an error or panics, and whether it commits. Functions may act differently
      each time they are run. */
  datatype World = World(begin: nat -> Option<Error>, fail: (nat, nat) -> Option<Error>, commit: nat -> Option<Error>)

  class Store {
    var done: seq<nat>   // the functions whose effects are durable, in the order they ran
    var round: nat       // transactions begun so far
    const world: World

    constructor (world: World)
      ensures done == [] && round == 0 && this.world == world
    {
      this.done, this.round, this.world := [], 0, world;
    }

    /** Update: runs the functions in one transaction. It stops at the first that fails, which it gives
        as failIdx, and rolls back. */
    method Update(fns: seq<nat>) returns (failIdx: int, err: Option<Error>)
      modifies this
      ensures round == old(round) + 1 && -1 <= failIdx < |fns|
      ensures world.begin(old(round)) != None ==> failIdx == -1 && err == world.begin(old(round))
      ensures failIdx >= 0 ==> err != None && err == world.fail(old(round), fns[failIdx])
      ensures forall i :: 0 <= i < (if failIdx < 0 then |fns| else failIdx) && world.begin(old(round)) == None ==>
        world.fail(old(round), fns[i]) == None
      ensures failIdx < 0 && world.begin(old(round)) == None ==> err == world.commit(old(round))
      ensures done == old(done) + if err == None then fns else []
    {
      var r := round;
      round, failIdx := round + 1, -1;
      err := world.begin(r);
      if err != None {
        return;
      }
      var work := done;
      for i := 0 to |fns|
        invariant work == done + fns[..i] && done == old(done) && round == r + 1 && failIdx == -1
        invariant forall k :: 0 <= k < i ==> world.fail(r, fns[k]) == None
      {
        err := world.fail(r, fns[i]);
        if err != None {
          failIdx := i;
          return;
        }
        work := work + [fns[i]];
      }
      assert fns[..|fns|] == fns;
      err := world.commit(r);
      if err == None {
        done := work;
      }
    }
  }

  ghost predicate Distinct(calls: seq<Call>)
  {
    forall i, j :: 0 <= i < j < |calls| ==> calls[i] != calls[j]
  }

  ghost predicate Waiting(calls: seq<Call>)
    reads calls
  {
    forall c :: c in calls ==> c.reply == None
  }

  function Functions(calls: seq<Call>): (r: seq<nat>)
    ensures |r| == |calls| && forall i :: 0 <= i < |calls| ==> r[i] == calls[i].fn
  {
    seq(|calls|, i requires 0 <= i < |calls| => calls[i].fn)
  }

  /** The function failed in one of the transactions numbered from first to before last. */
  ghost predicate Failed(world: World, first: nat, last: nat, fn: nat)
  {
    exists r :: first <= r < last && world.fail(r, fn) != None
  }

  /** The result of the function in one of the transactions numbered from first to before last: the error
      of its beginning, of the function, or of its commit. */
  ghost predicate Given(world: World, first: nat, last: nat, fn: nat, err: Option<Error>)
  {
    exists r :: first <= r < last &&
      err == if world.begin(r) != None then world.begin(r)
             else if world.fail(r, fn) != None then world.fail(r, fn) else world.commit(r)
  }

  /** The reply is the result of a transaction, or says that the function failed in one. */
  ghost predicate Answered(c: Call, world: World, first: nat, last: nat)
    reads c
  {
    match c.reply
    case None => false
    case Some(TrySolo) => Failed(world, first, last, c.fn)
    case Some(Done(err)) => Given(world, first, last, c.fn, err)
  }

  /** Transaction r could not begin, or all the calls ran in it without failing; err is what it gave. */
  ghost predicate SharedResult(shared: seq<Call>, world: World, r: nat, err: Option<Error>)
  {
    if world.begin(r) != None then err == world.begin(r)
    else err == world.commit(r) && forall c :: c in shared ==> world.fail(r, c.fn) == None
  }

  ghost predicate SharedKnown(shared: seq<Call>, world: World, first: nat, last: nat, err: Option<Error>)
  {
    forall c :: c in shared ==> Given(world, first, last, c.fn, err)
  }

  lemma {:induction false} SharedGiven(shared: seq<Call>, world: World, first: nat, last: nat, err: Option<Error>)
    requires shared != [] ==> last > first && SharedResult(shared, world, last - 1, err)
    ensures SharedKnown(shared, world, first, last, err)
  {
    forall c | c in shared ensures Given(world, first, last, c.fn, err) {
      assert first <= last - 1 < last;
    }
  }

  /** The calls that were taken out have failed, and are told so. */
  ghost predicate TakenOut(all: seq<Call>, calls: seq<Call>, world: World, first: nat, last: nat)
    reads all
  {
    forall c :: c in all && c !in calls ==> c.reply == Some(TrySolo) && Failed(world, first, last, c.fn)
  }

  lemma {:induction false} StillFailed(all: seq<Call>, calls: seq<Call>, world: World, first: nat, last: nat)
    requires TakenOut(all, calls, world, first, last)
    ensures TakenOut(all, calls, world, first, last + 1)
  {
    forall c | c in all && c !in calls ensures Failed(world, first, last + 1, c.fn) {
      var r :| first <= r < last && world.fail(r, c.fn) != None;
      assert first <= r < last + 1;
    }
  }

  /** The calls without the one at index i: the last takes its place. */
  function SwapOut(calls: seq<Call>, i: nat): (r: seq<Call>)
    requires i < |calls|
    ensures |r| == |calls| - 1
  {
    calls[i := calls[|calls| - 1]][..|calls| - 1]
  }

  lemma {:induction false} SwapOutIs(calls: seq<Call>, i: nat)
    requires i < |calls| && Distinct(calls)
    ensures Distinct(SwapOut(calls, i)) && forall c :: c in SwapOut(calls, i) <==> c in calls && c != calls[i]
  {
    var r := SwapOut(calls, i);
    forall c | c in calls && c != calls[i] ensures c in r {
      var k :| 0 <= k < |calls| && calls[k] == c;
      assert r[if k == |calls| - 1 then i else k] == c;
    }
  }

  /** batch. */
  class Batch {
    var calls: seq<Call>
    var started: bool

    constructor ()
      ensures calls == [] && !started
    {
      calls, started := [], false;
    }

    /** run: every call receives exactly one reply. The calls that are not told to try alone receive the
        result of one transaction, in which all of them ran and none of the others. */
    method Run(store: Store) returns (shared: seq<Call>, err: Option<Error>)
      requires Distinct(calls) && Waiting(calls)
      modifies this`calls, store, calls
      ensures Distinct(shared) && forall c :: c in shared ==> c in old(calls) && c.reply == Some(Done(err))
      ensures TakenOut(old(calls), shared, store.world, old(store.round), store.round) && calls == shared
      ensures store.done == old(store.done) + (if err == None then Functions(shared) else [])
      ensures store.round == old(store.round) + |old(calls)| - |shared| + if shared == [] then 0 else 1
      ensures shared != [] ==> store.round > old(store.round) && SharedResult(shared, store.world, store.round - 1, err)
      ensures forall c :: c in old(calls) ==> Answered(c, store.world, old(store.round), store.round)
    {
      ghost var all, first := calls, store.round;
      while |calls| > 0
        invariant store.round == first + |all| - |calls|
        invariant Distinct(calls) && Waiting(calls) && (forall c :: c in calls ==> c in all)
        invariant TakenOut(all, calls, store.world, first, store.round) && store.done == old(store.done)
          && first <= store.round
        decreases |calls|
      {
        var failIdx;
        failIdx, err := store.Update(Functions(calls));
        StillFailed(all, calls, store.world, first, store.round - 1);
        if failIdx >= 0 {
          var c := calls[failIdx];
          SwapOutIs(calls, failIdx);
          calls := SwapOut(calls, failIdx);
          c.Send(TrySolo);
          continue;
        }
        shared := calls;
        Reply(err);
        return;
      }
      shared, err := [], None;
    }

    /** The last loop of run. */
    method Reply(err: Option<Error>)
      requires Distinct(calls) && Waiting(calls)
      modifies calls
      ensures forall c :: c in calls ==> c.reply == Some(Done(err))
    {
      for i := 0 to |calls|
        invariant forall k :: 0 <= k < i ==> calls[k].reply == Some(Done(err))
        invariant forall k :: i <= k < |calls| ==> calls[k].reply == None
      {
        calls[i].Send(Done(err));
      }
    }
  }

  /** The part of a database that collects calls. */
  class Batcher {
    const maxSize: int
    const store: Store
    var open: Batch?

    constructor (maxSize: int, store: Store)
      ensures this.maxSize == maxSize && this.store == store && open == null
    {
      this.maxSize, this.store, this.open := maxSize, store, null;
    }

    /** Batch, before it waits: the call joins the open batch, or a new one if that is full. wake says
        that the batch is full now and is to be triggered at once. */
    method Submit(c: Call) returns (b: Batch, wake: bool)
      requires open != null ==> c !in open.calls && Distinct(open.calls) && Waiting(open.calls) && !open.started
      requires c.reply == None
      modifies `open, if open == null then {} else {open}
      ensures open == b && Distinct(b.calls) && Waiting(b.calls) && !b.started
      ensures if old(open) == null || |old(open.calls)| >= maxSize then fresh(b) && b.calls == [c]
              else b == old(open) && b.calls == old(open.calls) + [c]
      ensures |b.calls| <= (if maxSize < 1 then 1 else maxSize)
      ensures wake <==> |b.calls| >= maxSize
    {
      if open == null || |open.calls| >= maxSize {
        open := new Batch();
      }
      open.calls := open.calls + [c];
      b, wake := open, |open.calls| >= maxSize;
    }

    /** trigger: the timer and a full batch may both ask for it, but the batch runs once. No call joins it
        afterwards. */
    method Trigger(b: Batch) returns (ghost shared: seq<Call>, ghost err: Option<Error>)
      requires Distinct(b.calls) && (!b.started ==> Waiting(b.calls))
      modifies `open, b, store, b.calls
      ensures b.started && (open == b ==> old(b.started)) && (open == old(open) || (open == null && old(open) == b))
      ensures old(b.started) ==>
        unchanged(b) && unchanged(store) && forall c :: c in b.calls ==> c.reply == old(c.reply)
      ensures !old(b.started) ==>
        && (forall c :: c in old(b.calls) ==> Answered(c, store.world, old(store.round), store.round))
        && (forall c :: c in old(b.calls) ==> (c in shared <==> c.reply == Some(Done(err))))
        && store.done == old(store.done) + if err == None then Functions(shared) else []
    {
      if b.started {
        shared, err := [], None;
        return;
      }
      b.started := true;
      if open == b {
        open := null;
      }
      shared, err := b.Run(store);
    }
  }

  /** Batch, once its reply is there: a call that is told to try alone runs in a transaction of its own. */
  method Outcome(c: Call, store: Store) returns (err: Option<Error>)
    requires c.reply != None
    modifies store
    ensures match c.reply.value
            case Done(e) => err == e && unchanged(store)
            case TrySolo => (
              && store.done == old(store.done) + (if err == None then [c.fn] else [])
              && store.round == old(store.round) + 1 && Given(store.world, old(store.round), store.round, c.fn, err))
  {
    match c.reply.value
    case Done(e) =>
      err := e;
    case TrySolo =>
      var failIdx;
      ghost var r := store.round;
      failIdx, err := store.Update([c.fn]);
      assert r < store.round && [c.fn][0] == c.fn;
  }

  // ---- all together ----

  /** The functions of the calls whose submitters see no error. */
  ghost function Succeeded(calls: seq<Call>, errs: seq<Option<Error>>): seq<nat>
    requires |errs| == |calls|
  {
    if calls == [] then [] else (
      var n := |calls| - 1;
      Succeeded(calls[..n], errs[..n]) + if errs[n] == None then [calls[n].fn] else [])
  }

  /** The functions of the calls that are among others. */
  ghost function Among(calls: seq<Call>, others: seq<Call>): seq<nat>
  {
    if calls == [] then [] else (
      var n := |calls| - 1;
      Among(calls[..n], others) + if calls[n] in others then [calls[n].fn] else [])
  }

  lemma {:induction false} AmongSame(calls: seq<Call>, s: seq<Call>, t: seq<Call>)
    requires forall c :: c in calls ==> (c in s <==> c in t)
    ensures Among(calls, s) == Among(calls, t)
  {
    if calls != [] {
      AmongSame(calls[..|calls| - 1], s, t);
      assert calls[|calls| - 1] in calls;
    }
  }

  lemma {:induction false} Drop(s: seq<Call>, k: nat)
    requires Distinct(s) && k < |s|
    ensures var r := s[..k] + s[k + 1..];
            && Distinct(r) && (forall c :: c in r <==> c in s && c != s[k])
            && multiset(Functions(s)) == multiset(Functions(r)) + multiset{s[k].fn}
  {
    var r := s[..k] + s[k + 1..];
    assert s == s[..k] + [s[k]] + s[k + 1..];
    forall c | c in r ensures c in s && c != s[k] {
      var m :| 0 <= m < |r| && r[m] == c;
      assert c == s[if m < k then m else m + 1];
    }
    assert Functions(r) == Functions(s[..k]) + Functions(s[k + 1..]);
    assert Functions(s) == Functions(s[..k]) + [s[k].fn] + Functions(s[k + 1..]);
  }

  ghost predicate Within(s: seq<Call>, t: seq<Call>)
  {
    forall c :: c in s ==> c in t
  }

  lemma {:induction false} FirstIn(s: seq<Call>)
    ensures s != [] ==> exists c :: c in s
  {
    if s != [] {
      assert s[0] in s;
    }
  }

  lemma {:induction false} WithinRest(calls: seq<Call>, shared: seq<Call>)
    requires calls != [] && Distinct(calls) && Within(shared, calls)
    ensures Distinct(calls[..|calls| - 1]) && calls[|calls| - 1] !in calls[..|calls| - 1]
    ensures forall c :: c in shared && c != calls[|calls| - 1] ==> c in calls[..|calls| - 1]
  {
    assert calls == calls[..|calls| - 1] + [calls[|calls| - 1]];
  }

  /** Some of the calls, in any order, run the functions that these calls name. */
  lemma {:induction false} AmongAll(calls: seq<Call>, shared: seq<Call>)
    requires Distinct(calls) && Distinct(shared) && Within(shared, calls)
    ensures multiset(Among(calls, shared)) == multiset(Functions(shared))
    decreases |calls|, 0
  {
    if calls == [] {
      FirstIn(shared);
    } else {
      var n := |calls| - 1;
      var c, pre := calls[n], calls[..n];
      WithinRest(calls, shared);
      if c in shared {
        var k :| 0 <= k < |shared| && shared[k] == c;
        AmongOne(pre, c, shared, k);
      } else {
        AmongAll(pre, shared);
      }
    }
  }

  lemma {:induction false} AmongOne(pre: seq<Call>, c: Call, shared: seq<Call>, k: nat)
    requires Distinct(pre) && Distinct(shared) && k < |shared| && shared[k] == c && c !in pre
    requires forall x :: x in shared && x != c ==> x in pre
    ensures multiset(Among(pre, shared) + [c.fn]) == multiset(Functions(shared))
    decreases |pre|, 1
  {
    var r := shared[..k] + shared[k + 1..];
    Drop(shared, k);
    AmongAll(pre, r);
    AmongSame(pre, shared, r);
  }

  /** A batch from its run until all its submitters know: each function is durable exactly once if its
      submitter sees success, and not at all if it sees an error. */
  method Settle(b: Batch, store: Store) returns (errs: seq<Option<Error>>)
    requires Distinct(b.calls) && Waiting(b.calls)
    modifies b`calls, store, b.calls
    ensures |errs| == |old(b.calls)|
    ensures multiset(store.done) == multiset(old(store.done)) + multiset(Succeeded(old(b.calls), errs))
    ensures AllGiven(store.world, old(store.round), store.round, old(Functions(b.calls)), errs)
    ensures (forall r :: store.world.begin(r) == None && store.world.commit(r) == None) ==>
      forall i :: 0 <= i < |errs| && (forall r :: store.world.fail(r, old(Functions(b.calls))[i]) == None) ==>
        errs[i] == None
  {
    var calls := b.calls;
    ghost var fns, first := Functions(calls), store.round;
    var shared, err := b.Run(store);
    assert Told(calls, shared, err);
    SharedGiven(shared, store.world, first, store.round, err);
    ghost var ran := if err == None then shared else [];
    errs := SettleAll(calls, shared, err, store, ran, first);
    if forall r :: store.world.begin(r) == None && store.world.commit(r) == None {
      GivenNone(store.world, first, store.round, fns, errs);
    }
    Cancel(old(store.done), Functions(ran), store.done, Succeeded(calls, errs));
  }

  lemma {:induction false} Cancel(base: seq<nat>, ran: seq<nat>, done: seq<nat>, succeeded: seq<nat>)
    requires multiset(done) + multiset(ran) == multiset(base + ran) + multiset(succeeded)
    ensures multiset(done) == multiset(base) + multiset(succeeded)
  {
    assert multiset(base + ran) == multiset(base) + multiset(ran);
    assert multiset(done) == multiset(done) + multiset(ran) - multiset(ran);
  }

  /** Each of the functions was given its error by a transaction that ran it, or did not begin or commit. */
  ghost predicate AllGiven(world: World, first: nat, last: nat, fns: seq<nat>, errs: seq<Option<Error>>)
  {
    |errs| == |fns| && forall i :: 0 <= i < |fns| ==> Given(world, first, last, fns[i], errs[i])
  }

  lemma {:induction false} GivenWithin(world: World, first: nat, last: nat, first': nat, last': nat, fn: nat,
                                       err: Option<Error>)
    requires Given(world, first, last, fn, err) && first' <= first && last <= last'
    ensures Given(world, first', last', fn, err)
  {
  }

  lemma {:induction false} AllGivenNext(world: World, first: nat, last: nat, last': nat, fns: seq<nat>, i: nat,
                                        errs: seq<Option<Error>>, err: Option<Error>)
    requires i < |fns| && AllGiven(world, first, last, fns[..i], errs) && last <= last'
    requires Given(world, first, last', fns[i], err)
    ensures AllGiven(world, first, last', fns[..i + 1], errs + [err])
  {
    forall k | 0 <= k < i ensures Given(world, first, last', fns[k], errs[k]) {
      assert fns[..i][k] == fns[k];
      GivenWithin(world, first, last, first, last', fns[k], errs[k]);
    }
  }

  /** If all transactions begin and commit, a function that never fails is given no error. */
  lemma {:induction false} GivenNone(world: World, first: nat, last: nat, fns: seq<nat>, errs: seq<Option<Error>>)
    requires AllGiven(world, first, last, fns, errs)
    requires forall r :: world.begin(r) == None && world.commit(r) == None
    ensures forall i :: 0 <= i < |fns| && (forall r :: world.fail(r, fns[i]) == None) ==> errs[i] == None
  {
    forall i | 0 <= i < |fns| && (forall r :: world.fail(r, fns[i]) == None) ensures errs[i] == None {
      assert Given(world, first, last, fns[i], errs[i]);
    }
  }

  /** The submitters, one after the other, take their replies and act on them. */
  method SettleAll(calls: seq<Call>, shared: seq<Call>, err: Option<Error>, store: Store, ghost ran: seq<Call>,
                   ghost first: nat)
    returns (errs: seq<Option<Error>>)
    requires Told(calls, shared, err) && Distinct(calls) && Distinct(shared) && Within(shared, calls)
    requires ran == if err == None then shared else []
    requires first <= store.round && SharedKnown(shared, store.world, first, store.round, err)
    modifies store
    ensures |errs| == |calls| && AllGiven(store.world, first, store.round, Functions(calls), errs)
    ensures multiset(store.done) + multiset(Functions(ran))
      == multiset(old(store.done)) + multiset(Succeeded(calls, errs))
  {
    ghost var base, solo := store.done, [];
    errs := [];
    for i := 0 to |calls|
      invariant store.done == base + solo && first <= store.round
      invariant Paid(calls, i, shared, err, ran, errs, solo, store.world, first, store.round)
    {
      var e;
      e, solo := OutcomeOf(calls, i, shared, err, store, first, errs, ran, base, solo);
      errs := errs + [e];
    }
    PaidAll(calls, shared, err, ran, errs, solo, store.world, first, store.round);
    AmongAll(calls, ran);
    Balance(base, Functions(ran), solo, Among(calls, ran), Succeeded(calls, errs));
  }

  /** Where the loop above is after i turns. */
  ghost predicate Paid(calls: seq<Call>, i: nat, shared: seq<Call>, err: Option<Error>, ran: seq<Call>,
                       errs: seq<Option<Error>>, solo: seq<nat>, world: World, first: nat, last: nat)
    reads calls
  {
    && i <= |calls| && |errs| == i && ran == (if err == None then shared else []) && Told(calls, shared, err)
    && Settled(calls[..i], errs, ran, solo) && AllGiven(world, first, last, Functions(calls[..i]), errs)
    && SharedKnown(shared, world, first, last, err)
  }

  lemma {:induction false} PaidAll(calls: seq<Call>, shared: seq<Call>, err: Option<Error>, ran: seq<Call>,
                                   errs: seq<Option<Error>>, solo: seq<nat>, world: World, first: nat, last: nat)
    requires Paid(calls, |calls|, shared, err, ran, errs, solo, world, first, last)
    ensures |errs| == |calls| && Settled(calls, errs, ran, solo) && AllGiven(world, first, last, Functions(calls), errs)
  {
    assert calls[..|calls|] == calls;
  }

  /** One turn of the loop above. */
  method OutcomeOf(calls: seq<Call>, i: nat, shared: seq<Call>, err: Option<Error>, store: Store, ghost first: nat,
                   ghost errs: seq<Option<Error>>, ghost ran: seq<Call>, ghost base: seq<nat>, ghost solo: seq<nat>)
    returns (e: Option<Error>, ghost solo': seq<nat>)
    requires i < |calls| && first <= store.round && store.done == base + solo
    requires Paid(calls, i, shared, err, ran, errs, solo, store.world, first, store.round)
    modifies store
    ensures store.done == base + solo' && old(store.round) <= store.round
    ensures Paid(calls, i + 1, shared, err, ran, errs + [e], solo', store.world, first, store.round)
  {
    ghost var last := store.round;
    e := Outcome(calls[i], store);
    solo' := solo + if calls[i] !in ran && e == None then [calls[i].fn] else [];
    assert base + solo' == base + solo + if calls[i] !in ran && e == None then [calls[i].fn] else [];
    assert calls[i] in calls;
    if calls[i] !in shared {
      GivenWithin(store.world, last, store.round, first, store.round, calls[i].fn, e);
    }
    PaidNext(calls, i, shared, err, ran, errs, solo, store.world, first, last, store.round, e);
  }

  lemma {:induction false} PaidNext(calls: seq<Call>, i: nat, shared: seq<Call>, err: Option<Error>, ran: seq<Call>,
                                    errs: seq<Option<Error>>, solo: seq<nat>, world: World, first: nat, last: nat,
                                    last': nat, e: Option<Error>)
    requires i < |calls| && last <= last' && Paid(calls, i, shared, err, ran, errs, solo, world, first, last)
    requires if calls[i] in shared then e == err else Given(world, first, last', calls[i].fn, e)
    ensures var solo' := solo + if calls[i] !in ran && e == None then [calls[i].fn] else [];
            Paid(calls, i + 1, shared, err, ran, errs + [e], solo', world, first, last')
  {
    forall c | c in shared ensures Given(world, first, last', c.fn, err) {
      GivenWithin(world, first, last, first, last', c.fn, err);
    }
    SettledNext(calls, i, errs, ran, solo, e);
    var fns := Functions(calls[..i + 1]);
    assert fns[..i] == Functions(calls[..i]) && fns == fns[..i + 1];
    AllGivenNext(world, first, last, last', fns, i, errs, e);
  }

  lemma {:induction false} Balance(base: seq<nat>, ran: seq<nat>, solo: seq<nat>, among: seq<nat>, succeeded: seq<nat>)
    requires multiset(among) == multiset(ran) && multiset(succeeded) == multiset(among) + multiset(solo)
    ensures multiset(base + solo) + multiset(ran) == multiset(base) + multiset(succeeded)
  {
  }

  ghost predicate Told(calls: seq<Call>, shared: seq<Call>, err: Option<Error>)
    reads calls
  {
    forall c :: c in calls ==> c.reply == Some(if c in shared then Done(err) else TrySolo)
  }

  /** The functions of the calls that succeeded ran in the shared transaction or on their own. */
  ghost predicate Settled(calls: seq<Call>, errs: seq<Option<Error>>, ran: seq<Call>, solo: seq<nat>)
    requires |errs| == |calls|
  {
    multiset(Succeeded(calls, errs)) == multiset(Among(calls, ran)) + multiset(solo)
  }

  lemma {:induction false} SettledNext(calls: seq<Call>, i: nat, errs: seq<Option<Error>>, ran: seq<Call>,
                                       solo: seq<nat>, e: Option<Error>)
    requires i < |calls| && |errs| == i && Settled(calls[..i], errs, ran, solo) && (calls[i] in ran ==> e == None)
    ensures Settled(calls[..i + 1], errs + [e], ran, solo + if calls[i] !in ran && e == None then [calls[i].fn] else [])
  {
    assert calls[..i + 1][..i] == calls[..i] && (errs + [e])[..i] == errs;
  }
}
