/** Turns of the Copr scheduler and polls of Copr in any order, between two edits of the queue: when every
    request stays within its scheduled count. */
module CoprRuns {
  import opened Wrappers
  import opened CoprScheduler

  datatype Queue = Queue(requests: Requests, rebuilds: Rebuilds)

  predicate IsFinished(b: Rebuild) {
    b.state == Some(BuildState.Complete) || b.state == Some(FailedBuild)
  }

  predicate AllFinished(rebuilds: Rebuilds, r: RequestId) {
    forall k | k in rebuilds && k.request == r :: IsFinished(rebuilds[k])
  }

  /** refresh_build_state: a running build has finished, and maybe its request with it. */
  function Polled(s: Queue, k: RebuildKey, outcome: BuildState): Queue
    requires k in s.rebuilds
  {
    var rebuilds := s.rebuilds[k := s.rebuilds[k].(state := Some(outcome))];
    var r := k.request;
    Queue(if r in s.requests && AllFinished(rebuilds, r) then s.requests[r := s.requests[r].(state := Finished)]
          else s.requests, rebuilds)
  }

  ghost predicate Turns(s: Queue, t: Queue, maxBuilds: nat) {
    && |InCopr(s.rebuilds)| < maxBuilds
    && exists r, n, state, id :: TurnAt(s.requests, s.rebuilds, t.requests, t.rebuilds, r, n, state, id)
  }

  ghost predicate Polls(s: Queue, t: Queue) {
    exists k, outcome: BuildState ::
      k in InCopr(s.rebuilds) && (outcome.Complete? || outcome.FailedBuild?) && t == Polled(s, k, outcome)
  }

  ghost predicate IsRun(run: seq<Queue>, maxBuilds: nat) {
    |run| > 0 && forall i | 0 <= i < |run| - 1 :: Turns(run[i], run[i + 1], maxBuilds) || Polls(run[i], run[i + 1])
  }

  function Last(run: seq<Queue>): Queue
    requires |run| > 0
  {
    run[|run| - 1]
  }

  ghost predicate CountsKept(s: Queue) {
    WithinCounts(s.requests, s.rebuilds)
  }

  ghost predicate AlwaysKept(s: Queue, maxBuilds: nat) {
    forall run | IsRun(run, maxBuilds) && run[0] == s :: CountsKept(Last(run))
  }

  // The condition

  function Waiting(rebuilds: Rebuilds): set<RebuildKey> {
    set k | k in rebuilds && IsWaiting(rebuilds, k)
  }

  function Of(keys: set<RebuildKey>, r: RequestId): set<RebuildKey> {
    set k | k in keys && k.request == r
  }

  /** `before` can be all that is submitted before `k`: what is ahead of it, and maybe some at its order. */
  predicate CanPrecede(rebuilds: Rebuilds, before: set<RebuildKey>, k: RebuildKey) {
    && k in Waiting(rebuilds) && before <= Waiting(rebuilds) - {k}
    && (forall j | j in before :: rebuilds[j].order <= rebuilds[k].order)
    && (forall j | j in Waiting(rebuilds) && rebuilds[j].order < rebuilds[k].order :: j in before)
  }

  /** The share that `r` has had once `before` is submitted, too. */
  function CountWith(rebuilds: Rebuilds, before: set<RebuildKey>, r: RequestId): nat {
    |Submitted(rebuilds, r) + Of(before, r)|
  }

  /** The rebuild does not finish while `before` is submitted. */
  predicate Lasts(rebuilds: Rebuilds, before: set<RebuildKey>, j: RebuildKey) {
    j in rebuilds && !IsFinished(rebuilds[j]) && j !in before && j !in InCopr(rebuilds)
  }

  /** `r` need not be finished before all of `before` is submitted. With room for two running builds one of
      its builds can go on running; otherwise each build has to finish before the next is submitted, so
      that the request needs a rebuild that does not, or none that does. */
  predicate Stays(s: Queue, before: set<RebuildKey>, r: RequestId, maxBuilds: nat) {
    || maxBuilds >= 2
    || (exists j :: j in s.rebuilds && j.request == r && Lasts(s.rebuilds, before, j))
    || (forall j | j in s.rebuilds && j.request == r :: j !in before && j !in InCopr(s.rebuilds))
  }

  /** A request in progress that has not had its share, with `before` submitted, either */
  predicate SharesLater(s: Queue, before: set<RebuildKey>, r: RequestId, maxBuilds: nat) {
    && InProgressIn(s, r) && CountWith(s.rebuilds, before, r) < s.requests[r].scheduleCount
    && Stays(s, before, r, maxBuilds)
  }

  predicate InProgressIn(s: Queue, r: RequestId) {
    r in s.requests && s.requests[r].state.InProgress?
  }

  /** When the turn of `k` comes, its owner has had its share and some request in progress has not. */
  predicate OvershootsAt(s: Queue, before: set<RebuildKey>, k: RebuildKey, maxBuilds: nat) {
    && CanPrecede(s.rebuilds, before, k) && k.request in s.requests
    && CountWith(s.rebuilds, before, k.request) >= s.requests[k.request].scheduleCount
    && exists r :: r in s.requests && SharesLater(s, before, r, maxBuilds)
  }

  ghost predicate Overshoots(s: Queue, maxBuilds: nat) {
    maxBuilds > 0 && exists before, k :: OvershootsAt(s, before, k, maxBuilds)
  }

  // What a run changes

  /** From `s` to `t` exactly the rebuilds in `keys` are submitted, they and those that were running may have
      finished, and no request comes into progress. */
  predicate Moved(s: Queue, t: Queue, keys: set<RebuildKey>) {
    && s.requests.Keys == t.requests.Keys && s.rebuilds.Keys == t.rebuilds.Keys
    && (forall r | r in s.requests :: t.requests[r].scheduleCount == s.requests[r].scheduleCount)
    && (forall r | r in s.requests && t.requests[r].state.InProgress? :: s.requests[r].state.InProgress?)
    && (forall k | k in s.rebuilds :: t.rebuilds[k].order == s.rebuilds[k].order)
    && keys <= Waiting(s.rebuilds) && Waiting(t.rebuilds) == Waiting(s.rebuilds) - keys
    && InCopr(t.rebuilds) <= InCopr(s.rebuilds) + keys
    && (forall k | k in s.rebuilds :: if k in InCopr(s.rebuilds) + keys
          then k in InCopr(t.rebuilds) || IsFinished(t.rebuilds[k]) else t.rebuilds[k] == s.rebuilds[k])
  }

  lemma MovedTwice(s: Queue, t: Queue, u: Queue, a: set<RebuildKey>, b: set<RebuildKey>)
    requires Moved(s, t, a) && Moved(t, u, b)
    ensures Moved(s, u, a + b)
  {
  }

  lemma MovedSubmits(s: Queue, t: Queue, keys: set<RebuildKey>, q: RequestId)
    requires Moved(s, t, keys)
    ensures Submitted(t.rebuilds, q) == Submitted(s.rebuilds, q) + Of(keys, q)
  {
    forall k | k in s.rebuilds
      ensures t.rebuilds[k].coprBuildId.Some? <==> s.rebuilds[k].coprBuildId.Some? || k in keys
    {
      assert k in Waiting(t.rebuilds) <==> k in Waiting(s.rebuilds) && k !in keys;
    }
  }

  lemma PollMoves(s: Queue, k: RebuildKey, outcome: BuildState)
    requires k in InCopr(s.rebuilds) && (outcome.Complete? || outcome.FailedBuild?)
    ensures Moved(s, Polled(s, k, outcome), {})
  {
  }

  lemma SubmitMoves(s: Queue, requests': Requests, k: RebuildKey, id: nat, r: RequestId, n: nat, state: RequestState)
    requires IsNext(s.rebuilds, k) && AfterTurn(s.requests, requests', r, n, state)
    requires state.InProgress? ==> s.requests[r].state.InProgress?
    ensures Moved(s, Queue(requests', Submit(s.rebuilds, k, id)), {k})
  {
  }

  lemma ScheduledMoves(s: Queue, requests': Requests, r: RequestId, n: nat)
    requires AfterTurn(s.requests, requests', r, n, Scheduled)
    ensures Moved(s, Queue(requests', s.rebuilds), {})
  {
  }

  /** `k` is next, and `r` has a share left. */
  predicate MaySubmit(s: Queue, k: RebuildKey, r: RequestId) {
    IsNext(s.rebuilds, k) && InProgressIn(s, r) && HasShare(s.requests, s.rebuilds, r)
  }

  /** What is submitted in a turn of a request with a share left */
  predicate Submits(s: Queue, t: Queue, keys: set<RebuildKey>, k: RebuildKey, r: RequestId, id: nat) {
    keys == {k} && MaySubmit(s, k, r) && t.rebuilds == Submit(s.rebuilds, k, id)
  }

  lemma TurnMoves(s: Queue, t: Queue, maxBuilds: nat) returns (keys: set<RebuildKey>)
    requires Turns(s, t, maxBuilds)
    ensures Moved(s, t, keys)
    ensures if keys == {} then t.rebuilds == s.rebuilds else exists k, r, id :: Submits(s, t, keys, k, r, id)
  {
    var r, n, state, id :| TurnAt(s.requests, s.rebuilds, t.requests, t.rebuilds, r, n, state, id);
    if HasShare(s.requests, s.rebuilds, r) && exists k :: k in s.rebuilds && IsWaiting(s.rebuilds, k) {
      var k :| IsNext(s.rebuilds, k) && t.rebuilds == Submit(s.rebuilds, k, id);
      SubmitMoves(s, t.requests, k, id, r, n, state);
      keys := {k};
      assert Submits(s, t, keys, k, r, id);
    } else {
      ScheduledMoves(s, t.requests, r, n);
      keys := {};
    }
  }

  /** A step submits nothing, or the rebuild that is next in a turn of a request with a share left. */
  lemma StepMoves(s: Queue, t: Queue, maxBuilds: nat) returns (keys: set<RebuildKey>)
    requires Turns(s, t, maxBuilds) || Polls(s, t)
    ensures Moved(s, t, keys)
    ensures keys != {} ==> |InCopr(s.rebuilds)| < maxBuilds && exists k, r :: keys == {k} && MaySubmit(s, k, r)
  {
    if Polls(s, t) {
      var k, outcome: BuildState :|
        k in InCopr(s.rebuilds) && (outcome.Complete? || outcome.FailedBuild?) && t == Polled(s, k, outcome);
      PollMoves(s, k, outcome);
      keys := {};
    } else {
      keys := TurnMoves(s, t, maxBuilds);
      if keys != {} {
        var k, r, id :| Submits(s, t, keys, k, r, id);
        assert keys == {k} && MaySubmit(s, k, r);
      }
    }
  }

  // Kept

  /** What was submitted came before what still waits. */
  predicate InOrder(s: Queue, t: Queue, keys: set<RebuildKey>)
    requires Moved(s, t, keys)
  {
    forall j, i | j in keys && i in Waiting(t.rebuilds) :: s.rebuilds[j].order <= s.rebuilds[i].order
  }

  lemma NextAfter(s: Queue, t: Queue, keys: set<RebuildKey>, k: RebuildKey)
    requires Moved(s, t, keys) && InOrder(s, t, keys) && IsNext(t.rebuilds, k)
    ensures CanPrecede(s.rebuilds, keys, k)
  {
    assert k in Waiting(t.rebuilds);
    forall j | j in Waiting(s.rebuilds) - keys ensures s.rebuilds[k].order <= s.rebuilds[j].order {
      assert j in Waiting(t.rebuilds) && IsWaiting(t.rebuilds, j);
    }
  }

  lemma InOrderStep(s: Queue, t: Queue, u: Queue, a: set<RebuildKey>, b: set<RebuildKey>)
    requires Moved(s, t, a) && InOrder(s, t, a) && Moved(t, u, b)
    requires b != {} ==> exists k :: b == {k} && IsNext(t.rebuilds, k)
    ensures Moved(s, u, a + b) && InOrder(s, u, a + b)
  {
    MovedTwice(s, t, u, a, b);
    forall j, i | j in a + b && i in Waiting(u.rebuilds) ensures s.rebuilds[j].order <= s.rebuilds[i].order {
      assert i in Waiting(t.rebuilds) && IsWaiting(t.rebuilds, i);
      if j in b {
        assert t.rebuilds[j].order <= t.rebuilds[i].order;
      }
    }
  }

  predicate IsOpen(t: Queue, r: RequestId) {
    exists j :: j in t.rebuilds && j.request == r && !IsFinished(t.rebuilds[j])
  }

  predicate IsUntouched(s: Queue, t: Queue, keys: set<RebuildKey>, r: RequestId) {
    forall j | j in s.rebuilds && j.request == r :: j !in keys && j in t.rebuilds && t.rebuilds[j] == s.rebuilds[j]
  }

  /** A request that is still in progress has a rebuild that is not finished, unless nothing has happened to
      its rebuilds. */
  predicate AllOpen(s: Queue, t: Queue, keys: set<RebuildKey>) {
    forall r | r in t.requests && InProgressIn(t, r) :: IsOpen(t, r) || IsUntouched(s, t, keys, r)
  }

  lemma SameRebuildsOpen(s: Queue, t: Queue, u: Queue, a: set<RebuildKey>, b: set<RebuildKey>, r: RequestId)
    requires t.rebuilds.Keys == u.rebuilds.Keys && (IsOpen(t, r) || IsUntouched(s, t, a, r))
    requires forall j | j in t.rebuilds && j.request == r :: u.rebuilds[j] == t.rebuilds[j]
    requires s.rebuilds.Keys == t.rebuilds.Keys && forall j | j in b :: j.request != r
    ensures IsOpen(u, r) || IsUntouched(s, u, a + b, r)
  {
    if IsOpen(t, r) {
      var j :| j in t.rebuilds && j.request == r && !IsFinished(t.rebuilds[j]);
      assert j in u.rebuilds && !IsFinished(u.rebuilds[j]);
    }
  }

  lemma PollKeepsOpen(s: Queue, t: Queue, a: set<RebuildKey>, k: RebuildKey, outcome: BuildState)
    requires Moved(s, t, a) && AllOpen(s, t, a) && k in InCopr(t.rebuilds)
    ensures AllOpen(s, Polled(t, k, outcome), a)
  {
    var u := Polled(t, k, outcome);
    forall r | r in u.requests && InProgressIn(u, r) ensures IsOpen(u, r) || IsUntouched(s, u, a, r) {
      if r == k.request {
        assert !AllFinished(u.rebuilds, r);
      } else {
        assert InProgressIn(t, r);
        SameRebuildsOpen(s, t, u, a, {}, r);
        assert a + {} == a;
      }
    }
  }

  lemma SubmitKeepsOpen(s: Queue, t: Queue, u: Queue, a: set<RebuildKey>, k: RebuildKey, id: nat)
    requires Moved(s, t, a) && AllOpen(s, t, a) && k in t.rebuilds && u.rebuilds == Submit(t.rebuilds, k, id)
    requires forall r | r in u.requests && InProgressIn(u, r) :: r in t.requests && InProgressIn(t, r)
    ensures AllOpen(s, u, a + {k})
  {
    forall r | r in u.requests && InProgressIn(u, r) ensures IsOpen(u, r) || IsUntouched(s, u, a + {k}, r) {
      if r == k.request {
        assert k in u.rebuilds && !IsFinished(u.rebuilds[k]);
      } else {
        SameRebuildsOpen(s, t, u, a, {k}, r);
      }
    }
  }

  lemma PollsKeepOpen(s: Queue, t: Queue, u: Queue, a: set<RebuildKey>, b: set<RebuildKey>)
    requires Moved(s, t, a) && AllOpen(s, t, a) && Moved(t, u, b) && Polls(t, u)
    ensures AllOpen(s, u, a + b)
  {
    var k, outcome: BuildState :|
      k in InCopr(t.rebuilds) && (outcome.Complete? || outcome.FailedBuild?) && u == Polled(t, k, outcome);
    PollMoves(t, k, outcome);
    PollKeepsOpen(s, t, a, k, outcome);
    MovedOnce(t, u, b, {});
    assert a + b == a;
  }

  lemma ScheduledKeepsOpen(s: Queue, t: Queue, u: Queue, a: set<RebuildKey>)
    requires Moved(s, t, a) && AllOpen(s, t, a) && u.rebuilds == t.rebuilds
    requires forall r | r in u.requests && InProgressIn(u, r) :: r in t.requests && InProgressIn(t, r)
    ensures AllOpen(s, u, a)
  {
    forall q | q in u.requests && InProgressIn(u, q) ensures IsOpen(u, q) || IsUntouched(s, u, a, q) {
      SameRebuildsOpen(s, t, u, a, {}, q);
      assert a + {} == a;
    }
  }

  lemma TurnsKeepOpen(s: Queue, t: Queue, u: Queue, a: set<RebuildKey>, b: set<RebuildKey>, maxBuilds: nat)
    requires Moved(s, t, a) && AllOpen(s, t, a) && Moved(t, u, b) && Turns(t, u, maxBuilds)
    ensures AllOpen(s, u, a + b)
  {
    var keys := TurnMoves(t, u, maxBuilds);
    MovedOnce(t, u, b, keys);
    if b == {} {
      ScheduledKeepsOpen(s, t, u, a);
      assert a + b == a;
    } else {
      var k, r, id :| Submits(t, u, b, k, r, id);
      SubmitKeepsOpen(s, t, u, a, k, id);
    }
  }

  lemma OpenStep(s: Queue, t: Queue, u: Queue, a: set<RebuildKey>, b: set<RebuildKey>, maxBuilds: nat)
    requires Moved(s, t, a) && AllOpen(s, t, a) && Moved(t, u, b) && (Turns(t, u, maxBuilds) || Polls(t, u))
    ensures AllOpen(s, u, a + b)
  {
    if Polls(t, u) {
      PollsKeepOpen(s, t, u, a, b);
    } else {
      TurnsKeepOpen(s, t, u, a, b, maxBuilds);
    }
  }

  lemma MovedOnce(s: Queue, t: Queue, a: set<RebuildKey>, b: set<RebuildKey>)
    requires Moved(s, t, a) && Moved(s, t, b)
    ensures a == b
  {
    assert a == Waiting(s.rebuilds) - Waiting(t.rebuilds);
    assert b == Waiting(s.rebuilds) - Waiting(t.rebuilds);
  }

  /** Where no build is running, a request that is still in progress could stay so. */
  lemma OpenStays(s: Queue, t: Queue, a: set<RebuildKey>, r: RequestId, maxBuilds: nat)
    requires Moved(s, t, a) && AllOpen(s, t, a) && InProgressIn(t, r) && |InCopr(t.rebuilds)| < maxBuilds
    ensures Stays(s, a, r, maxBuilds)
  {
    if maxBuilds < 2 {
      assert InCopr(t.rebuilds) == {};
      if IsOpen(t, r) {
        var j :| j in t.rebuilds && j.request == r && !IsFinished(t.rebuilds[j]);
        assert j !in InCopr(s.rebuilds) + a;
        assert Lasts(s.rebuilds, a, j);
      } else {
        assert IsUntouched(s, t, a, r);
        forall j | j in s.rebuilds && j.request == r ensures j !in a && j !in InCopr(s.rebuilds) {
          assert j in InCopr(s.rebuilds) ==> j in InCopr(t.rebuilds);
        }
      }
    }
  }

  lemma SharesStay(s: Queue, t: Queue, a: set<RebuildKey>, k: RebuildKey, r: RequestId, maxBuilds: nat)
    requires !Overshoots(s, maxBuilds) && Moved(s, t, a) && InOrder(s, t, a) && AllOpen(s, t, a)
    requires |InCopr(t.rebuilds)| < maxBuilds && MaySubmit(t, k, r) && k.request in s.requests
    ensures HasShare(t.requests, t.rebuilds, k.request)
  {
    NextAfter(s, t, a, k);
    OpenStays(s, t, a, r, maxBuilds);
    MovedSubmits(s, t, a, k.request);
    MovedSubmits(s, t, a, r);
    assert SharesLater(s, a, r, maxBuilds);
    assert !OvershootsAt(s, a, k, maxBuilds);
  }

  lemma OneSubmitted(t: Queue, u: Queue, k: RebuildKey, q: RequestId)
    requires Moved(t, u, {k})
    ensures |Submitted(u.rebuilds, q)| <= |Submitted(t.rebuilds, q)| + if q == k.request then 1 else 0
  {
    MovedSubmits(t, u, {k}, q);
    assert Of({k}, q) == if q == k.request then {k} else {};
  }

  lemma StepKeeps(s: Queue, t: Queue, u: Queue, a: set<RebuildKey>, k: RebuildKey, r: RequestId, maxBuilds: nat)
    requires !Overshoots(s, maxBuilds) && Moved(s, t, a) && InOrder(s, t, a) && AllOpen(s, t, a) && CountsKept(t)
    requires Moved(t, u, {k}) && MaySubmit(t, k, r) && |InCopr(t.rebuilds)| < maxBuilds
    ensures CountsKept(u)
  {
    if k.request in s.requests {
      SharesStay(s, t, a, k, r, maxBuilds);
    }
    forall q | q in u.requests ensures |Submitted(u.rebuilds, q)| <= u.requests[q].scheduleCount {
      OneSubmitted(t, u, k, q);
    }
  }

  lemma NothingSubmitted(t: Queue, u: Queue)
    requires Moved(t, u, {}) && CountsKept(t)
    ensures CountsKept(u)
  {
    forall q | q in u.requests ensures |Submitted(u.rebuilds, q)| <= u.requests[q].scheduleCount {
      MovedSubmits(t, u, {}, q);
      assert Submitted(u.rebuilds, q) == Submitted(t.rebuilds, q);
    }
  }

  /** What a run has done so far */
  predicate SoFar(s: Queue, t: Queue, keys: set<RebuildKey>) {
    Moved(s, t, keys) && InOrder(s, t, keys) && AllOpen(s, t, keys)
  }

  lemma StepGoesOn(s: Queue, t: Queue, u: Queue, a: set<RebuildKey>, maxBuilds: nat) returns (keys: set<RebuildKey>)
    requires SoFar(s, t, a) && CountsKept(t) && !Overshoots(s, maxBuilds) && (Turns(t, u, maxBuilds) || Polls(t, u))
    ensures SoFar(s, u, keys) && CountsKept(u)
  {
    var b := StepMoves(t, u, maxBuilds);
    keys := a + b;
    InOrderStep(s, t, u, a, b);
    OpenStep(s, t, u, a, b, maxBuilds);
    if b == {} {
      NothingSubmitted(t, u);
    } else {
      var k, r :| b == {k} && MaySubmit(t, k, r);
      StepKeeps(s, t, u, a, k, r, maxBuilds);
    }
  }

  lemma RunSteps(run: seq<Queue>, maxBuilds: nat, i: nat)
    requires IsRun(run, maxBuilds) && i + 1 < |run|
    ensures Turns(run[i], run[i + 1], maxBuilds) || Polls(run[i], run[i + 1])
  {
  }

  /** Where the condition does not hold, no run breaks a count. */
  lemma {:induction false} RunKeeps(run: seq<Queue>, maxBuilds: nat) returns (keys: set<RebuildKey>)
    requires IsRun(run, maxBuilds) && CountsKept(run[0]) && !Overshoots(run[0], maxBuilds)
    ensures SoFar(run[0], Last(run), keys) && CountsKept(Last(run))
    decreases |run|
  {
    if |run| == 1 {
      keys := {};
    } else {
      var n := |run| - 1;
      var a := RunKeeps(run[..n], maxBuilds);
      RunSteps(run, maxBuilds, n - 1);
      keys := StepGoesOn(run[0], run[n - 1], run[n], a, maxBuilds);
    }
  }

  // Broken

  lemma RunsJoin(a: seq<Queue>, b: seq<Queue>, maxBuilds: nat)
    requires IsRun(a, maxBuilds) && IsRun(b, maxBuilds) && Last(a) == b[0]
    ensures IsRun(a + b[1..], maxBuilds) && (a + b[1..])[0] == a[0] && Last(a + b[1..]) == Last(b)
  {
    var run := a + b[1..];
    forall i | 0 <= i < |run| - 1 ensures Turns(run[i], run[i + 1], maxBuilds) || Polls(run[i], run[i + 1]) {
      if i < |a| - 1 {
        assert run[i] == a[i] && run[i + 1] == a[i + 1];
      } else {
        var j := i - (|a| - 1);
        assert run[i] == b[j] && run[i + 1] == b[j + 1];
      }
    }
  }

  /** A run from `s` that submits `keys` */
  ghost predicate Leads(run: seq<Queue>, s: Queue, keys: set<RebuildKey>, maxBuilds: nat) {
    IsRun(run, maxBuilds) && run[0] == s && Moved(s, Last(run), keys)
  }

  lemma LeadsOn(a: seq<Queue>, b: seq<Queue>, s: Queue, first: set<RebuildKey>, then_: set<RebuildKey>,
                keys: set<RebuildKey>, maxBuilds: nat) returns (run: seq<Queue>)
    requires Leads(a, s, first, maxBuilds) && Leads(b, Last(a), then_, maxBuilds) && first + then_ == keys
    ensures Leads(run, s, keys, maxBuilds) && Last(run) == Last(b)
  {
    RunsJoin(a, b, maxBuilds);
    MovedTwice(s, Last(a), Last(b), first, then_);
    run := a + b[1..];
  }

  lemma StaysOn(s: Queue, t: Queue, before: set<RebuildKey>, keys: set<RebuildKey>, r: RequestId, maxBuilds: nat)
    requires Moved(s, t, keys) && keys <= before && Stays(s, before, r, maxBuilds)
    ensures Stays(t, before - keys, r, maxBuilds)
  {
    if j :| j in s.rebuilds && j.request == r && Lasts(s.rebuilds, before, j) {
      assert j in t.rebuilds && Lasts(t.rebuilds, before - keys, j);
    } else if maxBuilds < 2 {
      forall j | j in t.rebuilds && j.request == r ensures j !in before - keys && j !in InCopr(t.rebuilds) {
        assert j in s.rebuilds;
      }
    }
  }

  /** A running build of another request, or one of two that are running, or one beside a rebuild that lasts */
  predicate IsHarmless(s: Queue, k: RebuildKey, r: RequestId) {
    k in InCopr(s.rebuilds) &&
    (k.request != r || exists j :: j in s.rebuilds && j.request == r && j != k && !IsFinished(s.rebuilds[j]))
  }

  lemma SomeHarmless(s: Queue, before: set<RebuildKey>, r: RequestId, maxBuilds: nat) returns (k: RebuildKey)
    requires Stays(s, before, r, maxBuilds) && |InCopr(s.rebuilds)| >= maxBuilds > 0
    ensures IsHarmless(s, k, r)
  {
    k :| k in InCopr(s.rebuilds);
    if maxBuilds >= 2 {
      var others := InCopr(s.rebuilds) - {k};
      assert |others| > 0;
      var j :| j in others;
      assert j in s.rebuilds && !IsFinished(s.rebuilds[j]);
      if j.request != r {
        k := j;
      }
    } else if j :| j in s.rebuilds && j.request == r && Lasts(s.rebuilds, before, j) {
      assert j != k;
    } else {
      assert k.request != r;
    }
  }

  /** Polling it does not finish `r`. */
  lemma HarmlessPoll(s: Queue, r: RequestId, k: RebuildKey) returns (t: Queue)
    requires InProgressIn(s, r) && IsHarmless(s, k, r)
    ensures Polls(s, t) && Moved(s, t, {}) && InProgressIn(t, r) && InCopr(t.rebuilds) < InCopr(s.rebuilds)
  {
    t := Polled(s, k, BuildState.Complete);
    PollMoves(s, k, BuildState.Complete);
    if k.request == r {
      var j :| j in s.rebuilds && j.request == r && j != k && !IsFinished(s.rebuilds[j]);
      assert j in t.rebuilds && !IsFinished(t.rebuilds[j]);
    }
    assert k in InCopr(s.rebuilds) && k !in InCopr(t.rebuilds);
  }

  lemma {:induction false} MakeRoom(s: Queue, before: set<RebuildKey>, r: RequestId, maxBuilds: nat)
    returns (run: seq<Queue>)
    requires InProgressIn(s, r) && Stays(s, before, r, maxBuilds) && maxBuilds > 0
    ensures Leads(run, s, {}, maxBuilds) && InProgressIn(Last(run), r)
    ensures |InCopr(Last(run).rebuilds)| < maxBuilds
    decreases InCopr(s.rebuilds)
  {
    if |InCopr(s.rebuilds)| < maxBuilds {
      run := [s];
    } else {
      var k := SomeHarmless(s, before, r, maxBuilds);
      var t := HarmlessPoll(s, r, k);
      StaysOn(s, t, before, {}, r, maxBuilds);
      assert before - {} == before;
      var rest := MakeRoom(t, before, r, maxBuilds);
      run := LeadsOn([s, t], rest, s, {}, {}, {}, maxBuilds);
    }
  }

  lemma {:induction false} SomeFirst(requests: Requests, among: set<RequestId>) returns (f: RequestId)
    requires among <= requests.Keys && among != {}
    ensures f in among && forall q | q in among :: NotAfter(requests[f].queueIndex, requests[q].queueIndex)
    decreases among
  {
    var q :| q in among;
    f := q;
    if among - {q} != {} {
      var g := SomeFirst(requests, among - {q});
      if !NotAfter(requests[q].queueIndex, requests[g].queueIndex) {
        f := g;
      }
    }
    forall p | p in among ensures NotAfter(requests[f].queueIndex, requests[p].queueIndex) {
      assert p == q || p in among - {q};
    }
  }

  lemma {:induction false} SomeLastIndex(requests: Requests, among: set<RequestId>) returns (n: nat)
    requires among <= requests.Keys
    ensures n > 0 && forall q | q in among && requests[q].queueIndex.Some? :: requests[q].queueIndex.value < n
    ensures n == 1 || exists q :: q in among && requests[q].queueIndex == Some(n - 1)
    decreases among
  {
    n := 1;
    if among != {} {
      var q :| q in among;
      n := SomeLastIndex(requests, among - {q});
      if requests[q].queueIndex.Some? && requests[q].queueIndex.value >= n {
        n := requests[q].queueIndex.value + 1;
      }
    }
  }

  function InProgress(s: Queue): set<RequestId> {
    set q | q in s.requests && s.requests[q].state.InProgress?
  }

  /** A turn: the first request has had its share and is scheduled, or it submits `k`. */
  lemma SomeTurn(s: Queue, r: RequestId, k: RebuildKey, maxBuilds: nat) returns (t: Queue, keys: set<RebuildKey>)
    requires MaySubmit(s, k, r)
    requires |InCopr(s.rebuilds)| < maxBuilds
    ensures Turns(s, t, maxBuilds) && InProgressIn(t, r) && Moved(s, t, keys)
    ensures keys == {k} || (keys == {} && t.rebuilds == s.rebuilds && InProgress(t) < InProgress(s))
  {
    assert r in InProgress(s);
    var f := SomeFirst(s.requests, InProgress(s));
    var n := SomeLastIndex(s.requests, s.requests.Keys);
    assert IsFirst(s.requests, f) && IsLastIndex(s.requests, n);
    var moved := MovedToEnd(s.requests, s.requests[f].user, n);
    if HasShare(s.requests, s.rebuilds, f) {
      keys := {k};
      var state := s.requests[f].state;
      t := Queue(moved[f := s.requests[f].(queueIndex := Some(n), state := state)], Submit(s.rebuilds, k, 0));
      assert TurnAt(s.requests, s.rebuilds, t.requests, t.rebuilds, f, n, state, 0);
      SubmitMoves(s, t.requests, k, 0, f, n, state);
    } else {
      keys := {};
      t := Queue(moved[f := s.requests[f].(queueIndex := Some(n), state := Scheduled)], s.rebuilds);
      assert TurnAt(s.requests, s.rebuilds, t.requests, t.rebuilds, f, n, Scheduled, 0);
      ScheduledMoves(s, t.requests, f, n);
      assert f in InProgress(s) && f !in InProgress(t);
    }
  }

  lemma OneTurn(s: Queue, t: Queue, keys: set<RebuildKey>, maxBuilds: nat) returns (run: seq<Queue>)
    requires Turns(s, t, maxBuilds) && Moved(s, t, keys)
    ensures Leads(run, s, keys, maxBuilds) && Last(run) == t
  {
    run := [s, t];
  }

  /** Turn by turn, requests that have had their share are scheduled until one of the others submits `k`. */
  lemma {:induction false} TurnsSubmit(s: Queue, r: RequestId, k: RebuildKey, maxBuilds: nat) returns (run: seq<Queue>)
    requires MaySubmit(s, k, r)
    requires |InCopr(s.rebuilds)| < maxBuilds
    ensures Leads(run, s, {k}, maxBuilds) && InProgressIn(Last(run), r)
    decreases InProgress(s)
  {
    var t, keys := SomeTurn(s, r, k, maxBuilds);
    run := OneTurn(s, t, keys, maxBuilds);
    if keys == {} {
      var rest := TurnsSubmit(t, r, k, maxBuilds);
      run := LeadsOn(run, rest, s, {}, {k}, {k}, maxBuilds);
    }
  }

  lemma StillNext(s: Queue, t: Queue, k: RebuildKey, r: RequestId)
    requires Moved(s, t, {}) && IsNext(s.rebuilds, k) && r in s.requests && HasShare(s.requests, s.rebuilds, r)
    ensures IsNext(t.rebuilds, k) && HasShare(t.requests, t.rebuilds, r)
  {
    MovedSubmits(s, t, {}, r);
    assert k in Waiting(t.rebuilds);
    forall j | j in t.rebuilds && IsWaiting(t.rebuilds, j) ensures t.rebuilds[k].order <= t.rebuilds[j].order {
      assert j in Waiting(t.rebuilds) && IsWaiting(s.rebuilds, j);
    }
    assert Of({}, r) == {};
  }

  lemma OneMore(s: Queue, before: set<RebuildKey>, r: RequestId, k: RebuildKey, maxBuilds: nat)
    returns (run: seq<Queue>)
    requires MaySubmit(s, k, r) && Stays(s, before, r, maxBuilds) && maxBuilds > 0
    ensures Leads(run, s, {k}, maxBuilds) && InProgressIn(Last(run), r)
  {
    var a := MakeRoom(s, before, r, maxBuilds);
    StillNext(s, Last(a), k, r);
    var b := TurnsSubmit(Last(a), r, k, maxBuilds);
    run := LeadsOn(a, b, s, {}, {k}, {k}, maxBuilds);
  }

  lemma {:induction false} SomeEarliest(rebuilds: Rebuilds, among: set<RebuildKey>) returns (k: RebuildKey)
    requires among <= rebuilds.Keys && among != {}
    ensures k in among && forall j | j in among :: rebuilds[k].order <= rebuilds[j].order
    decreases among
  {
    var i :| i in among;
    k := i;
    if among - {i} != {} {
      var j := SomeEarliest(rebuilds, among - {i});
      if rebuilds[j].order < rebuilds[i].order {
        k := j;
      }
    }
    forall p | p in among ensures rebuilds[k].order <= rebuilds[p].order {
      assert p == i || p in among - {i};
    }
  }

  lemma EarliestIsNext(rebuilds: Rebuilds, before: set<RebuildKey>, k: RebuildKey, j: RebuildKey)
    requires CanPrecede(rebuilds, before, k)
    requires if before == {} then j == k
             else j in before && forall i | i in before :: rebuilds[j].order <= rebuilds[i].order
    ensures IsNext(rebuilds, j)
  {
    forall i | i in rebuilds && IsWaiting(rebuilds, i) ensures rebuilds[j].order <= rebuilds[i].order {
      assert i in Waiting(rebuilds);
    }
  }

  lemma StillPrecedes(s: Queue, t: Queue, before: set<RebuildKey>, k: RebuildKey, j: RebuildKey, q: RequestId)
    requires CanPrecede(s.rebuilds, before, k) && j in before && Moved(s, t, {j})
    ensures CanPrecede(t.rebuilds, before - {j}, k)
    ensures CountWith(t.rebuilds, before - {j}, q) == CountWith(s.rebuilds, before, q)
  {
    MovedSubmits(s, t, {j}, q);
    assert Submitted(t.rebuilds, q) + Of(before - {j}, q) == Submitted(s.rebuilds, q) + Of(before, q);
  }

  lemma SharesLeft(rebuilds: Rebuilds, before: set<RebuildKey>, q: RequestId)
    ensures |Submitted(rebuilds, q)| <= CountWith(rebuilds, before, q)
  {
    var all := Submitted(rebuilds, q) + Of(before, q);
    assert all == Submitted(rebuilds, q) + (all - Submitted(rebuilds, q));
  }

  lemma OneOf(s: Queue, r: RequestId, before: set<RebuildKey>, k: RebuildKey, maxBuilds: nat)
    returns (run: seq<Queue>, j: RebuildKey)
    requires CanPrecede(s.rebuilds, before, k) && SharesLater(s, before, r, maxBuilds) && maxBuilds > 0 && before != {}
    ensures j in before && Leads(run, s, {j}, maxBuilds) && CanPrecede(Last(run).rebuilds, before - {j}, k)
    ensures SharesLater(Last(run), before - {j}, r, maxBuilds)
  {
    j := SomeEarliest(s.rebuilds, before);
    SharesLeft(s.rebuilds, before, r);
    EarliestIsNext(s.rebuilds, before, k, j);
    run := OneMore(s, before, r, j, maxBuilds);
    StillPrecedes(s, Last(run), before, k, j, r);
    StaysOn(s, Last(run), before, {j}, r, maxBuilds);
  }

  lemma LastOne(s: Queue, r: RequestId, before: set<RebuildKey>, k: RebuildKey, maxBuilds: nat)
    returns (run: seq<Queue>)
    requires CanPrecede(s.rebuilds, before, k) && SharesLater(s, before, r, maxBuilds) && maxBuilds > 0 && before == {}
    ensures Leads(run, s, before + {k}, maxBuilds)
  {
    SharesLeft(s.rebuilds, before, r);
    EarliestIsNext(s.rebuilds, before, k, k);
    run := OneMore(s, before, r, k, maxBuilds);
    assert before + {k} == {k};
  }

  lemma OneThenRest(first: seq<Queue>, rest: seq<Queue>, s: Queue, before: set<RebuildKey>, j: RebuildKey,
                    k: RebuildKey, maxBuilds: nat) returns (run: seq<Queue>)
    requires Leads(first, s, {j}, maxBuilds) && Leads(rest, Last(first), before - {j} + {k}, maxBuilds) && j in before
    ensures Leads(run, s, before + {k}, maxBuilds)
  {
    assert {j} + (before - {j} + {k}) == before + {k};
    run := LeadsOn(first, rest, s, {j}, before - {j} + {k}, before + {k}, maxBuilds);
  }

  /** As long as `r` is in progress and has not had its share, the queue is worked off up to `k` and `k`
      is submitted. */
  lemma {:induction false} WorkedOff(s: Queue, r: RequestId, before: set<RebuildKey>, k: RebuildKey, maxBuilds: nat)
    returns (run: seq<Queue>)
    requires CanPrecede(s.rebuilds, before, k) && SharesLater(s, before, r, maxBuilds) && maxBuilds > 0
    ensures Leads(run, s, before + {k}, maxBuilds)
    decreases before
  {
    if before == {} {
      run := LastOne(s, r, before, k, maxBuilds);
    } else {
      var first, j := OneOf(s, r, before, k, maxBuilds);
      var rest := WorkedOff(Last(first), r, before - {j}, k, maxBuilds);
      run := OneThenRest(first, rest, s, before, j, k, maxBuilds);
    }
  }

  lemma OneTooMany(s: Queue, t: Queue, before: set<RebuildKey>, k: RebuildKey)
    requires k in Waiting(s.rebuilds) && k !in before && Moved(s, t, before + {k})
    ensures |Submitted(t.rebuilds, k.request)| == CountWith(s.rebuilds, before, k.request) + 1
  {
    var q := k.request;
    var had := Submitted(s.rebuilds, q) + Of(before, q);
    assert k !in had;
    MovedSubmits(s, t, before + {k}, q);
    assert Of(before + {k}, q) == Of(before, q) + {k};
    assert Submitted(t.rebuilds, q) == had + {k};
  }

  lemma CountBroken(s: Queue, t: Queue, before: set<RebuildKey>, k: RebuildKey, maxBuilds: nat)
    requires OvershootsAt(s, before, k, maxBuilds) && Moved(s, t, before + {k})
    ensures !CountsKept(t)
  {
    OneTooMany(s, t, before, k);
  }

  /** Turns and polls in any order keep every request within its scheduled count exactly when no rebuild
      waits whose owner, once all those ahead of it are submitted, has had its share while a request that
      is still in progress has not. */
  lemma AlwaysKeptExactly(s: Queue, maxBuilds: nat)
    requires CountsKept(s)
    ensures AlwaysKept(s, maxBuilds) <==> !Overshoots(s, maxBuilds)
  {
    if Overshoots(s, maxBuilds) {
      var before, k :| OvershootsAt(s, before, k, maxBuilds);
      var r :| r in s.requests && SharesLater(s, before, r, maxBuilds);
      var run := WorkedOff(s, r, before, k, maxBuilds);
      CountBroken(s, Last(run), before, k, maxBuilds);
    } else {
      forall run | IsRun(run, maxBuilds) && run[0] == s ensures CountsKept(Last(run)) {
        var keys := RunKeeps(run, maxBuilds);
      }
    }
  }
}
