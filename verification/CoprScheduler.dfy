/** `CoprScheduler.main`: users take turns through an index that moves all requests of a user to the end
    of the queue. */
module CoprScheduler {
  import opened Wrappers

  type UserId = nat

  type RequestId = nat

  datatype RequestState = New | InProgress | Scheduled | Finished | Failed

  datatype Request = Request(user: UserId, state: RequestState, queueIndex: Option<nat>, scheduleCount: int)

  type Requests = map<RequestId, Request>

  datatype BuildState = Running | Complete | FailedBuild | Canceled

  datatype RebuildKey = RebuildKey(request: RequestId, package: nat)

  datatype Rebuild = Rebuild(order: int, coprBuildId: Option<nat>, state: Option<BuildState>)

  type Rebuilds = map<RebuildKey, Rebuild>

  // The queue

  /** ORDER BY scheduler_queue_index NULLS FIRST */
  predicate NotAfter(a: Option<nat>, b: Option<nat>) {
    a.None? || (b.Some? && a.value <= b.value)
  }

  /** The first schedulable request of the queue */
  predicate IsFirst(requests: Requests, r: RequestId) {
    && r in requests && requests[r].state.InProgress?
    && forall q | q in requests && requests[q].state.InProgress? ::
        NotAfter(requests[r].queueIndex, requests[q].queueIndex)
  }

  /** An index behind every one in use */
  predicate IsBehind(requests: Requests, n: nat) {
    n > 0 && forall q | q in requests && requests[q].queueIndex.Some? :: requests[q].queueIndex.value < n
  }

  /** coalesce(max(scheduler_queue_index), 0) + 1 */
  predicate IsLastIndex(requests: Requests, n: nat) {
    IsBehind(requests, n) && (n == 1 || exists q :: q in requests && requests[q].queueIndex == Some(n - 1))
  }

  function MovedToEnd(requests: Requests, user: UserId, n: nat): Requests {
    map q | q in requests :: if requests[q].user == user then requests[q].(queueIndex := Some(n)) else requests[q]
  }

  datatype Step =
    | Turn(user: UserId)
    | Create(request: RequestId, row: Request)  // a new request, with no index yet
    | Other                                     // anything that creates no request and moves none

  /** A turn of `user`: one of his requests is first, all of them go to the end, one may become scheduled. */
  ghost predicate TakesTurn(requests: Requests, requests': Requests, user: UserId) {
    exists r, n, state ::
      && IsFirst(requests, r) && requests[r].user == user && IsBehind(requests, n)
      && AfterTurn(requests, requests', r, n, state)
  }

  ghost predicate AfterTurn(requests: Requests, requests': Requests, r: RequestId, n: nat, state: RequestState) {
    && r in requests && requests' ==
        MovedToEnd(requests, requests[r].user, n)[r := requests[r].(queueIndex := Some(n), state := state)]
  }

  /** Same users and indexes; requests may disappear and change their state. */
  ghost predicate KeepsQueue(requests: Requests, requests': Requests) {
    forall q | q in requests' :: q in requests && requests'[q].user == requests[q].user
                                 && requests'[q].queueIndex == requests[q].queueIndex
  }

  ghost predicate Takes(requests: Requests, requests': Requests, step: Step) {
    match step
    case Turn(user) => TakesTurn(requests, requests', user)
    case Create(r, row) => r !in requests && row.queueIndex.None? && requests' == requests[r := row]
    case Other => KeepsQueue(requests, requests')
  }

  ghost predicate IsRun(tables: seq<Requests>, steps: seq<Step>) {
    |tables| == |steps| + 1 && forall i | 0 <= i < |steps| :: Takes(tables[i], tables[i + 1], steps[i])
  }

  // Turns

  /** Every request of `user` is queued behind the request `q`. */
  ghost predicate Behind(requests: Requests, user: UserId, q: RequestId) {
    && q in requests
    && forall r | r in requests && requests[r].user == user :: !NotAfter(requests[r].queueIndex, requests[q].queueIndex)
  }

  predicate CreatesFor(step: Step, user: UserId) {
    step.Create? && step.row.user == user
  }

  lemma TurnPutsBehind(requests: Requests, requests': Requests, user: UserId, q: RequestId)
    requires TakesTurn(requests, requests', user) && q in requests && requests[q].user != user
    ensures Behind(requests', user, q)
  {
  }

  /** Nothing but a turn of the other user or a new request brings a user back before `q`. */
  lemma StaysBehind(requests: Requests, requests': Requests, step: Step, user: UserId, q: RequestId)
    requires Takes(requests, requests', step) && Behind(requests, user, q) && q in requests' && requests[q].user != user
    requires !CreatesFor(step, user) && !(step.Turn? && step.user == requests[q].user)
    ensures Behind(requests', user, q)
  {
    if step.Turn? && step.user == user {
      TurnPutsBehind(requests, requests', user, q);
    }
  }

  lemma BehindIsNotFirst(requests: Requests, user: UserId, q: RequestId)
    requires Behind(requests, user, q) && requests[q].state.InProgress?
    ensures forall r | IsFirst(requests, r) :: requests[r].user != user
  {
  }

  lemma NobodyFirst(requests: Requests, requests': Requests, user: UserId)
    requires forall r | IsFirst(requests, r) :: requests[r].user != user
    ensures !TakesTurn(requests, requests', user)
  {
  }

  lemma KeepsUser(requests: Requests, requests': Requests, step: Step, q: RequestId)
    requires Takes(requests, requests', step) && q in requests && q in requests'
    ensures requests'[q].user == requests[q].user
  {
  }

  lemma {:induction false} BehindUntil(tables: seq<Requests>, steps: seq<Step>, i: nat, j: nat, user: UserId,
                                       q: RequestId)
    requires IsRun(tables, steps) && i < j <= |steps| && steps[i] == Turn(user)
    requires (forall k | i <= k <= j :: q in tables[k]) && tables[i][q].user != user
    requires forall k | i < k < j :: !CreatesFor(steps[k], user) && steps[k] != Turn(tables[i][q].user)
    ensures Behind(tables[j], user, q) && tables[j][q].user == tables[i][q].user
    decreases j
  {
    KeepsUser(tables[j - 1], tables[j], steps[j - 1], q);
    if j == i + 1 {
      TurnPutsBehind(tables[i], tables[j], user, q);
    } else {
      BehindUntil(tables, steps, i, j - 1, user, q);
      StaysBehind(tables[j - 1], tables[j], steps[j - 1], user, q);
    }
  }

  /** Between two turns of one user, every other user with a request there all along, in progress at the
      end, gets a turn, unless the first user creates a request in between. */
  lemma RoundRobin(tables: seq<Requests>, steps: seq<Step>, i: nat, j: nat, user: UserId, q: RequestId)
    requires IsRun(tables, steps) && i < j < |steps| && steps[i] == Turn(user) && steps[j] == Turn(user)
    requires (forall k | i <= k <= j :: q in tables[k]) && tables[i][q].user != user && tables[j][q].state.InProgress?
    requires forall k | i < k < j :: !CreatesFor(steps[k], user)
    ensures exists k | i < k < j :: steps[k] == Turn(tables[i][q].user)
  {
    if forall k | i < k < j :: steps[k] != Turn(tables[i][q].user) {
      BehindUntil(tables, steps, i, j, user, q);
      BehindIsNotFirst(tables[j], user, q);
      NobodyFirst(tables[j], tables[j + 1], user);
    }
  }

  /** Without that condition a user can take turn after turn: the waiting request of user 2 keeps
      waiting while a new request brings user 1 back to the front. */
  lemma NewRequestsGoFirst() returns (tables: seq<Requests>, steps: seq<Step>)
    ensures IsRun(tables, steps) && |steps| == 4 && steps[0] == steps[3] == Turn(1)
    ensures forall k | 0 <= k <= 4 :: 20 in tables[k] && tables[k][20] == Request(2, InProgress, Some(1), 1)
    ensures forall k | 0 <= k < 4 :: steps[k] != Turn(2)
  {
    var waiting := Request(2, InProgress, Some(1), 1);
    var first, second := Request(1, InProgress, None, 1), Request(1, New, None, 1);
    var queued := first.(queueIndex := Some(2));
    var t0: Requests := map[20 := waiting, 10 := first];
    var t1: Requests := map[20 := waiting, 10 := queued];
    var t2: Requests := map[20 := waiting, 10 := queued, 11 := second];
    var t3: Requests := map[20 := waiting, 10 := queued, 11 := second.(state := InProgress)];
    var moved := Request(1, InProgress, Some(3), 1);
    var t4: Requests := map[20 := waiting, 10 := moved, 11 := moved];
    assert IsFirst(t0, 10) && IsBehind(t0, 2) && AfterTurn(t0, t1, 10, 2, InProgress);
    assert IsFirst(t3, 11) && IsBehind(t3, 3) && AfterTurn(t3, t4, 11, 3, InProgress);
    assert t2 == t1[11 := second];
    assert KeepsQueue(t2, t3);
    tables, steps := [t0, t1, t2, t3, t4], [Turn(1), Create(11, second), Other, Turn(1)];
  }

  // Rebuilds

  /** The rebuilds of a request that Copr knows about */
  function Submitted(rebuilds: Rebuilds, r: RequestId): set<RebuildKey> {
    set k | k in rebuilds && k.request == r && rebuilds[k].coprBuildId.Some?
  }

  predicate IsWaiting(rebuilds: Rebuilds, k: RebuildKey) {
    k in rebuilds && rebuilds[k].coprBuildId.None?
  }

  /** The next rebuild to submit, of whatever request */
  predicate IsNext(rebuilds: Rebuilds, k: RebuildKey) {
    IsWaiting(rebuilds, k) && forall j | j in rebuilds && IsWaiting(rebuilds, j) ::
        rebuilds[k].order <= rebuilds[j].order
  }

  /** The rebuilds that are running */
  function InCopr(rebuilds: Rebuilds): set<RebuildKey> {
    set k | k in rebuilds && rebuilds[k].state == Some(BuildState.Running)
  }

  function Submit(rebuilds: Rebuilds, k: RebuildKey, id: nat): Rebuilds
    requires k in rebuilds
  {
    rebuilds[k := rebuilds[k].(coprBuildId := Some(id), state := Some(BuildState.Running))]
  }

  /** What a turn of request `r` does about rebuilds: nothing more is submitted for a request that has its
      share or when nothing waits, and the request is scheduled; otherwise one rebuild is submitted. */
  ghost predicate Schedules(requests: Requests, rebuilds: Rebuilds, rebuilds': Rebuilds, r: RequestId,
                            state: RequestState, id: nat)
    requires r in requests
  {
    if |Submitted(rebuilds, r)| >= requests[r].scheduleCount ||
        (forall k | k in rebuilds :: !IsWaiting(rebuilds, k)) then
      rebuilds' == rebuilds && state == Scheduled
    else
      state == requests[r].state && exists k :: IsNext(rebuilds, k) && rebuilds' == Submit(rebuilds, k, id)
  }

  lemma SubmitCounts(rebuilds: Rebuilds, k: RebuildKey, id: nat, q: RequestId)
    requires IsWaiting(rebuilds, k)
    ensures |Submitted(Submit(rebuilds, k, id), q)| == |Submitted(rebuilds, q)| + if q == k.request then 1 else 0
    ensures |InCopr(Submit(rebuilds, k, id))| <= |InCopr(rebuilds)| + 1
  {
    var rebuilds' := Submit(rebuilds, k, id);
    if q == k.request {
      assert Submitted(rebuilds', q) == Submitted(rebuilds, q) + {k};
    } else {
      assert Submitted(rebuilds', q) == Submitted(rebuilds, q);
    }
    assert InCopr(rebuilds') == InCopr(rebuilds) + {k};
  }

  ghost predicate WithinCounts(requests: Requests, rebuilds: Rebuilds) {
    forall q | q in requests :: |Submitted(rebuilds, q)| <= requests[q].scheduleCount
  }

  predicate HasShare(requests: Requests, rebuilds: Rebuilds, q: RequestId)
    requires q in requests
  {
    |Submitted(rebuilds, q)| < requests[q].scheduleCount
  }

  /** A turn of `r`, which may submit `k`, keeps every request within its scheduled count if `r` has had
      its share or `k` is its own, and otherwise exactly when the owner of `k` has not had its share. */
  lemma KeepsCountsExactly(requests: Requests, rebuilds: Rebuilds, rebuilds': Rebuilds, r: RequestId,
                           state: RequestState, id: nat, k: RebuildKey)
    requires r in requests && WithinCounts(requests, rebuilds) && IsNext(rebuilds, k) && k.request in requests
    requires Schedules(requests, rebuilds, rebuilds', r, state, id)
    requires rebuilds' == rebuilds || rebuilds' == Submit(rebuilds, k, id)
    ensures WithinCounts(requests, rebuilds') <==>
              !HasShare(requests, rebuilds, r) || k.request == r || HasShare(requests, rebuilds, k.request)
  {
    if HasShare(requests, rebuilds, r) {
      var j :| IsNext(rebuilds, j) && rebuilds' == Submit(rebuilds, j, id);
      assert rebuilds'[j] != rebuilds[j];
      forall q ensures |Submitted(rebuilds', q)| == |Submitted(rebuilds, q)| + if q == k.request then 1 else 0 {
        SubmitCounts(rebuilds, k, id, q);
      }
    }
  }

  /** A turn of request 2 that submits a second rebuild of request 1, which asked for one. */
  lemma TurnOvershoots() returns (requests: Requests, rebuilds: Rebuilds, rebuilds': Rebuilds)
    ensures IsFirst(requests, 2) && WithinCounts(requests, rebuilds)
    ensures Schedules(requests, rebuilds, rebuilds', 2, InProgress, 9)
    ensures !WithinCounts(requests, rebuilds')
  {
    requests := map[1 := Request(1, Scheduled, Some(1), 1), 2 := Request(2, InProgress, None, 1)];
    var done, next, own := RebuildKey(1, 1), RebuildKey(1, 2), RebuildKey(2, 3);
    rebuilds := map[done := Rebuild(0, Some(8), Some(Complete)), next := Rebuild(1, None, None),
        own := Rebuild(5, None, None)];
    rebuilds' := Submit(rebuilds, next, 9);
    assert Submitted(rebuilds, 1) == {done};
    assert Submitted(rebuilds, 2) == {};
    assert IsNext(rebuilds, next) && IsWaiting(rebuilds, next);
    KeepsCountsExactly(requests, rebuilds, rebuilds', 2, InProgress, 9, next);
  }

  /** A turn of request `r` */
  ghost predicate TurnAt(requests: Requests, rebuilds: Rebuilds, requests': Requests, rebuilds': Rebuilds,
                         r: RequestId, n: nat, state: RequestState, id: nat) {
    && IsFirst(requests, r) && IsLastIndex(requests, n) && AfterTurn(requests, requests', r, n, state)
    && Schedules(requests, rebuilds, rebuilds', r, state, id)
  }

  class Scheduler {
    var requests: Requests
    var rebuilds: Rebuilds
    const maxBuilds: nat

    constructor (requests: Requests, rebuilds: Rebuilds, maxBuilds: nat)
      ensures this.requests == requests && this.rebuilds == rebuilds && this.maxBuilds == maxBuilds
    {
      this.requests, this.rebuilds, this.maxBuilds := requests, rebuilds, maxBuilds;
    }

    method LastIndex() returns (n: nat)
      ensures IsLastIndex(requests, n)
    {
      n := 1;
      var todo := requests.Keys;
      while todo != {}
        invariant todo <= requests.Keys && n > 0
        invariant n == 1 || exists q :: q in requests && requests[q].queueIndex == Some(n - 1)
        invariant forall q | q in requests && q !in todo && requests[q].queueIndex.Some? ::
            requests[q].queueIndex.value < n
      {
        var q :| q in todo;
        todo := todo - {q};
        if requests[q].queueIndex.Some? && requests[q].queueIndex.value >= n {
          n := requests[q].queueIndex.value + 1;
        }
      }
    }

    method FirstRequest() returns (r: Option<RequestId>)
      ensures match r
              case Some(f) => IsFirst(requests, f)
              case None => forall q | q in requests :: !requests[q].state.InProgress?
    {
      r := None;
      var todo := requests.Keys;
      while todo != {}
        invariant todo <= requests.Keys
        invariant match r
                  case Some(f) => f in requests && requests[f].state.InProgress? &&
                    forall q | q in requests && q !in todo && requests[q].state.InProgress? ::
                      NotAfter(requests[f].queueIndex, requests[q].queueIndex)
                  case None => forall q | q in requests && q !in todo :: !requests[q].state.InProgress?
      {
        var q :| q in todo;
        todo := todo - {q};
        if requests[q].state.InProgress? &&
            (r.None? || !NotAfter(requests[r.value].queueIndex, requests[q].queueIndex)) {
          r := Some(q);
        }
      }
    }

    method NextRebuild() returns (r: Option<RebuildKey>)
      ensures match r
              case Some(k) => IsNext(rebuilds, k)
              case None => forall k | k in rebuilds :: !IsWaiting(rebuilds, k)
    {
      r := None;
      var todo := rebuilds.Keys;
      while todo != {}
        invariant todo <= rebuilds.Keys
        invariant match r
                  case Some(f) => IsWaiting(rebuilds, f) &&
                    forall k | k in rebuilds && k !in todo && IsWaiting(rebuilds, k) ::
                        rebuilds[f].order <= rebuilds[k].order
                  case None => forall k | k in rebuilds && k !in todo :: !IsWaiting(rebuilds, k)
      {
        var k :| k in todo;
        todo := todo - {k};
        if IsWaiting(rebuilds, k) && (r.None? || rebuilds[k].order < rebuilds[r.value].order) {
          r := Some(k);
        }
      }
    }

    /** `copr` is the id Copr gives the new build, or None when it fails and the transaction is rolled back. */
    method Run(copr: Option<nat>) returns (ghost step: Step)
      modifies this
      ensures Takes(old(requests), requests, step) && !step.Create?
      ensures step.Other? ==> requests == old(requests) && rebuilds == old(rebuilds)
      ensures step.Other? ==> copr.None? || |InCopr(rebuilds)| >= maxBuilds || forall q | q in requests ::
          !requests[q].state.InProgress?
      ensures step.Turn? ==> |InCopr(old(rebuilds))| < maxBuilds && exists r, n, state, id ::
                TurnAt(old(requests), old(rebuilds), requests, rebuilds, r, n, state, id)
                && old(requests)[r].user == step.user
      ensures |InCopr(rebuilds)| <= if |InCopr(old(rebuilds))| > maxBuilds then |InCopr(old(rebuilds))| else maxBuilds
    {
      step := Other;
      if |InCopr(rebuilds)| >= maxBuilds {
        return;
      }
      var lastIndex := LastIndex();
      var request := FirstRequest();
      if request.None? {
        return;
      }
      var r := request.value;
      var user := requests[r].user;
      var moved := MovedToEnd(requests, user, lastIndex);
      var buildCount := |Submitted(rebuilds, r)|;
      var rebuild := NextRebuild();
      if buildCount >= requests[r].scheduleCount || rebuild.None? {
        requests := moved[r := moved[r].(state := Scheduled)];
        assert AfterTurn(old(requests), requests, r, lastIndex, Scheduled);
        assert TurnAt(old(requests), old(rebuilds), requests, rebuilds, r, lastIndex, Scheduled, 0);
        step := Turn(user);
      } else if copr.Some? {
        SubmitCounts(rebuilds, rebuild.value, copr.value, r);
        requests, rebuilds := moved, Submit(rebuilds, rebuild.value, copr.value);
        assert requests == moved[r := moved[r]];
        assert AfterTurn(old(requests), requests, r, lastIndex, old(requests)[r].state);
        var state := old(requests)[r].state;
        assert TurnAt(old(requests), old(rebuilds), requests, rebuilds, r, lastIndex, state, copr.value);
        step := Turn(user);
      }
    }
  }
}
