/** The demonstration program of ex2_flow/main.go: task bodies that fail a set number of times
    before they succeed, five of them wired into a workflow, and the loop that reconciles until a
    pass succeeds. */
module Demo {
  import opened Wrappers
  import opened Decimal
  import opened Topo
  import opened Flow

  // ----- the demo body -----

  const MinInt: int := -0x8000_0000_0000_0000
  const MaxInt: int := 0x7fff_ffff_ffff_ffff

  /** Go's `int` on a 64-bit platform. */
  type GoInt = x: int | -0x8000_0000_0000_0000 <= x <= 0x7fff_ffff_ffff_ffff

  /** `x--` on a Go int: two's complement, so the smallest value wraps to the largest. */
  function Dec(x: GoInt): (r: GoInt)
    ensures r % 0x1_0000_0000_0000_0000 == (x - 1) % 0x1_0000_0000_0000_0000
    ensures x != MinInt ==> r == x - 1
  {
    if x == MinInt then MaxInt else x - 1
  }

  /** The two fields of a `demoTask`. */
  datatype DemoState = DemoState(retries: GoInt, success: bool)

  /** How many more calls of `do` it takes until one returns nil: none once successful; otherwise
      `retries` while that is above 1, a single call when it is at most 1, and, from the smallest
      int, one call that wraps to the largest and all the calls from there. */
  function Remaining(d: DemoState): nat {
    if d.success then 0
    else if d.retries == MinInt then MaxInt + 1
    else if d.retries <= 1 then 1
    else d.retries
  }

  /** The error `do` returns while the task has not converged. */
  function RetryMessage(task: Task<int>, remain: int): string {
    "reconce " + task.String() + " error, " + FormatInt(remain) + " remain"
  }

  /** One call of `demoTask.do`: the new fields and the returned error. */
  function DoStep(d: DemoState, task: Task<int>): (r: (DemoState, Option<Error>))
    ensures d.success ==> r == (d, None)
    ensures !d.success ==> r.0.retries == Dec(d.retries)
    ensures r.0.success <==> d.success || Dec(d.retries) <= 0
    ensures r.1.None? <==> r.0.success
    ensures r.1.Some? <==> Remaining(d) > 1
    ensures r.1.Some? ==> r.1.value == Failed(RetryMessage(task, r.0.retries)) && !IsFatal(r.1.value)
    ensures !d.success ==> Remaining(r.0) == Remaining(d) - 1
  {
    if d.success then (d, None)
    else
      var retries := Dec(d.retries);
      if retries > 0 then (DemoState(retries, false), Some(Failed(RetryMessage(task, retries))))
      else (DemoState(retries, true), None)
  }

  /** The state after n calls. */
  function After(d: DemoState, task: Task<int>, n: nat): DemoState
    decreases n
  {
    if n == 0 then d else After(DoStep(d, task).0, task, n - 1)
  }

  /** Every call before convergence brings it one call closer. */
  lemma {:induction false} RemainingAfter(d: DemoState, task: Task<int>, n: nat)
    ensures Remaining(After(d, task, n)) == if n >= Remaining(d) then 0 else Remaining(d) - n
    decreases n
  {
    if n > 0 {
      RemainingAfter(DoStep(d, task).0, task, n - 1);
    }
  }

  /** A task created with `simulatedTries` k fails on its first k - 1 calls and succeeds on call k
      (a k of 1 or less succeeds at once); only the smallest int, which wraps to the largest, makes
      it fail 2^63 - 1 times first. The call numbered n + 1 fails exactly when n + 1 is below that count, and
      success is set from call k on. */
  lemma SimulatedTries(k: GoInt, task: Task<int>, n: nat)
    ensures var d := After(DemoState(k, false), task, n);
      && (1 <= k ==> (DoStep(d, task).1.Some? <==> n + 1 < k) && (d.success <==> n >= k))
      && (MinInt < k < 1 ==> DoStep(d, task).1.None? && (d.success <==> n >= 1))
      && (k == MinInt ==> (DoStep(d, task).1.Some? <==> n + 1 < MaxInt + 1) && (d.success <==> n >= MaxInt + 1))
  {
    RemainingAfter(DemoState(k, false), task, n);
  }

  /** A `demoTask`. */
  class DemoTask {
    var retries: GoInt
    var success: bool

    function State(): DemoState
      reads this
    {
      DemoState(retries, success)
    }

    /** The body `newTask` allocates: `simulatedTries` retries, not yet successful. */
    constructor (simulatedTries: GoInt)
      ensures retries == simulatedTries && !success
    {
      retries := simulatedTries;
      success := false;
    }

    /** `do`: nothing changes once successful; otherwise one decrement, and success when the
        counter is no longer positive. It returns nil exactly when the task has converged. */
    method Do(task: Task<int>) returns (err: Option<Error>)
      modifies this
      ensures (State(), err) == DoStep(old(State()), task)
      ensures err.None? <==> success
      ensures old(success) ==> success && retries == old(retries)
      ensures !old(success) ==> retries == Dec(old(retries))
    {
      if success {
        return None;
      }
      retries := Dec(retries);
      if retries > 0 {
        return Some(Failed(RetryMessage(task, retries)));
      }
      success := true;
      return None;
    }
  }

  // ----- demo bodies inside a pass -----

  /** The private states of all demo bodies, keyed by the handle their task carries. */
  type Bodies = map<int, DemoState>

  /** The engine invoking a task's demo body: that body's state steps, every other one stays. */
  function DemoRun(states: Bodies, t: Task<int>): (r: (Bodies, Option<Error>))
    ensures r.0.Keys == states.Keys
    ensures forall h | h in states && h != t.fn :: r.0[h] == states[h]
    ensures t.fn in states ==> r.0[t.fn] == DoStep(states[t.fn], t).0 && r.1 == DoStep(states[t.fn], t).1
  {
    if t.fn in states then
      var (d, e) := DoStep(states[t.fn], t);
      (states[t.fn := d], e)
    else (states, None)
  }

  /** `context.Background()` is never cancelled. */
  function Never(i: nat): bool {
    false
  }

  ghost predicate HandlesIn(states: Bodies, ts: seq<Task<int>>) {
    forall j | 0 <= j < |ts| :: ts[j].fn in states
  }

  ghost predicate DistinctHandles(ts: seq<Task<int>>) {
    forall j, k | 0 <= j < k < |ts| :: ts[j].fn != ts[k].fn
  }

  /** No task at position i or later carries handle h. */
  ghost predicate NotInvokedFrom(ts: seq<Task<int>>, i: nat, h: int) {
    forall j | i <= j < |ts| :: ts[j].fn != h
  }

  /** The calls the tasks from position i on still need. */
  ghost function Total(states: Bodies, ts: seq<Task<int>>, i: nat): nat
    requires i <= |ts| && HandlesIn(states, ts)
    decreases |ts| - i
  {
    if i == |ts| then 0 else Remaining(states[ts[i].fn]) + Total(states, ts, i + 1)
  }

  lemma {:induction false} TotalFrame(states: Bodies, ts: seq<Task<int>>, i: nat, h: int, d: DemoState)
    requires i <= |ts| && HandlesIn(states, ts) && h in states && NotInvokedFrom(ts, i, h)
    ensures HandlesIn(states[h := d], ts)
    ensures Total(states[h := d], ts, i) == Total(states, ts, i)
    decreases |ts| - i
  {
    if i < |ts| {
      TotalFrame(states, ts, i + 1, h, d);
    }
  }

  /** A pass over demo bodies: it leaves every body that no task from position i on carries as it
      was (`DemoPassUnreached` covers the tasks after the first failing one); it succeeds exactly
      when every body needs at most one more call, and then every body has converged; a failing pass
      returns a retryable error and strictly lowers the calls still needed, and no pass raises them. */
  lemma {:induction false} DemoPass(ts: seq<Task<int>>, i: nat, states: Bodies)
    requires i <= |ts| && HandlesIn(states, ts) && DistinctHandles(ts)
    ensures var r := RunFrom(ts, i, Never, DemoRun, states);
      && r.state.Keys == states.Keys
      && HandlesIn(r.state, ts)
      && (forall h | h in states && NotInvokedFrom(ts, i, h) :: r.state[h] == states[h])
      && (r.err.None? <==> forall j | i <= j < |ts| :: Remaining(states[ts[j].fn]) <= 1)
      && (r.err.None? ==> forall j | i <= j < |ts| :: r.state[ts[j].fn].success)
      && (r.err.Some? ==> r.err.value.Failed? && !IsFatal(r.err.value))
      && Total(r.state, ts, i) <= Total(states, ts, i)
      && (r.err.Some? ==> Total(r.state, ts, i) < Total(states, ts, i))
    decreases |ts| - i
  {
    if i < |ts| {
      var t := ts[i];
      var d := states[t.fn];
      var states' := states[t.fn := DoStep(d, t).0];
      var e := DoStep(d, t).1;
      DemoStep(ts, i, states);
      assert NotInvokedFrom(ts, i + 1, t.fn);
      TotalFrame(states, ts, i + 1, t.fn, DoStep(d, t).0);
      if e.None? {
        DemoPass(ts, i + 1, states');
        var rest := RunFrom(ts, i + 1, Never, DemoRun, states');
        assert rest.state[t.fn] == states'[t.fn];
        forall j | i < j < |ts| ensures states'[ts[j].fn] == states[ts[j].fn] {
          assert ts[j].fn != t.fn;
        }
      }
    }
  }

  /** The position of the first task, from position i on, whose next call fails; |ts| if none. */
  ghost function FirstBlocked(states: Bodies, ts: seq<Task<int>>, i: nat): (k: nat)
    requires i <= |ts| && HandlesIn(states, ts)
    ensures i <= k <= |ts|
    ensures forall j | i <= j < k :: Remaining(states[ts[j].fn]) <= 1
    ensures k < |ts| ==> Remaining(states[ts[k].fn]) > 1
    decreases |ts| - i
  {
    if i == |ts| || Remaining(states[ts[i].fn]) > 1 then i else FirstBlocked(states, ts, i + 1)
  }

  lemma {:induction false} FirstBlockedFrame(states: Bodies, ts: seq<Task<int>>, i: nat, h: int, d: DemoState)
    requires i <= |ts| && HandlesIn(states, ts) && h in states && NotInvokedFrom(ts, i, h)
    ensures HandlesIn(states[h := d], ts)
    ensures FirstBlocked(states[h := d], ts, i) == FirstBlocked(states, ts, i)
    decreases |ts| - i
  {
    if i < |ts| {
      FirstBlockedFrame(states, ts, i + 1, h, d);
    }
  }

  /** One step of a pass over demo bodies. */
  lemma DemoStep(ts: seq<Task<int>>, i: nat, states: Bodies)
    requires i < |ts| && ts[i].fn in states
    ensures var d := DoStep(states[ts[i].fn], ts[i]);
      var r := RunFrom(ts, i, Never, DemoRun, states);
      var rest := RunFrom(ts, i + 1, Never, DemoRun, states[ts[i].fn := d.0]);
      && (d.1.Some? ==> r == PassResult(d.1, states[ts[i].fn := d.0], [(ts[i], d.1)]))
      && (d.1.None? ==> r == PassResult(rest.err, rest.state, [(ts[i], d.1)] + rest.trace))
  {
  }

  /** The pass r from position i invoked the tasks up to and including position k and failed there,
      or, when k is |ts|, invoked them all and succeeded. */
  ghost predicate InvokesUpTo(ts: seq<Task<int>>, i: nat, k: nat, r: PassResult<Bodies, int>)
    requires i <= k <= |ts|
  {
    && (r.err.Some? <==> k < |ts|)
    && TraceTasks(r.trace) == if k < |ts| then ts[i..k + 1] else ts[i..]
  }

  /** A pass invokes the tasks in order up to and including the first one whose call fails, and
      no task after it; it fails exactly when there is such a task; a pass that succeeds invokes
      them all. */
  lemma {:induction false} DemoPassTrace(ts: seq<Task<int>>, i: nat, states: Bodies)
    requires i <= |ts| && HandlesIn(states, ts) && DistinctHandles(ts)
    ensures InvokesUpTo(ts, i, FirstBlocked(states, ts, i), RunFrom(ts, i, Never, DemoRun, states))
    decreases |ts| - i
  {
    if i < |ts| {
      if Remaining(states[ts[i].fn]) > 1 {
        BlockedStep(ts, i, states);
      } else {
        var states' := states[ts[i].fn := DoStep(states[ts[i].fn], ts[i]).0];
        PassedStep(ts, i, states);
        DemoPassTrace(ts, i + 1, states');
        TraceAfterStep(ts, i, RunFrom(ts, i, Never, DemoRun, states), RunFrom(ts, i + 1, Never, DemoRun, states'),
                       FirstBlocked(states, ts, i));
      }
    }
  }

  /** A task whose call fails is the first blocked one, and the pass ends with it. */
  lemma BlockedStep(ts: seq<Task<int>>, i: nat, states: Bodies)
    requires i < |ts| && HandlesIn(states, ts)
    requires Remaining(states[ts[i].fn]) > 1
    ensures FirstBlocked(states, ts, i) == i
    ensures InvokesUpTo(ts, i, i, RunFrom(ts, i, Never, DemoRun, states))
    ensures RunFrom(ts, i, Never, DemoRun, states).state == states[ts[i].fn := DoStep(states[ts[i].fn], ts[i]).0]
  {
    var r := RunFrom(ts, i, Never, DemoRun, states);
    assert r.err.Some? && r.trace == [(ts[i], DoStep(states[ts[i].fn], ts[i]).1)]
        && r.state == states[ts[i].fn := DoStep(states[ts[i].fn], ts[i]).0] by {
      DemoStep(ts, i, states);
    }
    assert TraceTasks(r.trace) == [ts[i]] == ts[i..i + 1];
  }

  /** A task whose call returns nil: the rest of the pass runs on the stepped state, and the first
      blocked position is unchanged. */
  lemma PassedStep(ts: seq<Task<int>>, i: nat, states: Bodies)
    requires i < |ts| && HandlesIn(states, ts) && DistinctHandles(ts)
    requires Remaining(states[ts[i].fn]) <= 1
    ensures var states' := states[ts[i].fn := DoStep(states[ts[i].fn], ts[i]).0];
      && HandlesIn(states', ts)
      && FirstBlocked(states', ts, i + 1) == FirstBlocked(states, ts, i)
      && RunFrom(ts, i, Never, DemoRun, states).err == RunFrom(ts, i + 1, Never, DemoRun, states').err
      && RunFrom(ts, i, Never, DemoRun, states).trace == [(ts[i], None)] + RunFrom(ts, i + 1, Never, DemoRun, states').trace
      && RunFrom(ts, i, Never, DemoRun, states).state == RunFrom(ts, i + 1, Never, DemoRun, states').state
  {
    var t := ts[i];
    var d := DoStep(states[t.fn], t);
    assert d.1.None?;
    DemoStep(ts, i, states);
    assert NotInvokedFrom(ts, i + 1, t.fn);
    FirstBlockedFrame(states, ts, i + 1, t.fn, d.0);
  }

  lemma TraceAfterStep(ts: seq<Task<int>>, i: nat, r: PassResult<Bodies, int>, rest: PassResult<Bodies, int>, k: nat)
    requires i < |ts| && i + 1 <= k <= |ts|
    requires r.err == rest.err && r.trace == [(ts[i], None)] + rest.trace
    requires InvokesUpTo(ts, i + 1, k, rest)
    ensures InvokesUpTo(ts, i, k, r)
  {
    assert TraceTasks(r.trace) == [ts[i]] + TraceTasks(rest.trace);
    if k < |ts| {
      assert ts[i..k + 1] == [ts[i]] + ts[i + 1..k + 1];
    } else {
      assert ts[i..] == [ts[i]] + ts[i + 1..];
    }
  }

  /** The bodies of the tasks after the first failing one are not reached: the pass leaves them as
      they were. */
  lemma {:induction false} DemoPassUnreached(ts: seq<Task<int>>, i: nat, states: Bodies)
    requires i <= |ts| && HandlesIn(states, ts) && DistinctHandles(ts)
    ensures forall j | FirstBlocked(states, ts, i) < j < |ts| ::
              && ts[j].fn in RunFrom(ts, i, Never, DemoRun, states).state
              && RunFrom(ts, i, Never, DemoRun, states).state[ts[j].fn] == states[ts[j].fn]
    decreases |ts| - i
  {
    if i < |ts| {
      var states' := states[ts[i].fn := DoStep(states[ts[i].fn], ts[i]).0];
      if Remaining(states[ts[i].fn]) > 1 {
        BlockedStep(ts, i, states);
      } else {
        PassedStep(ts, i, states);
        DemoPassUnreached(ts, i + 1, states');
      }
      forall j | i < j < |ts| ensures states'[ts[j].fn] == states[ts[j].fn] {
        assert ts[i].fn != ts[j].fn;
      }
    }
  }

  /** How many passes the retry loop makes until one succeeds. */
  ghost function PassCount(ts: seq<Task<int>>, states: Bodies): (n: nat)
    requires HandlesIn(states, ts) && DistinctHandles(ts)
    ensures n >= 1
    decreases Total(states, ts, 0)
  {
    DemoPass(ts, 0, states);
    var r := RunFrom(ts, 0, Never, DemoRun, states);
    if r.err.None? then 1 else 1 + PassCount(ts, r.state)
  }

  /** How many more calls of `do` fail before one returns nil. */
  function Failures(d: DemoState): nat {
    if Remaining(d) > 1 then Remaining(d) - 1 else 0
  }

  /** The failing calls the bodies of the tasks from position i on still have to make. */
  ghost function FailuresLeft(states: Bodies, ts: seq<Task<int>>, i: nat): nat
    requires i <= |ts| && HandlesIn(states, ts)
    decreases |ts| - i
  {
    if i == |ts| then 0 else Failures(states[ts[i].fn]) + FailuresLeft(states, ts, i + 1)
  }

  lemma {:induction false} FailuresFrame(states: Bodies, ts: seq<Task<int>>, i: nat, h: int, d: DemoState)
    requires i <= |ts| && HandlesIn(states, ts) && h in states && NotInvokedFrom(ts, i, h)
    ensures HandlesIn(states[h := d], ts)
    ensures FailuresLeft(states[h := d], ts, i) == FailuresLeft(states, ts, i)
    decreases |ts| - i
  {
    if i < |ts| {
      FailuresFrame(states, ts, i + 1, h, d);
    }
  }

  /** A pass succeeds exactly when no failing call is left, and a pass that fails removes exactly
      one of them. */
  lemma {:induction false} DemoPassFailures(ts: seq<Task<int>>, i: nat, states: Bodies)
    requires i <= |ts| && HandlesIn(states, ts) && DistinctHandles(ts)
    ensures var r := RunFrom(ts, i, Never, DemoRun, states);
      && HandlesIn(r.state, ts)
      && (r.err.None? <==> FailuresLeft(states, ts, i) == 0)
      && (r.err.Some? ==> FailuresLeft(r.state, ts, i) + 1 == FailuresLeft(states, ts, i))
    decreases |ts| - i, 1
  {
    if i < |ts| {
      if Remaining(states[ts[i].fn]) > 1 {
        var t := ts[i];
        var d := DoStep(states[t.fn], t);
        assert NotInvokedFrom(ts, i + 1, t.fn);
        FailuresFrame(states, ts, i + 1, t.fn, d.0);
        BlockedStep(ts, i, states);
      } else {
        PassedFailures(ts, i, states);
      }
    }
  }

  /** `DemoPassFailures` past a task whose call returned nil. */
  lemma {:induction false} PassedFailures(ts: seq<Task<int>>, i: nat, states: Bodies)
    requires i < |ts| && HandlesIn(states, ts) && DistinctHandles(ts)
    requires Remaining(states[ts[i].fn]) <= 1
    ensures var r := RunFrom(ts, i, Never, DemoRun, states);
      && HandlesIn(r.state, ts)
      && (r.err.None? <==> FailuresLeft(states, ts, i) == 0)
      && (r.err.Some? ==> FailuresLeft(r.state, ts, i) + 1 == FailuresLeft(states, ts, i))
    decreases |ts| - i, 0
  {
    var t := ts[i];
    var d := DoStep(states[t.fn], t);
    var states' := states[t.fn := d.0];
    var rest := RunFrom(ts, i + 1, Never, DemoRun, states');
    assert NotInvokedFrom(ts, i + 1, t.fn);
    FailuresFrame(states, ts, i + 1, t.fn, d.0);
    PassedStep(ts, i, states);
    DemoPassFailures(ts, i + 1, states');
    assert rest.state[t.fn] == d.0 by {
      DemoPass(ts, i + 1, states');
    }
  }

  /** The retry loop makes one pass more than there are failing calls: every failing pass removes one. */
  lemma {:induction false} PassesAreFailuresPlusOne(ts: seq<Task<int>>, states: Bodies)
    requires HandlesIn(states, ts) && DistinctHandles(ts)
    ensures PassCount(ts, states) == 1 + FailuresLeft(states, ts, 0)
    decreases Total(states, ts, 0)
  {
    DemoPass(ts, 0, states);
    DemoPassFailures(ts, 0, states);
    var r := RunFrom(ts, 0, Never, DemoRun, states);
    if r.err.Some? {
      PassesAreFailuresPlusOne(ts, r.state);
    }
  }

  // ----- the retry loop of main -----

  /** Every registered task has a body, and no two share one. */
  ghost predicate BodiesFor(tasks: map<int, Task<int>>, states: Bodies) {
    && (forall id | id in tasks :: tasks[id].fn in states)
    && (forall a, b | a in tasks && b in tasks && a != b :: tasks[a].fn != tasks[b].fn)
  }

  /** The planned tasks carry distinct handles with bodies, and every registered task is planned. */
  lemma PlanBodies(tasks: map<int, Task<int>>, nodes: set<int>, edges: set<Edge>, states: Bodies)
    requires nodes == tasks.Keys && KeyedById(tasks) && WellFormed(nodes, edges) && BodiesFor(tasks, states)
    requires Plan(tasks, nodes, edges).Ok?
    ensures HandlesIn(states, Plan(tasks, nodes, edges).value)
    ensures DistinctHandles(Plan(tasks, nodes, edges).value)
    ensures forall id | id in tasks :: exists j | 0 <= j < |Plan(tasks, nodes, edges).value| ::
              Plan(tasks, nodes, edges).value[j] == tasks[id]
  {
    PlanFacts(tasks, nodes, edges);
    var ts := Plan(tasks, nodes, edges).value;
    var ids := Ids(ts);
    forall j | 0 <= j < |ts| ensures ts[j].id in tasks && ts[j] == tasks[ts[j].id] {
      assert ids[j] in ids;
    }
    forall j, k | 0 <= j < k < |ts| ensures ts[j].fn != ts[k].fn {
      assert ids[j] != ids[k];
    }
    forall id | id in tasks ensures exists j | 0 <= j < |ts| :: ts[j] == tasks[id] {
      assert id in ids;
      var j :| 0 <= j < |ids| && ids[j] == id;
      assert ts[j] == tasks[id];
    }
  }

  /** The loop of `main`: reconcile, and while the pass fails, stop on a fatal error and otherwise
      retry. Over demo bodies it stops with a fatal error exactly when the graph has no order, after
      a single pass; otherwise it ends, after `PassCount` passes, with every task converged. */
  method RetryLoop(w: Workflow<int>, states0: Bodies) returns (err: Option<Error>, states: Bodies, passes: nat)
    requires w.Valid() && BodiesFor(w.tasks, states0)
    ensures err.Some? <==> !Orderable(w.nodes, w.edges)
    ensures err.Some? ==> IsFatal(err.value) && passes == 1 && states == states0
    ensures states.Keys == states0.Keys
    ensures err.None? ==>
              && Plan(w.tasks, w.nodes, w.edges).Ok?
              && HandlesIn(states0, Plan(w.tasks, w.nodes, w.edges).value)
              && DistinctHandles(Plan(w.tasks, w.nodes, w.edges).value)
              && passes == PassCount(Plan(w.tasks, w.nodes, w.edges).value, states0)
    ensures err.None? ==> forall id | id in w.tasks :: states[w.tasks[id].fn].success
  {
    ghost var plan := Plan(w.tasks, w.nodes, w.edges);
    ghost var ts: seq<Task<int>> := if plan.Ok? then plan.value else [];
    if plan.Ok? {
      PlanBodies(w.tasks, w.nodes, w.edges, states0);
      DemoPass(ts, 0, states0);
    }
    ghost var trace;
    err, states, trace := w.Reconcile(Never, DemoRun, states0);
    passes := 1;
    while err.Some?
      invariant plan.Err? ==> err.Some? && IsFatal(err.value) && passes == 1 && states == states0
      invariant plan.Ok? ==> states.Keys == states0.Keys && HandlesIn(states, ts) && DistinctHandles(ts)
      invariant plan.Ok? && err.Some? ==> !IsFatal(err.value) && passes + PassCount(ts, states) == PassCount(ts, states0)
      invariant plan.Ok? && err.None? ==> passes == PassCount(ts, states0)
      invariant plan.Ok? && err.None? ==> forall j | 0 <= j < |ts| :: states[ts[j].fn].success
      decreases if plan.Ok? then Total(states, ts, 0) + (if err.Some? then 1 else 0) else 0
    {
      if IsFatal(err.value) {
        return;
      }
      DemoPass(ts, 0, states);
      err, states, trace := w.Reconcile(Never, DemoRun, states);
      passes := passes + 1;
    }
    if plan.Ok? {
      forall id | id in w.tasks ensures states[w.tasks[id].fn].success {
        var j :| 0 <= j < |ts| && ts[j] == w.tasks[id];
      }
    }
  }

  // ----- the demonstration -----

  /** `newTask`: a task whose body is a fresh `demoTask` with `simulatedTries` retries. The body is
      addressed by the task id, which the demonstration keeps unique. */
  method NewDemoTask(id: int, desc: string, simulatedTries: GoInt) returns (t: Task<int>, body: DemoTask)
    ensures t == NewTask(id, desc, id)
    ensures fresh(body) && body.State() == DemoState(simulatedTries, false)
  {
    body := new DemoTask(simulatedTries);
    t := NewTask(id, desc, id);
  }

  const DemoNodes: set<int> := {1, 2, 3, 4, 5}

  /** The edges the six `AddDependency` calls of `main` create: 1 depends on 2, 3, 4 and 5, and 3
      and 4 depend on 5. */
  const DemoEdges: set<Edge> := {(2, 1), (3, 1), (4, 1), (5, 1), (5, 3), (5, 4)}

  /** The demonstration graph sorts to 2, 5, 3, 4, 1. */
  lemma DemoOrder()
    ensures SortStabilized(DemoNodes, DemoEdges) == Ok([2, 5, 3, 4, 1])
  {
    DemoWellFormed();
    DemoSmallestReadyFirst();
    SortStabilizedCharacterised(DemoNodes, DemoEdges, [2, 5, 3, 4, 1]);
  }

  lemma DemoWellFormed()
    ensures WellFormed(DemoNodes, DemoEdges)
  {
  }

  /** At each step of 2, 5, 3, 4, 1 the node taken is the smallest ready one. */
  lemma DemoSmallestReadyFirst()
    ensures SmallestReadyFirst(DemoNodes, DemoEdges, [2, 5, 3, 4, 1])
  {
    var s := [2, 5, 3, 4, 1];
    assert s[..0] == [] && s[..1] == [2] && s[..2] == [2, 5] && s[..3] == [2, 5, 3] && s[..4] == [2, 5, 3, 4];
    DemoReady0();
    DemoReady1();
    DemoReady2();
    DemoReady3();
    DemoReady4();
  }

  lemma DemoReady0()
    ensures Ready(DemoNodes, DemoEdges, []) == {2, 5}
  {
  }

  lemma DemoReady1()
    ensures Ready(DemoNodes, DemoEdges, [2]) == {5}
  {
  }

  lemma DemoReady2()
    ensures Ready(DemoNodes, DemoEdges, [2, 5]) == {3, 4}
  {
  }

  lemma DemoReady3()
    ensures Ready(DemoNodes, DemoEdges, [2, 5, 3]) == {4}
  {
  }

  lemma DemoReady4()
    ensures Ready(DemoNodes, DemoEdges, [2, 5, 3, 4]) == {1}
  {
  }

  /** Had 5 also depended on 1, the graph would have a cycle and no order. */
  lemma DemoCycle()
    ensures SortStabilized(DemoNodes, DemoEdges + {(1, 5)}) == Err({1, 3, 4, 5})
    ensures !Orderable(DemoNodes, DemoEdges + {(1, 5)})
  {
    DemoCycleStuck();
    var c := [5, 1];
    assert IsCycle(DemoEdges + {(1, 5)}, c);
    CycleUnorderable(DemoNodes, DemoEdges + {(1, 5)}, c);
  }

  /** With the edge 1 -> 5 only 2 can be placed; 1, 3, 4 and 5 wait on each other. */
  lemma DemoCycleStuck()
    ensures SortStabilized(DemoNodes, DemoEdges + {(1, 5)}) == Err({1, 3, 4, 5})
  {
    var e := DemoEdges + {(1, 5)};
    assert Ready(DemoNodes, e, []) == {2};
    assert Min({2}) == 2;
    assert [] + [2] == [2];
    assert Unplaced(DemoNodes, [2]) == {1, 3, 4, 5};
    assert Ready(DemoNodes, e, [2]) == {};
  }

  const T1: Task<int> := Task(1, "create V1", 1)
  const T2: Task<int> := Task(2, "create V2", 2)
  const T3: Task<int> := Task(3, "create V3", 3)
  const T4: Task<int> := Task(4, "create V4", 4)
  const T5: Task<int> := Task(5, "create V5", 5)

  /** The registry of the demonstration. */
  const DemoTasks: map<int, Task<int>> := map[1 := T1, 2 := T2, 3 := T3, 4 := T4, 5 := T5]

  /** The planned order of the demonstration. */
  const DemoPlan: seq<Task<int>> := [T2, T5, T3, T4, T1]

  /** The line `main` logs before reconciling. */
  const DemoView: string :=
    "task 2 (create V2)" + " >> " + "task 5 (create V5)" + " >> " + "task 3 (create V3)" + " >> " +
    "task 4 (create V4)" + " >> " + "task 1 (create V1)"

  lemma DemoTaskStrings()
    ensures T1.String() == "task 1 (create V1)" && T2.String() == "task 2 (create V2)"
    ensures T3.String() == "task 3 (create V3)" && T4.String() == "task 4 (create V4)"
    ensures T5.String() == "task 5 (create V5)"
  {
    RenderT1();
    RenderT2();
    RenderT3();
    RenderT4();
    RenderT5();
  }

  lemma RenderT1()
    ensures T1.String() == "task 1 (create V1)"
  {
    OneDigitTask(T1, '1');
  }

  lemma RenderT2()
    ensures T2.String() == "task 2 (create V2)"
  {
    OneDigitTask(T2, '2');
  }

  lemma RenderT3()
    ensures T3.String() == "task 3 (create V3)"
  {
    OneDigitTask(T3, '3');
  }

  lemma RenderT4()
    ensures T4.String() == "task 4 (create V4)"
  {
    OneDigitTask(T4, '4');
  }

  lemma RenderT5()
    ensures T5.String() == "task 5 (create V5)"
  {
    OneDigitTask(T5, '5');
  }

  lemma OneDigitTask(t: Task<int>, c: char)
    requires 0 <= t.id < 10 && DigitChar(t.id) == c
    ensures t.String() == "task " + [c] + " (" + t.desc + ")"
  {
    assert FormatInt(t.id) == [c];
  }

  lemma JoinFive(a: string, b: string, c: string, d: string, e: string, sep: string)
    ensures Join([a, b, c, d, e], sep) == a + sep + b + sep + c + sep + d + sep + e
  {
    assert [a, b][..1] == [a];
    assert Join([a, b], sep) == a + sep + b;
    assert [a, b, c][..2] == [a, b];
    assert Join([a, b, c], sep) == a + sep + b + sep + c;
    assert [a, b, c, d][..3] == [a, b, c];
    assert Join([a, b, c, d], sep) == a + sep + b + sep + c + sep + d;
    assert [a, b, c, d, e][..4] == [a, b, c, d];
  }

  /** The string `Visualize` builds for the demonstration. */
  lemma DemoRendering()
    ensures Join(Strings(DemoPlan), " >> ") == DemoView
  {
    DemoTaskStrings();
    assert DemoPlan[0] == T2 && DemoPlan[1] == T5 && DemoPlan[2] == T3 && DemoPlan[3] == T4 && DemoPlan[4] == T1;
    assert Strings(DemoPlan) == ["task 2 (create V2)", "task 5 (create V5)", "task 3 (create V3)", "task 4 (create V4)", "task 1 (create V1)"];
    JoinFive("task 2 (create V2)", "task 5 (create V5)", "task 3 (create V3)", "task 4 (create V4)", "task 1 (create V1)", " >> ");
  }

  /** The bodies as `main` creates them: V1 needs 3 tries, V4 and V5 need 2, V2 and V3 succeed at once. */
  const Bodies0: Bodies := map[1 := DemoState(3, false), 2 := DemoState(1, false), 3 := DemoState(1, false),
                               4 := DemoState(2, false), 5 := DemoState(2, false)]

  /** `AddDependency(task, dep)` between two nodes succeeds and adds the one edge dep -> task. */
  lemma SingleDependency(nodes: set<int>, task: Task<int>, dep: Task<int>)
    requires task.id in nodes && dep.id in nodes
    ensures CheckDependencies(nodes, task, [dep]) == None
    ensures DependencyEdges(task, [dep]) == {(dep.id, task.id)}
  {
    CheckDependenciesFacts(nodes, task, [dep]);
  }

  /** The plan of the demonstration workflow. */
  lemma DemoPlanned(tasks: map<int, Task<int>>)
    requires tasks == DemoTasks
    ensures Plan(tasks, DemoNodes, DemoEdges) == Ok(DemoPlan)
    ensures Orderable(DemoNodes, DemoEdges)
  {
    DemoOrder();
    SortStabilizedOk(DemoNodes, DemoEdges);
    DemoLookup(tasks);
  }

  lemma DemoLookup(tasks: map<int, Task<int>>)
    requires tasks == DemoTasks
    ensures forall i | 0 <= i < 5 :: [2, 5, 3, 4, 1][i] in tasks
    ensures Lookup(tasks, [2, 5, 3, 4, 1]) == DemoPlan
  {
    var r := Lookup(tasks, [2, 5, 3, 4, 1]);
    assert r[0] == T2 && r[1] == T5 && r[2] == T3 && r[3] == T4 && r[4] == T1;
  }

  /** Registering the five tasks into the empty registry succeeds and yields `DemoTasks`. */
  lemma DemoRegistration(ts: seq<Task<int>>)
    requires ts == [T1, T2, T3, T4, T5]
    ensures AddTasksResult(map[], ts) == (DemoTasks, None)
  {
    var m1 := map[1 := T1];
    var m2 := m1[2 := T2];
    var m3 := m2[3 := T3];
    var m4 := m3[4 := T4];
    assert ts[1..] == [T2, T3, T4, T5] && ts[1..][1..] == [T3, T4, T5];
    assert ts[1..][1..][1..] == [T4, T5] && ts[1..][1..][1..][1..] == [T5];
    assert AddTasksResult(map[], ts) == AddTasksResult(m1, [T2, T3, T4, T5]);
    assert AddTasksResult(m1, [T2, T3, T4, T5]) == AddTasksResult(m2, [T3, T4, T5]);
    assert AddTasksResult(m2, [T3, T4, T5]) == AddTasksResult(m3, [T4, T5]);
    assert AddTasksResult(m3, [T4, T5]) == AddTasksResult(m4, [T5]);
    assert AddTasksResult(m4, [T5]) == (m4[5 := T5], None);
    assert m4[5 := T5] == DemoTasks;
  }

  /** The start of `main`: create the five tasks with their bodies and register them. The
      `doOrDie` check after `AddTasks` does not fire. */
  method RegisterDemo() returns (w: Workflow<int>, states0: Bodies)
    ensures fresh(w) && w.Valid()
    ensures w.tasks == DemoTasks
    ensures w.nodes == DemoNodes && w.edges == {}
    ensures states0 == Bodies0
  {
    w := new Workflow<int>();
    var t1, b1 := NewDemoTask(1, "create V1", 3);
    var t2, b2 := NewDemoTask(2, "create V2", 1);
    var t3, b3 := NewDemoTask(3, "create V3", 1);
    var t4, b4 := NewDemoTask(4, "create V4", 2);
    var t5, b5 := NewDemoTask(5, "create V5", 2);
    var ts := [t1, t2, t3, t4, t5];
    DemoRegistration(ts);
    var e := w.AddTasks(ts);
    assert e == None;
    states0 := map[1 := b1.State(), 2 := b2.State(), 3 := b3.State(), 4 := b4.State(), 5 := b5.State()];
  }

  /** The wiring in `main`: 1 depends on 2, 3, 4 and 5, and 3 and 4 depend on 5. None of the
      `doOrDie` checks fires. */
  method WireDemo(w: Workflow<int>)
    requires w.Valid() && w.nodes == DemoNodes && w.edges == {}
    requires w.tasks == DemoTasks
    modifies w
    ensures w.Valid() && w.tasks == old(w.tasks) && w.nodes == DemoNodes && w.edges == DemoEdges
  {
    DependOrDie(w, T1, T2);
    DependOrDie(w, T1, T3);
    DependOrDie(w, T1, T4);
    DependOrDie(w, T1, T5);
    DependOrDie(w, T3, T5);
    DependOrDie(w, T4, T5);
  }

  /** `doOrDie(w.AddDependency(task, dep))` between two different registered tasks: the check does
      not fire, and the one edge dep -> task is added. */
  method DependOrDie(w: Workflow<int>, task: Task<int>, dep: Task<int>)
    requires w.Valid() && task.id in w.nodes && dep.id in w.nodes && task.id != dep.id
    modifies w
    ensures w.Valid() && w.tasks == old(w.tasks) && w.nodes == old(w.nodes)
    ensures w.edges == old(w.edges) + {(dep.id, task.id)}
  {
    SingleDependency(w.nodes, task, dep);
    var e := w.AddDependency(task, [dep]);
    assert e == None;
  }

  lemma DemoPlanLayout()
    ensures |DemoPlan| == 5
    ensures DemoPlan[0] == T2 && DemoPlan[1] == T5 && DemoPlan[2] == T3 && DemoPlan[3] == T4 && DemoPlan[4] == T1
    ensures T1.fn == 1 && T2.fn == 2 && T3.fn == 3 && T4.fn == 4 && T5.fn == 5
  {
  }

  /** The demonstration converges on the fifth pass. */
  lemma DemoPassCount()
    ensures HandlesIn(Bodies0, DemoPlan) && DistinctHandles(DemoPlan)
    ensures PassCount(DemoPlan, Bodies0) == 5
  {
    DemoPlanLayout();
    assert Failures(Bodies0[1]) == 2 && Failures(Bodies0[4]) == 1 && Failures(Bodies0[3]) == 0;
    assert Failures(Bodies0[5]) == 1 && Failures(Bodies0[2]) == 0;
    assert FailuresLeft(Bodies0, DemoPlan, 4) == 2;
    assert FailuresLeft(Bodies0, DemoPlan, 3) == 3;
    assert FailuresLeft(Bodies0, DemoPlan, 2) == 3;
    assert FailuresLeft(Bodies0, DemoPlan, 1) == 4;
    assert FailuresLeft(Bodies0, DemoPlan, 0) == 4;
    PassesAreFailuresPlusOne(DemoPlan, Bodies0);
  }

  /** Every demonstration task has its own body. */
  lemma DemoBodies(tasks: map<int, Task<int>>)
    requires tasks == DemoTasks
    ensures BodiesFor(tasks, Bodies0)
    ensures forall id | id in tasks :: tasks[id].fn == id
  {
    forall id | id in tasks ensures tasks[id].fn == id && id in Bodies0 {
      assert id in DemoNodes;
    }
  }

  /** The demonstration: build, render, and reconcile until a pass succeeds. The rendering is
      2 >> 5 >> 3 >> 4 >> 1, and the loop ends without a fatal error, with every body converged. */
  method RunMain() returns (view: Result<string, Error>, err: Option<Error>, states: Bodies, passes: nat)
    ensures view == Ok(DemoView)
    ensures err == None
    ensures passes == 5
    ensures forall h | h in states :: states[h].success
  {
    var w, states0 := RegisterDemo();
    WireDemo(w);
    DemoPlanned(w.tasks);
    DemoRendering();
    view := w.Visualize();
    DemoBodies(w.tasks);
    DemoPassCount();
    err, states, passes := RetryLoop(w, states0);
    forall h | h in states ensures states[h].success {
      assert h in Bodies0;
      assert h in w.tasks;
    }
  }
}
