/** The workflow engine of pkg/flow/flow.go: a registry of tasks keyed by id, a dependency graph
    over their ids, the execution order derived from it, one reconciliation pass, and the error
    values and strings it produces. */
module Flow {
  import opened Wrappers
  import opened Decimal
  import opened Topo

  // ----- errors -----

  /** The errors the engine returns or passes through. Go's `error` interface becomes one value
      type; `errors.As(err, &fatalErr)` becomes a test of the `Fatal` variant. */
  datatype Error =
    | AlreadyExists
    | MissingTaskNode(taskId: int)
    | MissingDependencyNode(taskId: int, depId: int)
    | Unorderable(stuck: set<int>)
    | Fatal(fatal: FatalError)
    | Failed(message: string)
  {
    /** The string Go's `Error()` returns for this error. */
    function Message(): (m: string)
      ensures Fatal? ==> m == fatal.Message()
      ensures Failed? ==> m == message
    {
      match this
      case AlreadyExists => "taskID already exists"
      case MissingTaskNode(t) =>
        "error adding task dependency for task id " + FormatInt(t) + ": node with id " + FormatInt(t) + " does not exist"
      case MissingDependencyNode(t, d) =>
        "error adding task dependency from id " + FormatInt(t) + " to id " + FormatInt(d) + ": node with id " + FormatInt(d) + " does not exist"
      case Unorderable(_) => "topo: no topological ordering"
      case Fatal(f) => f.Message()
      case Failed(msg) => msg
    }
  }

  /** An error that must not be retried; it wraps a cause that may be nil. */
  datatype FatalError = FatalError(err: Option<Error>) {
    /** `FatalError.Error()`. */
    function Message(): (m: string)
      ensures m == "unknown fatal error" <==> err.None?
      ensures err.Some? ==> |m| >= 13 && m[..13] == "fatal error: " && m[13..] == err.value.Message()
    {
      if err.None? then "unknown fatal error"
      else
        var m := "fatal error: " + err.value.Message();
        assert m[0] == 'f';
        m
    }
  }

  function NewFatalError(err: Option<Error>): (f: FatalError)
    ensures f.err == err
  {
    FatalError(err)
  }

  /** `errors.As(err, &fatalErr)`: only a `FatalError` value is fatal; no error here wraps another
      one through `Unwrap`. */
  predicate IsFatal(e: Error) {
    e.Fatal?
  }

  // ----- tasks -----

  /** A unit of work. Its body `fn` is an opaque handle: what invoking it does is supplied to
      `Reconcile` by the caller. */
  datatype Task<F> = Task(id: int, desc: string, fn: F) {
    /** `task <id> (<desc>)`. */
    function String(): (s: string)
      ensures |s| == 8 + |FormatInt(id)| + |desc|
      ensures s[..5] == "task " && s[|s| - 1] == ')'
    {
      "task " + FormatInt(id) + " (" + desc + ")"
    }
  }

  function NewTask<F>(id: int, desc: string, fn: F): (t: Task<F>)
    ensures t.id == id && t.desc == desc && t.fn == fn
  {
    Task(id, desc, fn)
  }

  /** The rendering loses nothing: a task's string determines its id and description. */
  lemma TaskStringInjective<F>(a: Task<F>, b: Task<F>)
    requires a.String() == b.String()
    ensures a.id == b.id && a.desc == b.desc
  {
    FormatIntChars(a.id);
    FormatIntChars(b.id);
    SplitRendering(FormatInt(a.id), FormatInt(b.id), a.desc, b.desc);
    FormatIntInjective(a.id, b.id);
  }

  /** `task <p> (<x>)` splits back into p and x when p has no space. */
  lemma SplitRendering(p: string, q: string, x: string, y: string)
    requires forall i | 0 <= i < |p| :: p[i] == '-' || IsDigit(p[i])
    requires forall i | 0 <= i < |q| :: q[i] == '-' || IsDigit(q[i])
    requires "task " + p + " (" + x + ")" == "task " + q + " (" + y + ")"
    ensures p == q && x == y
  {
    var u := "task " + p + " (" + x + ")";
    assert u[5..] == p + " " + ("(" + x + ")");
    assert u[5..] == q + " " + ("(" + y + ")");
    SpaceAfterNumber(p, "(" + x + ")");
    SpaceAfterNumber(q, "(" + y + ")");
    assert p == u[5..5 + |p|] == q;
    assert x == u[7 + |p|..|u| - 1] == y;
  }

  /** The position of the first space in u, or |u|. */
  function IndexOfSpace(u: string): nat {
    if u == [] then 0 else if u[0] == ' ' then 0 else 1 + IndexOfSpace(u[1..])
  }

  /** A formatted number ends at the first space that follows it. */
  lemma {:induction false} SpaceAfterNumber(p: string, rest: string)
    requires forall i | 0 <= i < |p| :: p[i] == '-' || IsDigit(p[i])
    ensures IndexOfSpace(p + " " + rest) == |p|
  {
    if p != [] {
      assert (p + " " + rest)[1..] == p[1..] + " " + rest;
      SpaceAfterNumber(p[1..], rest);
    }
  }

  function Ids<F>(ts: seq<Task<F>>): (r: seq<int>)
    ensures |r| == |ts| && forall i | 0 <= i < |ts| :: r[i] == ts[i].id
  {
    seq(|ts|, i requires 0 <= i < |ts| => ts[i].id)
  }

  function Strings<F>(ts: seq<Task<F>>): (r: seq<string>)
    ensures |r| == |ts| && forall i | 0 <= i < |ts| :: r[i] == ts[i].String()
  {
    seq(|ts|, i requires 0 <= i < |ts| => ts[i].String())
  }

  /** Rendering one more task: a separator unless it is the first, then its string. */
  lemma JoinNext<F>(ts: seq<Task<F>>, i: nat, sep: string)
    requires i < |ts|
    ensures Join(Strings(ts[..i + 1]), sep) == (if i == 0 then "" else Join(Strings(ts[..i]), sep) + sep) + ts[i].String()
  {
    var p := Strings(ts[..i + 1]);
    assert p[..i] == Strings(ts[..i]);
    if i == 0 {
      assert "" + p[0] == p[0];
    }
  }

  /** The parts separated by sep, as a `strings.Builder` loop writes them. */
  function Join(parts: seq<string>, sep: string): string {
    if |parts| == 0 then ""
    else if |parts| == 1 then parts[0]
    else Join(parts[..|parts| - 1], sep) + sep + parts[|parts| - 1]
  }

  // ----- registering tasks -----

  /** The ids of ts are new to m and pairwise different. */
  ghost predicate FreshIds<F>(m: map<int, Task<F>>, ts: seq<Task<F>>) {
    forall i | 0 <= i < |ts| :: ts[i].id !in m && forall j | 0 <= j < i :: ts[j].id != ts[i].id
  }

  /** m with every task of ts added under its id. */
  function Registered<F>(m: map<int, Task<F>>, ts: seq<Task<F>>): map<int, Task<F>>
    decreases |ts|
  {
    if ts == [] then m else Registered(m[ts[0].id := ts[0]], ts[1..])
  }

  /** What `AddTasks` leaves in the registry, and what it returns. */
  function AddTasksResult<F>(m: map<int, Task<F>>, ts: seq<Task<F>>): (map<int, Task<F>>, Option<Error>)
    decreases |ts|
  {
    if ts == [] then (m, None)
    else if ts[0].id in m then (m, Some(AlreadyExists))
    else AddTasksResult(m[ts[0].id := ts[0]], ts[1..])
  }

  /** Registering fresh tasks adds exactly them and keeps what was there. */
  lemma {:induction false} RegisteredContents<F>(m: map<int, Task<F>>, ts: seq<Task<F>>)
    requires FreshIds(m, ts)
    ensures Registered(m, ts).Keys == m.Keys + set i | 0 <= i < |ts| :: ts[i].id
    ensures forall i | 0 <= i < |ts| :: Registered(m, ts)[ts[i].id] == ts[i]
    ensures forall id | id in m :: Registered(m, ts)[id] == m[id]
    decreases |ts|
  {
    if ts != [] {
      var t := ts[0];
      var m' := m[t.id := t];
      var rest := ts[1..];
      assert FreshIds(m', rest) by {
        forall i | 0 <= i < |rest| ensures rest[i].id !in m' {
          assert ts[i + 1].id != ts[0].id;
        }
      }
      RegisteredContents(m', rest);
      var r := Registered(m, ts);
      assert r == Registered(m', rest);
      IdsOfTail(ts);
      forall i | 0 <= i < |ts| ensures r[ts[i].id] == ts[i] {
        if i > 0 {
          assert rest[i - 1] == ts[i];
        }
      }
    }
  }

  /** The ids of a non-empty sequence: the first one and those of the rest. */
  lemma IdsOfTail<F>(ts: seq<Task<F>>)
    requires ts != []
    ensures (set i | 0 <= i < |ts| :: ts[i].id) == {ts[0].id} + set i | 0 <= i < |ts[1..]| :: ts[1..][i].id
  {
    var all := set i | 0 <= i < |ts| :: ts[i].id;
    var rest := ts[1..];
    var later := set i | 0 <= i < |rest| :: rest[i].id;
    forall x | x in all ensures x in {ts[0].id} + later {
      var i :| 0 <= i < |ts| && ts[i].id == x;
      if i > 0 {
        assert rest[i - 1].id == x;
      }
    }
    forall x | x in later ensures x in all {
      var i :| 0 <= i < |rest| && rest[i].id == x;
      assert ts[i + 1].id == x;
    }
  }

  /** `AddTasks` succeeds exactly when the ids are fresh and distinct, and then registers them all. */
  lemma {:induction false} AddTasksSucceedsIffFresh<F>(m: map<int, Task<F>>, ts: seq<Task<F>>)
    ensures AddTasksResult(m, ts).1.None? <==> FreshIds(m, ts)
    ensures FreshIds(m, ts) ==> AddTasksResult(m, ts).0 == Registered(m, ts)
    decreases |ts|
  {
    if ts != [] {
      var t := ts[0];
      var m' := m[t.id := t];
      AddTasksSucceedsIffFresh(m', ts[1..]);
      if t.id !in m {
        if FreshIds(m', ts[1..]) {
          forall i | 0 <= i < |ts| ensures ts[i].id !in m && forall j | 0 <= j < i :: ts[j].id != ts[i].id {
            if i > 0 {
              assert ts[1..][i - 1] == ts[i];
              forall j | 0 <= j < i ensures ts[j].id != ts[i].id {
                if j > 0 {
                  assert ts[1..][j - 1] == ts[j];
                }
              }
            }
          }
        }
        if FreshIds(m, ts) {
          forall i | 0 <= i < |ts[1..]| ensures ts[1..][i].id !in m' && forall j | 0 <= j < i :: ts[1..][j].id != ts[1..][i].id {
            assert ts[1..][i] == ts[i + 1];
            assert ts[0].id != ts[i + 1].id;
          }
        }
      } else {
        assert !FreshIds(m, ts) by {
          assert ts[0].id in m;
        }
      }
    }
  }

  /** `AddTasks` is not all-or-nothing: when the task at k is the first whose id is taken, the k
      tasks before it stay registered and the call reports `AlreadyExists`. */
  lemma {:induction false} AddTasksKeepsPrefix<F>(m: map<int, Task<F>>, ts: seq<Task<F>>, k: nat)
    requires k < |ts| && FreshIds(m, ts[..k])
    requires ts[k].id in Registered(m, ts[..k])
    ensures AddTasksResult(m, ts) == (Registered(m, ts[..k]), Some(AlreadyExists))
    decreases k
  {
    if k > 0 {
      var t := ts[0];
      var m' := m[t.id := t];
      assert ts[..k][0] == t;
      assert t.id !in m;
      assert ts[1..][..k - 1] == ts[..k][1..];
      var pre, rest := ts[..k], ts[1..][..k - 1];
      assert FreshIds(m', rest) by {
        forall i | 0 <= i < k - 1 ensures rest[i].id !in m' {
          assert rest[i] == pre[i + 1];
          assert pre[i + 1].id != pre[0].id;
        }
        forall i, j | 0 <= j < i < k - 1 ensures rest[j].id != rest[i].id {
          assert rest[i] == pre[i + 1] && rest[j] == pre[j + 1];
        }
      }
      AddTasksKeepsPrefix(m', ts[1..], k - 1);
    }
  }

  // ----- declaring dependencies -----

  /** The first dependency whose id is not a node, reported against the dependent task. */
  function FirstMissing<F>(nodes: set<int>, taskId: int, deps: seq<Task<F>>): Option<Error>
    decreases |deps|
  {
    if deps == [] then None
    else if deps[0].id !in nodes then Some(MissingDependencyNode(taskId, deps[0].id))
    else FirstMissing(nodes, taskId, deps[1..])
  }

  /** The validation `AddDependency` performs before it adds any edge. */
  function CheckDependencies<F>(nodes: set<int>, task: Task<F>, deps: seq<Task<F>>): Option<Error> {
    if task.id !in nodes then Some(MissingTaskNode(task.id)) else FirstMissing(nodes, task.id, deps)
  }

  /** One edge from each dependency to the dependent task. */
  function DependencyEdges<F>(task: Task<F>, deps: seq<Task<F>>): set<Edge> {
    set i | 0 <= i < |deps| :: (deps[i].id, task.id)
  }

  lemma DependencyEdgesExtend<F>(task: Task<F>, deps: seq<Task<F>>, j: nat)
    requires j < |deps|
    ensures DependencyEdges(task, deps[..j + 1]) == DependencyEdges(task, deps[..j]) + {(deps[j].id, task.id)}
  {
    var a, b := deps[..j + 1], deps[..j];
    forall e | e in DependencyEdges(task, a) ensures e in DependencyEdges(task, b) + {(deps[j].id, task.id)} {
      var i :| 0 <= i < |a| && e == (a[i].id, task.id);
      if i < j {
        assert e == (b[i].id, task.id);
      }
    }
    forall e | e in DependencyEdges(task, b) ensures e in DependencyEdges(task, a) {
      var i :| 0 <= i < |b| && e == (b[i].id, task.id);
      assert e == (a[i].id, task.id);
    }
    assert (deps[j].id, task.id) == (a[j].id, task.id);
  }

  lemma {:induction false} FirstMissingFacts<F>(nodes: set<int>, taskId: int, deps: seq<Task<F>>)
    ensures var r := FirstMissing(nodes, taskId, deps);
      && (r.None? <==> forall i | 0 <= i < |deps| :: deps[i].id in nodes)
      && (r.Some? ==> exists i | 0 <= i < |deps| ::
            r.value == MissingDependencyNode(taskId, deps[i].id) && deps[i].id !in nodes &&
            forall j | 0 <= j < i :: deps[j].id in nodes)
    decreases |deps|
  {
    if deps != [] && deps[0].id in nodes {
      FirstMissingFacts(nodes, taskId, deps[1..]);
      var r := FirstMissing(nodes, taskId, deps);
      if r.Some? {
        var i :| 0 <= i < |deps[1..]| && r.value == MissingDependencyNode(taskId, deps[1..][i].id) &&
          deps[1..][i].id !in nodes && forall j | 0 <= j < i :: deps[1..][j].id in nodes;
        assert deps[1..][i] == deps[i + 1];
        forall j | 0 <= j < i + 1 ensures deps[j].id in nodes {
          if j > 0 {
            assert deps[1..][j - 1] == deps[j];
          }
        }
      } else {
        forall i | 0 <= i < |deps| ensures deps[i].id in nodes {
          if i > 0 {
            assert deps[1..][i - 1] == deps[i];
          }
        }
      }
    }
  }

  /** The validation fails exactly when the task or some dependency is not a node, and it names
      the task, or the first dependency that is missing. */
  lemma CheckDependenciesFacts<F>(nodes: set<int>, task: Task<F>, deps: seq<Task<F>>)
    ensures var r := CheckDependencies(nodes, task, deps);
      && (r.None? <==> task.id in nodes && forall i | 0 <= i < |deps| :: deps[i].id in nodes)
      && (r == Some(MissingTaskNode(task.id)) <==> task.id !in nodes)
      && (r.Some? && task.id in nodes ==> exists i | 0 <= i < |deps| ::
            r.value == MissingDependencyNode(task.id, deps[i].id) && deps[i].id !in nodes &&
            forall j | 0 <= j < i :: deps[j].id in nodes)
  {
    FirstMissingFacts(nodes, task.id, deps);
  }

  // ----- ordering -----

  /** The registered tasks for a sequence of ids. */
  function Lookup<F>(tasks: map<int, Task<F>>, ids: seq<int>): (r: seq<Task<F>>)
    requires forall i | 0 <= i < |ids| :: ids[i] in tasks
    ensures |r| == |ids| && forall i | 0 <= i < |ids| :: r[i] == tasks[ids[i]]
  {
    seq(|ids|, i requires 0 <= i < |ids| => tasks[ids[i]])
  }

  /** What `GetOrderedTasks` returns: the tasks in sort order, or the sort's error. */
  function Plan<F>(tasks: map<int, Task<F>>, nodes: set<int>, edges: set<Edge>): Result<seq<Task<F>>, Error>
    requires nodes <= tasks.Keys
  {
    match SortStabilized(nodes, edges)
    case Err(stuck) => Err(Unorderable(stuck))
    case Ok(ids) =>
      SortStabilizedOk(nodes, edges);
      Ok(Lookup(tasks, ids))
  }

  /** An empty registry plans to nothing. */
  lemma PlanOfEmpty<F>(tasks: map<int, Task<F>>, nodes: set<int>, edges: set<Edge>)
    requires tasks == map[] && nodes == tasks.Keys && WellFormed(nodes, edges)
    ensures Plan(tasks, nodes, edges) == Ok([])
  {
    assert Ready(nodes, edges, []) == {};
  }

  /** The bodies of the registry: every key maps to the task with that id. */
  ghost predicate KeyedById<F>(tasks: map<int, Task<F>>) {
    forall id | id in tasks :: tasks[id].id == id
  }

  /** The plan lists every registered task exactly once, edges respected and smallest ready id first;
      it fails exactly when the graph has no topological order. */
  lemma PlanFacts<F>(tasks: map<int, Task<F>>, nodes: set<int>, edges: set<Edge>)
    requires nodes == tasks.Keys && KeyedById(tasks) && WellFormed(nodes, edges)
    ensures var p := Plan(tasks, nodes, edges);
      && (p.Err? <==> !Orderable(nodes, edges))
      && (p.Err? ==> p.error.Unorderable? && p.error.stuck != {} && p.error.stuck <= nodes && NoEntry(edges, p.error.stuck))
      && (p.Ok? ==> IsTopologicalOrder(nodes, edges, Ids(p.value)) && SmallestReadyFirst(nodes, edges, Ids(p.value)))
      && (p.Ok? ==> forall i | 0 <= i < |p.value| :: p.value[i] == tasks[p.value[i].id])
  {
    SortStabilizedFailsIffUnorderable(nodes, edges);
    if SortStabilized(nodes, edges).Err? {
      SortStabilizedErr(nodes, edges);
    } else {
      SortStabilizedOk(nodes, edges);
      var ids := SortStabilized(nodes, edges).value;
      assert Ids(Lookup(tasks, ids)) == ids;
    }
  }

  // ----- one reconciliation pass -----

  /** What a pass produced: its error (None for nil), the bodies' state afterwards, and the
      invocations made, each with the error it returned. */
  datatype PassResult<S, F> = PassResult(err: Option<Error>, state: S, trace: seq<(Task<F>, Option<Error>)>)

  /** The pass over ts from position i on: cancellation is sampled before each task; a cancelled task
      is skipped without error; the first task error ends the pass and is returned as it is. */
  function RunFrom<S, F>(ts: seq<Task<F>>, i: nat, cancelled: nat -> bool,
                         run: (S, Task<F>) -> (S, Option<Error>), s: S): PassResult<S, F>
    requires i <= |ts|
    decreases |ts| - i
  {
    if i == |ts| then PassResult(None, s, [])
    else if cancelled(i) then RunFrom(ts, i + 1, cancelled, run, s)
    else
      var (s', e) := run(s, ts[i]);
      if e.Some? then PassResult(e, s', [(ts[i], e)])
      else
        var rest := RunFrom(ts, i + 1, cancelled, run, s');
        PassResult(rest.err, rest.state, [(ts[i], e)] + rest.trace)
  }

  /** What a whole `Reconcile` call produces from a plan. */
  function ReconcileResult<S, F>(plan: Result<seq<Task<F>>, Error>, cancelled: nat -> bool,
                                 run: (S, Task<F>) -> (S, Option<Error>), s: S): PassResult<S, F>
  {
    match plan
    case Err(e) => PassResult(Some(Fatal(NewFatalError(Some(e)))), s, [])
    case Ok(ts) => RunFrom(ts, 0, cancelled, run, s)
  }

  /** The tasks at the positions i..k that are not cancelled, in order. */
  function Uncancelled<F>(ts: seq<Task<F>>, cancelled: nat -> bool, i: nat, k: nat): seq<Task<F>>
    requires i <= k <= |ts|
    decreases k - i
  {
    if i == k then [] else (if cancelled(i) then [] else [ts[i]]) + Uncancelled(ts, cancelled, i + 1, k)
  }

  function TraceTasks<F>(trace: seq<(Task<F>, Option<Error>)>): (r: seq<Task<F>>)
    ensures |r| == |trace| && forall m | 0 <= m < |trace| :: r[m] == trace[m].0
  {
    seq(|trace|, m requires 0 <= m < |trace| => trace[m].0)
  }

  /** Stop at the first error: every invocation but the last returned nil; the pass fails exactly
      when the last one failed, and then with that very error; the invoked tasks are the uncancelled
      ones of a prefix, which is the whole sequence when the pass succeeds and ends at the failing
      task otherwise. */
  ghost predicate StopsAtFirstError<S, F>(ts: seq<Task<F>>, i: nat, cancelled: nat -> bool, r: PassResult<S, F>)
    requires i <= |ts|
  {
    && ErrorIsLast(r)
    && exists k | i <= k <= |ts| :: StopsAt(ts, i, cancelled, r, k)
  }

  /** Every invocation but the last returned nil, and the pass returns the last one's error, if any. */
  ghost predicate ErrorIsLast<S, F>(r: PassResult<S, F>) {
    && (forall m | 0 <= m < |r.trace| - 1 :: r.trace[m].1.None?)
    && (r.err.Some? <==> |r.trace| > 0 && r.trace[|r.trace| - 1].1.Some?)
    && (r.err.Some? ==> r.err == r.trace[|r.trace| - 1].1)
  }

  /** The pass from i invoked the uncancelled tasks of i..k, and k is where it stopped. */
  ghost predicate StopsAt<S, F>(ts: seq<Task<F>>, i: nat, cancelled: nat -> bool, r: PassResult<S, F>, k: nat)
    requires i <= |ts|
  {
    && i <= k <= |ts|
    && TraceTasks(r.trace) == Uncancelled(ts, cancelled, i, k)
    && (r.err.None? ==> k == |ts|)
    && (r.err.Some? ==> i < k && !cancelled(k - 1) && |r.trace| > 0 && r.trace[|r.trace| - 1].0 == ts[k - 1])
  }

  lemma RunFromStopsAtFirstError<S, F>(ts: seq<Task<F>>, i: nat, cancelled: nat -> bool,
                                       run: (S, Task<F>) -> (S, Option<Error>), s: S)
    requires i <= |ts|
    ensures StopsAtFirstError(ts, i, cancelled, RunFrom(ts, i, cancelled, run, s))
  {
    var k := RunFromStops(ts, i, cancelled, run, s);
  }

  /** The pass from i stops at the position k it returns. */
  lemma {:induction false} RunFromStops<S, F>(ts: seq<Task<F>>, i: nat, cancelled: nat -> bool,
                                              run: (S, Task<F>) -> (S, Option<Error>), s: S)
    returns (k: nat)
    requires i <= |ts|
    ensures ErrorIsLast(RunFrom(ts, i, cancelled, run, s))
    ensures StopsAt(ts, i, cancelled, RunFrom(ts, i, cancelled, run, s), k)
    decreases |ts| - i
  {
    var r := RunFrom(ts, i, cancelled, run, s);
    if i == |ts| {
      assert r == PassResult(None, s, []);
      k := i;
    } else if cancelled(i) {
      k := RunFromStops(ts, i + 1, cancelled, run, s);
      SkipStopsAt(ts, i, cancelled, r, k);
    } else {
      var (s', e) := run(s, ts[i]);
      if e.Some? {
        assert r == PassResult(e, s', [(ts[i], e)]);
        FailStopsAt(ts, i, cancelled, (ts[i], e), r);
        k := i + 1;
      } else {
        var rest := RunFrom(ts, i + 1, cancelled, run, s');
        assert r == PassResult(rest.err, rest.state, [(ts[i], e)] + rest.trace);
        k := RunFromStops(ts, i + 1, cancelled, run, s');
        StepStopsAt(ts, i, cancelled, (ts[i], e), rest, r, k);
      }
    }
  }

  /** A cancelled task is skipped. */
  lemma SkipStopsAt<S, F>(ts: seq<Task<F>>, i: nat, cancelled: nat -> bool, r: PassResult<S, F>, k: nat)
    requires i < |ts| && cancelled(i)
    requires StopsAt(ts, i + 1, cancelled, r, k)
    ensures StopsAt(ts, i, cancelled, r, k)
  {
    var later := Uncancelled(ts, cancelled, i + 1, k);
    assert Uncancelled(ts, cancelled, i, k) == [] + later;
    assert [] + later == later;
  }

  /** An invoked task that returned an error ends the pass. */
  lemma FailStopsAt<S, F>(ts: seq<Task<F>>, i: nat, cancelled: nat -> bool, head: (Task<F>, Option<Error>),
                          r: PassResult<S, F>)
    requires i < |ts| && !cancelled(i) && head.0 == ts[i] && head.1.Some?
    requires r.err == head.1 && r.trace == [head]
    ensures ErrorIsLast(r) && StopsAt(ts, i, cancelled, r, i + 1)
  {
    assert Uncancelled(ts, cancelled, i + 1, i + 1) == [];
    assert TraceTasks(r.trace) == Uncancelled(ts, cancelled, i, i + 1);
  }

  /** One invoked task that returned nil, in front of the rest of the pass. */
  lemma StepStopsAt<S, F>(ts: seq<Task<F>>, i: nat, cancelled: nat -> bool, head: (Task<F>, Option<Error>),
                          rest: PassResult<S, F>, r: PassResult<S, F>, k: nat)
    requires i < |ts| && !cancelled(i) && head.0 == ts[i] && head.1.None?
    requires ErrorIsLast(rest) && StopsAt(ts, i + 1, cancelled, rest, k)
    requires r == PassResult(rest.err, rest.state, [head] + rest.trace)
    ensures ErrorIsLast(r) && StopsAt(ts, i, cancelled, r, k)
  {
    assert TraceTasks(r.trace) == [ts[i]] + TraceTasks(rest.trace);
    forall m | 0 <= m < |r.trace| - 1 ensures r.trace[m].1.None? {
      if m > 0 {
        assert r.trace[m] == rest.trace[m - 1];
      }
    }
  }

  /** The weak cancellation contract: a pass in which every task finds the context cancelled invokes
      nothing and reports success. */
  lemma {:induction false} CancelledPassSucceeds<S, F>(ts: seq<Task<F>>, i: nat, cancelled: nat -> bool,
                                                       run: (S, Task<F>) -> (S, Option<Error>), s: S)
    requires i <= |ts|
    requires forall j | i <= j < |ts| :: cancelled(j)
    ensures RunFrom(ts, i, cancelled, run, s) == PassResult(None, s, [])
    decreases |ts| - i
  {
    if i < |ts| {
      CancelledPassSucceeds(ts, i + 1, cancelled, run, s);
    }
  }

  /** With no cancellation the uncancelled tasks of i..k are simply ts[i..k]. */
  lemma {:induction false} UncancelledWhenNeverCancelled<F>(ts: seq<Task<F>>, cancelled: nat -> bool, i: nat, k: nat)
    requires i <= k <= |ts|
    requires forall j | i <= j < k :: !cancelled(j)
    ensures Uncancelled(ts, cancelled, i, k) == ts[i..k]
    decreases k - i
  {
    if i < k {
      UncancelledWhenNeverCancelled(ts, cancelled, i + 1, k);
      assert ts[i..k] == [ts[i]] + ts[i + 1..k];
    }
  }

  /** A pass result with prefix invocations in front of its trace. */
  function Glue<S, F>(prefix: seq<(Task<F>, Option<Error>)>, r: PassResult<S, F>): PassResult<S, F> {
    PassResult(r.err, r.state, prefix + r.trace)
  }

  /** The loop of `Reconcile` over the ordered tasks. */
  method RunTasks<S, F>(ts: seq<Task<F>>, cancelled: nat -> bool, run: (S, Task<F>) -> (S, Option<Error>), s0: S)
    returns (err: Option<Error>, s: S, ghost trace: seq<(Task<F>, Option<Error>)>)
    ensures err == RunFrom(ts, 0, cancelled, run, s0).err && s == RunFrom(ts, 0, cancelled, run, s0).state
    ensures PassResult(err, s, trace) == RunFrom(ts, 0, cancelled, run, s0)
  {
    s := s0;
    trace := [];
    var i := 0;
    while i < |ts|
      invariant 0 <= i <= |ts|
      invariant RunFrom(ts, 0, cancelled, run, s0) == Glue(trace, RunFrom(ts, i, cancelled, run, s))
    {
      if !cancelled(i) {
        var out := run(s, ts[i]);
        var e := out.1;
        if e.Some? {
          return e, out.0, trace + [(ts[i], e)];
        }
        ghost var rest := RunFrom(ts, i + 1, cancelled, run, out.0);
        assert trace + ([(ts[i], e)] + rest.trace) == (trace + [(ts[i], e)]) + rest.trace;
        s := out.0;
        trace := trace + [(ts[i], e)];
      }
      i := i + 1;
    }
    assert trace + [] == trace;
    return None, s, trace;
  }

  // ----- the workflow -----

  /** A workflow: the registry of tasks by id and the dependency graph over their ids. An edge (a, b)
      runs from a dependency a to the task b that depends on it, so that the topological order is the
      execution order. */
  class Workflow<F> {
    var tasks: map<int, Task<F>>
    var nodes: set<int>
    var edges: set<Edge>

    /** The graph has exactly one node per registered task, and every edge joins two of them. */
    ghost predicate Valid()
      reads this
    {
      nodes == tasks.Keys && KeyedById(tasks) && WellFormed(nodes, edges)
    }

    /** `NewWorkflow`: an empty registry and an empty graph. */
    constructor ()
      ensures Valid()
      ensures tasks == map[] && nodes == {} && edges == {}
    {
      tasks := map[];
      nodes := {};
      edges := {};
    }

    /** Registers a task and its node, unless its id is taken. */
    method AddTask(task: Task<F>) returns (err: Option<Error>)
      requires Valid()
      modifies this
      ensures Valid()
      ensures edges == old(edges)
      ensures old(task.id in tasks) ==> err == Some(AlreadyExists) && tasks == old(tasks) && nodes == old(nodes)
      ensures old(task.id !in tasks) ==> err == None && tasks == old(tasks)[task.id := task] && nodes == old(nodes) + {task.id}
    {
      if task.id in tasks {
        return Some(AlreadyExists);
      }
      tasks := tasks[task.id := task];
      nodes := nodes + {task.id};
      return None;
    }

    /** Registers the tasks in order and stops at the first one whose id is taken; the ones before it
        stay registered. */
    method AddTasks(ts: seq<Task<F>>) returns (err: Option<Error>)
      requires Valid()
      modifies this
      ensures Valid()
      ensures edges == old(edges)
      ensures (tasks, err) == AddTasksResult(old(tasks), ts)
    {
      var i := 0;
      while i < |ts|
        invariant 0 <= i <= |ts|
        invariant Valid() && edges == old(edges)
        invariant AddTasksResult(old(tasks), ts) == AddTasksResult(tasks, ts[i..])
      {
        assert ts[i..][1..] == ts[i + 1..];
        var e := AddTask(ts[i]);
        if e.Some? {
          return e;
        }
        i := i + 1;
      }
      return None;
    }

    /** Adds an edge from every dependency to the task, after checking that all of them are nodes;
        on a missing id nothing is added. gonum panics on a self-edge, so a call that would reach
        one is excluded. */
    method AddDependency(task: Task<F>, dependencies: seq<Task<F>>) returns (err: Option<Error>)
      requires Valid()
      requires CheckDependencies(nodes, task, dependencies).None? ==>
                 forall i | 0 <= i < |dependencies| :: dependencies[i].id != task.id
      modifies this`edges
      ensures Valid()
      ensures err == CheckDependencies(nodes, task, dependencies)
      ensures err.Some? ==> edges == old(edges)
      ensures err.None? ==> edges == old(edges) + DependencyEdges(task, dependencies)
      ensures DependencyEdges(task, dependencies) <= old(edges) ==> edges == old(edges)
      ensures dependencies == [] ==> edges == old(edges) && (err.None? <==> task.id in old(nodes))
    {
      if task.id !in nodes {
        return Some(MissingTaskNode(task.id));
      }
      var depNodes: seq<int> := [];
      var i := 0;
      while i < |dependencies|
        invariant 0 <= i <= |dependencies|
        invariant depNodes == Ids(dependencies[..i])
        invariant forall k | 0 <= k < i :: dependencies[k].id in nodes
        invariant FirstMissing(nodes, task.id, dependencies) == FirstMissing(nodes, task.id, dependencies[i..])
      {
        assert dependencies[i..][1..] == dependencies[i + 1..];
        var depId := dependencies[i].id;
        if depId !in nodes {
          return Some(MissingDependencyNode(task.id, depId));
        }
        depNodes := depNodes + [depId];
        i := i + 1;
      }
      assert dependencies[..i] == dependencies;
      assert forall k | 0 <= k < |depNodes| :: depNodes[k] in nodes;
      var j := 0;
      while j < |depNodes|
        invariant 0 <= j <= |depNodes|
        invariant Valid()
        invariant edges == old(edges) + DependencyEdges(task, dependencies[..j])
      {
        DependencyEdgesExtend(task, dependencies, j);
        edges := edges + {(depNodes[j], task.id)};
        j := j + 1;
      }
      assert dependencies[..j] == dependencies;
      return None;
    }

    /** The tasks in execution order, or the ordering error. */
    method GetOrderedTasks() returns (r: Result<seq<Task<F>>, Error>)
      requires Valid()
      ensures r == Plan(tasks, nodes, edges)
      ensures r.Err? <==> !Orderable(nodes, edges)
      ensures r.Err? ==> r.error.Unorderable? && r.error.stuck != {} && NoEntry(edges, r.error.stuck)
      ensures r.Ok? ==> IsTopologicalOrder(nodes, edges, Ids(r.value)) && SmallestReadyFirst(nodes, edges, Ids(r.value))
      ensures r.Ok? ==> forall i | 0 <= i < |r.value| :: r.value[i] == tasks[r.value[i].id]
    {
      var sorted := SortStabilized(nodes, edges);
      if sorted.Err? {
        r := Err(Unorderable(sorted.error));
      } else {
        var ids := sorted.value;
        assert forall i | 0 <= i < |ids| :: ids[i] in tasks by {
          SortStabilizedOk(nodes, edges);
          assert Covers(nodes, ids);
        }
        var result: seq<Task<F>> := [];
        for i := 0 to |ids|
          invariant |result| == i
          invariant forall k | 0 <= k < i :: result[k] == tasks[ids[k]]
        {
          result := result + [tasks[ids[i]]];
        }
        assert result == Lookup(tasks, ids);
        r := Ok(result);
      }
      assert r == Plan(tasks, nodes, edges);
      PlanFacts(tasks, nodes, edges);
    }

    /** One reconciliation pass. The bodies' behaviour is `run`, a function of their private state
        `s` and the invoked task; `cancelled(i)` is whether the context is cancelled before the task
        at position i. The ghost `trace` records every invocation with the error it returned. The
        method has no modifies clause: a pass changes neither the registry nor the graph. */
    method Reconcile<S>(cancelled: nat -> bool, run: (S, Task<F>) -> (S, Option<Error>), s0: S)
      returns (err: Option<Error>, s: S, ghost trace: seq<(Task<F>, Option<Error>)>)
      requires Valid()
      ensures err == ReconcileResult(Plan(tasks, nodes, edges), cancelled, run, s0).err
      ensures s == ReconcileResult(Plan(tasks, nodes, edges), cancelled, run, s0).state
      ensures PassResult(err, s, trace) == ReconcileResult(Plan(tasks, nodes, edges), cancelled, run, s0)
      ensures Plan(tasks, nodes, edges).Err? <==> !Orderable(nodes, edges)
      ensures Plan(tasks, nodes, edges).Err? ==>
                err == Some(Fatal(FatalError(Some(Plan(tasks, nodes, edges).error)))) && trace == [] && s == s0
      ensures Plan(tasks, nodes, edges).Ok? ==>
                StopsAtFirstError(Plan(tasks, nodes, edges).value, 0, cancelled, PassResult(err, s, trace))
    {
      var ordered := GetOrderedTasks();
      if ordered.Err? {
        return Some(Fatal(NewFatalError(Some(ordered.error)))), s0, [];
      }
      err, s, trace := RunTasks(ordered.value, cancelled, run, s0);
      RunFromStopsAtFirstError(ordered.value, 0, cancelled, run, s0);
    }

    /** The planned order as `task <id> (<desc>)` strings joined by " >> ", or the ordering error
        as it is (not wrapped as fatal). */
    method Visualize() returns (r: Result<string, Error>)
      requires Valid()
      ensures Plan(tasks, nodes, edges).Err? ==> r == Err(Plan(tasks, nodes, edges).error)
      ensures Plan(tasks, nodes, edges).Ok? ==> r == Ok(Join(Strings(Plan(tasks, nodes, edges).value), " >> "))
      ensures tasks == map[] ==> r == Ok("")
    {
      if tasks == map[] {
        PlanOfEmpty(tasks, nodes, edges);
      }
      var ordered := GetOrderedTasks();
      if ordered.Err? {
        return Err(ordered.error);
      }
      var ts := ordered.value;
      var result := "";
      for i := 0 to |ts|
        invariant result == Join(Strings(ts[..i]), " >> ")
      {
        JoinNext(ts, i, " >> ");
        if i > 0 {
          result := result + " >> ";
        }
        result := result + ts[i].String();
      }
      assert ts[..|ts|] == ts;
      return Ok(result);
    }
  }
}
