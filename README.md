# go-dags workflow engine, modelled in Dafny

go-dags runs a set of *tasks* in dependency order. A `Workflow` keeps:

- a registry of tasks keyed by their id;
- a directed graph over those ids, with one edge from each dependency to the task that depends on it.

From the graph it derives an execution order: a topological sort that breaks ties by ascending id.
`Reconcile` makes one pass over that order and runs each task body. It stops at the first error a
body returns. If the graph has a cycle, it wraps the ordering error as a `FatalError` instead.
`Visualize` renders the order as `task <id> (<desc>)` strings joined by ` >> `.

The demonstration program builds five tasks. Their bodies fail a fixed number of times before they
succeed. The program wires the tasks into a graph and calls `Reconcile` again after every failed pass, until one pass succeeds.

The project has five modules:

- `Wrappers` (`wrappers.dfy`): `Option` and `Result`.
- `Decimal` (`decimal.dfy`): Go's `%d` rendering of integers, together with a parser that reads it back. The parser is only used to prove that the rendering is injective.
- `Topo` (`topo.dfy`): the stable topological sort the engine calls. It is modelled as Kahn's algorithm that always places the smallest ready id. Its result is proved against an independent definition (`IsTopologicalOrder` together with `SmallestReadyFirst`), and its failure is proved equivalent to the graph having no topological order.
- `Flow` (`flow.dfy`): the engine itself. This covers the errors, `Task`, and the `Workflow` class. The class has the registry and the graph as fields, and its methods update them in place. `Reconcile` is specified by a pure function of the plan (`RunFrom`).
- `Demo` (`demo.dfy`): the demonstration program. It has the `demoTask` state machine as a class, the same machine as a pure step function over all bodies, the retry loop of `main`, and the concrete demonstration. `RunMain` proves that it renders `task 2 (create V2) >> task 5 (create V5) >> task 3 (create V3) >> task 4 (create V4) >> task 1 (create V1)` and that the retry loop converges after five passes.

Task bodies are abstract. `Reconcile` receives them as a function `run` from the bodies' private
state and the invoked task to a new state and an optional error. Cancellation is a predicate
`cancelled(i)`, sampled once before the task at position i.

## Model

| member | source | states |
|---|---|---|
| Decimal.FormatIntRoundTrip | pkg/flow/flow.go:179 | the `%d` text of every integer reads back as that integer |
| Decimal.FormatIntInjective | pkg/flow/flow.go:179 | two integers with the same `%d` text are equal |
| Topo.Min | pkg/flow/flow.go:84-85 | the tie-break picks an element of the ready set that is no larger than any other element of it |
| Topo.SmallestReadyFirstIsOrdered | pkg/flow/flow.go:84-85 | a sequence that always places a smallest ready node has no duplicates, holds only nodes, and puts the source of every edge before its target |
| Topo.KahnOk | pkg/flow/flow.go:84-85 | when the sort succeeds, its result is smallest-ready-first and places every node |
| Topo.KahnErr | pkg/flow/flow.go:84-87 | when the sort fails, the set it reports is non-empty, holds only nodes, and each of its nodes has a predecessor inside the set |
| Topo.NoEntryUnorderable | pkg/flow/flow.go:84-87 | a non-empty node set in which every node has a predecessor inside the set rules out every topological order |
| Topo.SortStabilizedOk | pkg/flow/flow.go:84-85 | a successful sort is a topological order (every node exactly once, every edge forward) that breaks ties by ascending id |
| Topo.SortStabilizedErr | pkg/flow/flow.go:84-87 | a failed sort reports a non-empty stuck set, and the graph then has no topological order |
| Topo.SortStabilizedFailsIffUnorderable | pkg/flow/flow.go:84-87 | on a well-formed graph the sort fails exactly when no topological order exists |
| Topo.CommonPrefix | pkg/flow/flow.go:84-85 | two smallest-ready-first sequences agree on their common length |
| Topo.CoveringIsMaximal | pkg/flow/flow.go:84-85 | no smallest-ready-first sequence is longer than one that covers all nodes |
| Topo.SmallestReadyFirstUnique | pkg/flow/flow.go:84-85 | there is at most one covering smallest-ready-first sequence, so the order is deterministic |
| Topo.SortStabilizedCharacterised | pkg/flow/flow.go:84-85 | the sort returns s exactly when s covers the nodes and always places a smallest ready id |
| Topo.CycleUnorderable | pkg/flow/flow.go:84-87 | a graph that contains a cycle makes the sort fail, and has no topological order |
| Flow.FatalError.Message | pkg/flow/flow.go:152-157 | the text is "unknown fatal error" exactly when no cause is wrapped; otherwise it is "fatal error: " followed by the cause's message |
| Flow.NewFatalError | pkg/flow/flow.go:146-150 | the new value wraps exactly the given cause, which may be nil |
| Flow.Task.String | pkg/flow/flow.go:178-180 | the text starts with "task ", ends with ")", and is 8 characters longer than the id's digits and the description together |
| Flow.TaskStringInjective | pkg/flow/flow.go:178-180 | two tasks with the same text have the same id and the same description |
| Flow.SplitRendering | pkg/flow/flow.go:179 | a rendering `task <p> (<x>)` with p made of digits and '-' determines p and x |
| Flow.NewTask | pkg/flow/flow.go:168-176 | the task keeps the given id, description and body unchanged |
| Flow.JoinNext | pkg/flow/flow.go:125-130 | each loop step appends the separator (except before the first task) and then the task's text |
| Flow.RegisteredContents | pkg/flow/flow.go:34-41 | registering fresh tasks adds exactly their ids, maps each one to its task, and keeps every earlier entry |
| Flow.AddTasksSucceedsIffFresh | pkg/flow/flow.go:34-41 | the call returns nil exactly when all ids are new and pairwise different, and then every task is registered |
| Flow.AddTasksKeepsPrefix | pkg/flow/flow.go:34-41 | when the task at k is the first with a taken id, the call returns `AlreadyExists` and the k tasks before it stay registered (the call is not all-or-nothing) |
| Flow.DependencyEdgesExtend | pkg/flow/flow.go:74-78 | each turn of the edge loop adds the one edge from that dependency to the task |
| Flow.FirstMissingFacts | pkg/flow/flow.go:66-73 | the dependency check passes exactly when every dependency is a node; otherwise it names the first dependency that is not one |
| Flow.CheckDependenciesFacts | pkg/flow/flow.go:59-73 | validation passes exactly when the task and every dependency are nodes; a missing task is reported first, then the first missing dependency |
| Flow.PlanOfEmpty | pkg/flow/flow.go:118-132 | an empty workflow plans to the empty sequence |
| Flow.PlanFacts | pkg/flow/flow.go:83-95 | the plan fails exactly when the graph has no topological order, and the error is then the stuck set. Otherwise it lists every registered task once, edges respected and smallest ready id first |
| Flow.RunFromStopsAtFirstError | pkg/flow/flow.go:105-114 | a pass invokes the uncancelled tasks of one prefix in order. Every invocation but the last returned nil. The pass returns the last one's error, if it has one, unchanged, and otherwise it covers the whole order |
| Flow.RunFromStops | pkg/flow/flow.go:105-114 | the same, with the position where the pass stopped as a witness |
| Flow.SkipStopsAt | pkg/flow/flow.go:106 | a task that finds the context cancelled is skipped, without an invocation or an error |
| Flow.FailStopsAt | pkg/flow/flow.go:107-111 | an invoked task that returns an error ends the pass with that error |
| Flow.StepStopsAt | pkg/flow/flow.go:107-112 | an invoked task that returns nil lets the pass go on with the next one |
| Flow.CancelledPassSucceeds | pkg/flow/flow.go:105-114 | when every task finds the context cancelled, the pass invokes nothing, returns nil and leaves the state unchanged |
| Flow.UncancelledWhenNeverCancelled | pkg/flow/flow.go:106 | without cancellation the tasks a pass may invoke are exactly those of the range, in order |
| Flow.RunTasks | pkg/flow/flow.go:105-114 | the loop returns the error, the bodies' state and the invocations that the pass function defines |
| Flow.Workflow.constructor | pkg/flow/flow.go:26-31 | a new workflow has an empty registry and an empty graph, and satisfies the invariant |
| Flow.Workflow.AddTask | pkg/flow/flow.go:44-56 | a taken id gives `AlreadyExists` and changes nothing; otherwise exactly that task and node are added. The edges stay, and node set = key set is kept |
| Flow.Workflow.AddTasks | pkg/flow/flow.go:34-41 | the new registry and the error are those of adding the tasks in order and stopping at the first taken id; the edges stay unchanged |
| Flow.Workflow.AddDependency | pkg/flow/flow.go:59-80 | the error is the validation's result. On error no edge is added; otherwise exactly one edge dep→task per dependency is added. Re-adding existing edges and an empty dependency list change nothing |
| Flow.Workflow.GetOrderedTasks | pkg/flow/flow.go:83-95 | returns the plan: on a cycle the stuck-set error and no tasks; otherwise every registered task once, edges respected, ties by ascending id |
| Flow.Workflow.Reconcile | pkg/flow/flow.go:99-115 | an ordering failure returns a `FatalError` wrapping it, invokes nothing and changes no body. Otherwise the pass stops at the first error, returns it unwrapped, and skips cancelled tasks. Registry and graph are never modified |
| Flow.Workflow.Visualize | pkg/flow/flow.go:118-132 | the planned tasks' texts joined by " >> ", the ordering error unwrapped, and "" for an empty workflow |
| Demo.Dec | ex2_flow/main.go:72 | `retries--` on a 64-bit int: one less, except that the smallest value wraps to the largest |
| Demo.DoStep | ex2_flow/main.go:64-80 | once successful, nothing changes and nil is returned. Otherwise `retries` drops by one and success is set exactly when it reaches 0 or below. The call fails, with a retryable error, exactly when more than one call is still needed |
| Demo.RemainingAfter | ex2_flow/main.go:64-80 | every call before convergence lowers the calls still needed by one |
| Demo.SimulatedTries | ex2_flow/main.go:49-53 | a body created with k tries fails on its first k-1 calls and succeeds from call k on (k ≤ 1: at once); only the smallest int wraps |
| Demo.DemoTask.constructor | ex2_flow/main.go:51-53 | a new body holds `simulatedTries` retries and is not successful |
| Demo.DemoTask.Do | ex2_flow/main.go:64-80 | the new fields and the error are the step function's. The call returns nil exactly when `success` is then set. A successful body never changes, and otherwise `retries` drops by one |
| Demo.DemoRun | ex2_flow/main.go:51-53 | invoking a task steps the body its handle names and leaves every other body as it was |
| Demo.DemoPass | pkg/flow/flow.go:105-114 | a pass over demo bodies succeeds exactly when every body needs at most one more call, and then all of them have converged. A failing pass returns a retryable error and strictly lowers the calls still needed. A body that no task from the start position on carries is unchanged |
| Demo.DemoPassUnreached | ex2_flow/main.go:33-45 | the bodies of the tasks after the first one still failing are not reached: the pass leaves them as they were |
| Demo.FirstBlocked | ex2_flow/main.go:72-73 | the position of the first task whose next call fails; every task before it returns nil |
| Demo.DemoPassTrace | ex2_flow/main.go:33-45 | a pass invokes the tasks in order up to and including the first one still failing, and none after it. It fails exactly when such a task exists |
| Demo.BlockedStep | ex2_flow/main.go:72-73 | a task whose call fails ends the pass, with only that body changed |
| Demo.PassedStep | ex2_flow/main.go:66-79 | a task whose call returns nil hands the rest of the pass the stepped bodies, and the first failing position stays the same |
| Demo.DemoPassFailures | ex2_flow/main.go:33-45 | a pass succeeds exactly when no failing call is left, and a failing pass uses up exactly one failing call |
| Demo.PassesAreFailuresPlusOne | ex2_flow/main.go:33-45 | the retry loop makes one more pass than there are failing calls left in all bodies |
| Demo.PlanBodies | ex2_flow/main.go:50-54 | when every registered task has its own body, so has every planned task, and every registered task is planned |
| Demo.RetryLoop | ex2_flow/main.go:33-45 | the loop ends with a fatal error, after a single pass, exactly when the graph has no order. Otherwise it ends when a pass returns nil, after `PassCount` passes, with every body converged |
| Demo.NewDemoTask | ex2_flow/main.go:50-54 | `newTask` builds the engine task with the given id and description, and allocates a new `DemoTask` body holding `simulatedTries` retries, not yet successful |
| Demo.DemoOrder | ex2_flow/main.go:21-26 | the six dependencies sort to 2, 5, 3, 4, 1 |
| Demo.DemoCycle | pkg/flow/flow.go:85-87 | adding the edge 1→5 to the demonstration graph creates a cycle: the sort fails, reporting the nodes 1, 3, 4 and 5, and no order exists |
| Demo.DemoCycleStuck | pkg/flow/flow.go:85-87 | with the edge 1→5 only task 2 can be placed, and the sort reports the set {1, 3, 4, 5} |
| Demo.DemoTaskStrings | ex2_flow/main.go:14-18 | the five tasks render as `task i (create Vi)` |
| Demo.DemoRendering | ex2_flow/main.go:28 | `Visualize` of the demonstration renders the five tasks in plan order, joined by " >> " |
| Demo.SingleDependency | ex2_flow/main.go:21-26 | a dependency between two registered tasks passes validation and adds its one edge |
| Demo.DemoPlanned | ex2_flow/main.go:14-26 | the demonstration workflow is orderable, and its plan is T2, T5, T3, T4, T1 |
| Demo.DemoRegistration | ex2_flow/main.go:20 | registering the five tasks into the empty registry succeeds and yields the five entries |
| Demo.RegisterDemo | ex2_flow/main.go:13-20 | the new workflow holds the five tasks and no edges; the five allocated bodies hold the tries given, and the engine starts from their states |
| Demo.WireDemo | ex2_flow/main.go:21-26 | the six `AddDependency` calls succeed and leave exactly the six edges |
| Demo.DependOrDie | ex2_flow/main.go:82-86 | `doOrDie` around `AddDependency` between two different registered tasks does not fire, and adds exactly the one edge |
| Demo.DemoPassCount | ex2_flow/main.go:14-18 | with tries 3, 1, 1, 2, 2 and the plan 2, 5, 3, 4, 1, the retry loop needs five passes |
| Demo.DemoBodies | ex2_flow/main.go:14-18 | every demonstration task has its own body, named by its id |
| Demo.RunMain | ex2_flow/main.go:12-46 | the program renders `task 2 (create V2) >> task 5 (create V5) >> task 3 (create V3) >> task 4 (create V4) >> task 1 (create V1)`. The retry loop ends without a fatal error after five passes, with every body converged |

## Left out

- gonum's `topo.SortStabilized` and `simple.DirectedGraph` come from a library that is not part of this model. The graph is a set of edge pairs over the node set. The sort is Kahn's algorithm that always places the smallest ready id, proved against the contract of a stable topological sort (order respects every edge, ties by ascending id, failure exactly on graphs without a topological order). gonum's own implementation is based on Tarjan's strongly connected components, and on some graphs its order differs from smallest-ready-first; there the model's order is not gonum's. On the demonstration graph the expected order is 2, 5, 3, 4, 1, the one the model proves.
- The ordering error is modelled as `Unorderable` carrying the set of nodes Kahn's algorithm could not place. That set contains every cycle, but it is not gonum's list of strongly connected components.
- gonum's `SetEdge` panics on a self-edge. Flow.Workflow.AddDependency therefore requires that no dependency equals the task whenever validation would pass. A self-dependency that fails validation first is still modelled.
- `context.Context` is reduced to the predicate `cancelled`, sampled once before each task. Propagation and bodies that watch the context are not modelled. `context.Background()` is `Never`.
- Task bodies are not Go closures. A task carries an opaque handle `fn`, and `Reconcile` receives the bodies' behaviour as a function over their private state. Aliasing between bodies is therefore not modelled: in the demonstration, each handle is the task's id and names one `DemoState`. The `DemoTask` objects that `newTask` allocates supply the starting states. During a pass the engine then steps those states with `DoStep`, which Demo.DemoTask.Do is proved to implement. It does not call `Do` on the objects, so the in-place update of the bodies during a pass is not modelled.
- Demo.DemoRun returns nil for a task whose handle has no body. The demonstration never reaches that case (`BodiesFor`).
- `errors.As` becomes a test of the `Fatal` variant. No error in the engine wraps another one through `Unwrap`.
- The `Task.deps` field is never read and is left out. The `Fn` signature's context argument is left out with it.
- Task ids are unbounded integers, because the engine does no arithmetic on them. The demo's `retries` counter is a 64-bit Go `int` with explicit wrap-around.
- Logging (`log.Printf`, `log.Println`), `time.Sleep` and process exit (`log.Fatalf`, and `doOrDie`'s `log.Fatalln`) are I/O and timing. Demo.RetryLoop returns the fatal error where `main` would exit. Demo.RegisterDemo and Demo.WireDemo prove that `doOrDie` never fires in the demonstration.
- Flow.Error.Message renders the texts of `AlreadyExists` and of the two `fmt.Errorf` errors in `AddDependency`; no property is stated about those texts, whose wording is outside the model. The message of gonum's ordering error is a fixed text. Only `FatalError.Error` has its text specified.
- ex1_graph/main.go, a separate demonstration of gonum calls, is not part of this model.
