# Grenat: models and proofs

Grenat is a language with an interpreter, a native code generator for the part of a program that
types statically, green threads scheduled on a few system threads, per-provider rate limits, and a
source formatter. This project models the parts of it whose correctness is hardest to see from the
code, and proves what they are for.

**Ownership plan of native code** (`Syntax`, `ControlFlow`, `Ownership`, `Evaluation`, `LastUse`,
`Assignment`, `Detours`, `Repair`, `Liveness`, `Failures`). The code generator counts references
without counting at every use: a backward analysis decides which read of a variable moves its
reference, which assignment leaves a dead one behind, and what is dropped on each edge of the control
flow. `Liveness.Analysis` is that analysis, method by method. Its specification is `ControlFlow.Live`
on a small control-flow language into which `Lower` puts the syntax tree. `Ownership` runs that
language under a plan, one step at a time, with the set of variables that own a reference; reading,
dropping or overwriting wrongly is a fault. The theorems are about every run, through loops, inlined
blocks, `&&`/`||`, `return` and `exit`. `Evaluation` evaluates the tree itself, for any decisions, and
lists what it reads and gives a value, in order: lowering keeps that order, and the steps of a run
follow it. `LastUse` says of a plan in these terms, without the lowered code, that it moves last uses
and no others. The analysis does not see what runs: to it `exit` is a call that comes back
(`ControlFlow.Seen`). `Assignment` is the definite assignment that type inference computes, which
knows better; `Detours` says exactly when the plan of what the analysis sees is sound for what runs,
`Failures` has functions for which it is not, and `Repair` a body from which the analysis sees what
runs.

**Green threads** (`Scheduler`, `Parking`, `GreenMutex`, `Condvar`, `Channel`). Each is a state
machine whose actions are the atomic steps of the source: a load, a compare-and-swap, or what one
lock protects. Any action may come at any time, so every statement is about every interleaving,
with late and spurious wake-ups.

**Native boundary** (`NativeTypes`, `Shapes`, `Heap`, `Marshal`, `Native`, `StructTable`,
`Eligibility`). `Heap` is a reference-counted heap whose addresses are reused. `Heap.Balanced` says
that each count is the number of slots and of outside references that hold the object;
`SameRootsSameHeap` turns it into the absence of leaks, since structs do not contain themselves.
`StructTable` is the search that establishes that, and `Native.Call` is the call: native code is
any function from heaps to heaps that consumes the references of its arguments. `StructTable.Show`
writes types as annotations are written, and gives the table its meaning.

**Rate limits** (`Rates`, `TokenBucket`, `Slots`, `Limiter`, `Calendar`, `HttpDate`). The bucket
kept as one instant, the refund of cancelled turns, first-come-first-served slots, the limiter over
interleaved and cancelled calls, and the dates of `Retry-After` headers.

**Operators of the formatter** (`Operators`, `PrattParser`, `Regrouping`, `Reading`, `Printer`,
`Precedence`). The printer decides which operands need parentheses; the parser is the Pratt parser of
the language on the same tokens, and each has its own table of binding powers. `Regrouping.Normal` is
what the parser makes of an expression whose operands lack parentheses, and `Reading` compares any
writing of a tree with what is read from it. `Precedence` states the order of the operators without
numbers, and what parser and printer make of it.

**Codecs** (`Base64`, `Utf7`, `AudioData`). Modified UTF-7 of folder names and base64 of audio.

## Where the code does not do what it is for

- The printer writes `(!-x) ** 2` as `!-x ** 2`, which is read as `!(-(x ** 2))`, and `(-3) ** 2` as
  `-3 ** 2`: the power of `!` in the table of `crates/grenat_fmt/src/exprs.rs:28` says that it closes
  its operand, which its own operand may not do. `Printer.ReadsBackIffClean` is the exact condition.
  The formatter's own check (`crates/grenat_fmt/src/lib.rs:33-41`) then refuses the file.
- The first year of `now`'s century is counted in years of 365.25 days: in the first hours of 2000
  it is still 1900. `HttpDate.CenturyIsRight` is the exact condition.
- A turn refunded twice may be handed to two calls. `TokenBucket.SecondRefundIsSafeIff` says exactly
  when a second refund is safe; one made at once always is, one made after the turn was booked again
  is not. The limiter gives each turn back once (`Limiter.RefundsOnce`).
- The analysis stops the compiler (`crates/grenat_codegen/src/liveness.rs:191`) on a `return` without
  a value, which type inference accepts in a procedure of a standalone program
  (`crates/grenat_codegen/src/infer/mod.rs:250`) and the translator handles. `Liveness.PlanOf` gives
  the exact condition.
- The analysis takes `exit` for a call that comes back (`crates/grenat_codegen/src/liveness.rs:194-212`),
  where inference holds that control never goes past it, and the translator releases everything and
  leaves (`crates/grenat_codegen/src/translate/io.rs:86-95`). In `if c; exit(1) else x = "s" end; puts(x)`
  it has the second branch drop `x` before it is assigned (`Failures.ExitBreaksPlan`).
- Inference counts on what the right operand of `&&` and `||` assigns, though it may be skipped
  (`crates/grenat_codegen/src/infer/ops.rs:103-114`): such a function reads a variable that was never
  assigned, and no plan is sound for it (`Failures.OperandBreaksPlan`).
- The analysis takes the name of a builtin alone (`puts`, `print`, `p`, `exit`) for a read of the
  variable of that name, if there is one later (`Failures.LoneBuiltinBreaksPlan`).
- Nothing refuses two parameters of one name: an object that another one replaces is never released,
  and one not read is dropped twice (`Failures.NamesakesBreakPlan`).

For the last four, `Liveness.PlanOf` gives the exact condition: the plan is sound if and only if only
parameters are live at the entry as the analysis sees it, no object parameter has a later namesake, and
no unread object variable is the name of two parameters. `Liveness.DirectFits` says that it holds of
every function with distinct parameters that does none of this. `Liveness.PlanOfRepaired` repairs the
analysis (a scalar for a missing value, `return` before `exit`, builtins alone not read): its plan is
sound for every function with distinct parameters, once inference no longer counts on a skipped operand.

- Inference is not monotone in the signatures where a compiled function hides a builtin of the same
  name (`crates/grenat_codegen/src/infer/calls.rs:55-60`): a function that could be compiled without it
  is lost (`Eligibility.HidingLosesAFunction`).

## Model

| member | source | states |
|---|---|---|
| Liveness.PlanOf | crates/grenat_codegen/src/liveness.rs:71-77 | For every function inference accepts, there is a plan if and only if no `return` in the body lacks a value, and always one when the function has a return type. Under it every run is sound if and only if, as the analysis sees the body, only parameters are live at the entry and no two of one name get in the way of each other; otherwise some run faults, unless a builtin alone has the name of an object variable. It tells the last uses in the evaluations of the tree, builtins unseen. |
| Liveness.PlanFitting | crates/grenat_codegen/src/liveness.rs:71-77 | Whatever inference checked of the flow, the plan found fits the code as the analysis sees it, its dead parameters included, and tells the last uses in the evaluations of the tree: a read moves if and only if no evaluation reads the variable again before giving it a value. |
| Liveness.PlanOfRepaired | crates/grenat_codegen/src/liveness.rs:191-212 | With `exit` analysed as a `return`, a scalar for each missing value and no builtin read as a variable, every accepted function has a plan; it is sound and exact if and only if no path reads a variable neither assigned nor a parameter and no two parameters get in the way, so always for distinct names once inference does not count on skipped operands. |
| Liveness.DirectFits | crates/grenat_codegen/src/liveness.rs:1-22 | The condition of soundness holds of every accepted function with distinct parameters, without `exit`, without a builtin alone named as an object variable, and without an assignment in a right operand. |
| Liveness.OnlyParametersAreRead | crates/grenat_codegen/src/infer/mod.rs:1-7 | Were skipped operands not counted on, no accepted function would have a path that reads a variable before it is assigned, `exit` included. |
| Liveness.AcceptedIffOnlyParametersAreRead | crates/grenat_codegen/src/infer/mod.rs:262-302 | Given the rest of what inference checks, a function is let through if and only if no path reads a variable that is neither a parameter nor given a value before, were no right operand of a short-circuit operator ever skipped. |
| Evaluation.LoweredAsEvaluated | crates/grenat_codegen/src/translate/mod.rs:321-356 | For any decisions, the lowered code reads variables, gives them values and takes edges in exactly the order in which evaluating the tree does: operands left to right, a value before its variable, the value first in `x[i] = e` and last in `x[i] += e`, receiver, arguments, then block. |
| LastUse.Steps | crates/grenat_codegen/src/translate/mod.rs:321-356 | The steps of a run are the evaluation of the code: the same events, by the same decisions, and as much left to do. |
| LastUse.FittingPlanTellsAll | crates/grenat_codegen/src/liveness.rs:1-22 | A plan that fits the lowered body tells, at each event of any evaluation of the tree, what is used again: a read moves, or a value is dead, if and only if no evaluation uses the variable after it before giving it a value; an edge drops exactly what is needed past the other one only; a parameter is dropped at the entry if and only if no evaluation uses it. |
| LastUse.LiveAtEntry | crates/grenat_codegen/src/liveness.rs:71-77 | A variable is live at the entry if and only if some evaluation of the tree uses it before giving it a value. |
| LastUse.LastOfThemMoves | crates/grenat_codegen/src/liveness.rs:100-106 | Of the reads of one variable that evaluating an expression makes, the last moves and no other. |
| LastUse.RightOperandMoves | crates/grenat_codegen/src/translate/calls.rs:139-140 | In `s + s`, for any plain operator, the read of the right operand moves and that of the left one does not. |
| LastUse.ItemAssignmentMoves | crates/grenat_codegen/src/translate/mod.rs:384-440 | In `s[s] = s` the read of the index moves, the value coming first; in `s[s] += s` that of the value, which comes last. |
| Assignment.AssignedBeforeRead | crates/grenat_codegen/src/infer/mod.rs:262-302 | A variable some path reads first is certain before; one certain after a path that leaves it alone is certain before. |
| Assignment.AssignedIsExact | crates/grenat_codegen/src/infer/mod.rs:262-302 | Skipped operands counted, inference refuses code if and only if some path reads a variable that was not certain before giving it a value, and what is certain after is exactly what every path gives a value. |
| Assignment.NeverIsExact | crates/grenat_codegen/src/infer/mod.rs:194-204 | Inference holds that control never goes past some code if and only if no path reaches its end. |
| Assignment.OperandsAreCountedOn | crates/grenat_codegen/src/infer/ops.rs:103-114 | What inference makes of code is what it would make of it if no right operand of a short-circuit operator were ever skipped. |
| Assignment.MisreadIsSeenRead | crates/grenat_codegen/src/infer/calls.rs:53-60 | A builtin alone comes before any variable of its name, which the analysis therefore holds live from the start. |
| Assignment.DirectIsSeen | crates/grenat_codegen/src/infer/ops.rs:103-114 | Without `exit`, misread builtins and assignments in right operands, the analysis sees what runs, and skipped operands change nothing. |
| Detours.SoundIffOnlyParametersLive | crates/grenat_codegen/src/liveness.rs:1-22 | A plan fitting what the analysis sees is sound for what runs if and only if the parameters fit what it sees live at the entry; otherwise some run faults, unless a builtin is misread. |
| Detours.StepAsSeen | crates/grenat_codegen/src/liveness.rs:24-51 | While only what is seen live is owned, each step of what runs keeps it so, an `exit` releasing it all. |
| Detours.WalkPast | crates/grenat_codegen/src/infer/mod.rs:194-204 | A variable live but not owned is still so after some way through code that control goes past, or a step on it faults. |
| Detours.WalkToEnd | crates/grenat_codegen/src/infer/mod.rs:194-204 | Through code that control never goes past, some way to its end faults. |
| Repair.RepairKeepsFlow | crates/grenat_codegen/src/liveness.rs:121-215 | The analysis, blind to builtins, sees of a body what `Seen` says, and of the repaired one what runs with each `exit` a `return`; no `return` there lacks a value. |
| Repair.SamePlan | crates/grenat_codegen/src/translate/io.rs:84-95 | A plan for the code with each `exit` a `return` fits the code itself. |
| Failures.BareReturnHasNoPlan | crates/grenat_codegen/src/liveness.rs:191 | A procedure that is one bare `return` is accepted, runs soundly with nothing to drop, and gets no plan. |
| Failures.ExitBreaksPlan | crates/grenat_codegen/src/liveness.rs:194-212 | `if c; exit(1) else x = "s" end; puts(x)` is accepted and reads nothing unassigned, but faults on some run under its plan. |
| Failures.OperandBreaksPlan | crates/grenat_codegen/src/infer/ops.rs:103-114 | A function that assigns `x` in both branches of an `if` to the right of `&&`, then reads it, is accepted only because the operand is counted on, gets a plan, and under any plan some run faults. |
| Failures.LoneBuiltinBreaksPlan | crates/grenat_codegen/src/liveness.rs:132 | `if c; p end; p = ""; p` is accepted and reads nothing unassigned, but the first `p`, a builtin, has the other side drop the variable `p`, and faults. |
| Failures.NamesakesBreakPlan | crates/grenat_codegen/src/translate/mod.rs:121-128 | A function of two object parameters of one name is accepted, and loses the first. |
| Ownership.PlanIsSound | crates/grenat_codegen/src/liveness.rs:1-22 | Under a plan fitting what runs, no read, drop or overwrite is wrong in any run, the owning variables are exactly those some continuation reads before redefining, and nothing is owned once the function is left, if and only if the parameters fit what is live at the entry. |
| Ownership.EntersLive | crates/grenat_codegen/src/translate/mod.rs:121-145 | After the parameters are received and the dead ones dropped, exactly the live variables own a reference if and only if the parameters fit them. |
| Ownership.OwnedIsLive | crates/grenat_codegen/src/liveness.rs:41-68 | The same from any point inside a function: it is kept by each step, whatever the branches decide. |
| Ownership.StepOwnsLive | crates/grenat_codegen/src/liveness.rs:24-51 | One step under a fitting plan takes the set of owning variables from the live set to the next live set, without fault, and the plan still fits. |
| Ownership.EntersBlock | crates/grenat_codegen/src/liveness.rs:218-234 | Entering an inlined block binds its parameters and drops the dead ones, so that exactly the live set of its body is owned. |
| Ownership.WrongSteps | crates/grenat_codegen/src/translate/mod.rs:358-383 | What is wrong of a step: reading a variable that owns no reference, giving a value to one that owns one, dropping on an edge one that owns none. |
| Ownership.WrongEntries | crates/grenat_codegen/src/liveness.rs:218-234 | Going into a block is wrong exactly if it drops what owns no reference, binds what owns one, or drops a parameter it does not bind. |
| Ownership.LivenessIsExact | crates/grenat_codegen/src/liveness.rs:121-215 | A variable is live at a point if and only if some continuation reads it before giving it a new value. |
| ControlFlow.TransferForm | crates/grenat_codegen/src/liveness.rs:121-215 | Every transfer has the form gen ∪ (after ∩ pass), gen and pass depending on the code alone. |
| ControlFlow.HeaderIsLeastFixedPoint | crates/grenat_codegen/src/liveness.rs:236-248 | The live set at a loop header is a fixed point of a round, and below every set a round does not grow. |
| ControlFlow.TwoRounds | crates/grenat_codegen/src/liveness.rs:236-248 | Started from the set after the loop, the first round reaches the header and the second confirms it. |
| Liveness.Analysis.Sequence | crates/grenat_codegen/src/liveness.rs:92-98 | Statements and operands are analysed from the last: the live set and the annotations of their code, and no other annotation changed. |
| Liveness.Analysis.ReadVar | crates/grenat_codegen/src/liveness.rs:100-106 | A read of an object moves exactly when the variable is dead after it, and makes it live. |
| Liveness.Analysis.DefineVar | crates/grenat_codegen/src/liveness.rs:108-114 | An assignment is marked dead exactly when its variable is dead after it, and ends its liveness. |
| Liveness.Analysis.SetEdge | crates/grenat_codegen/src/liveness.rs:116-118 | Owning the variables live at the branch, taking this edge drops without fault exactly those not live on its side; the other edge and the other nodes keep their annotations. |
| Liveness.Analysis.Expr | crates/grenat_codegen/src/liveness.rs:121-215 | For every supported node: an answer unless a `return` inside lacks a value, then the live set before it and annotations that fit its code; those of other nodes are kept. |
| Liveness.Analysis.OpAssignment | crates/grenat_codegen/src/liveness.rs:121-215 | `x += e` reads, evaluates, then defines; `x[i] += e` evaluates the array, the index and the value, then stores: both fit the code they lower to. |
| Liveness.Analysis.Operands | crates/grenat_codegen/src/liveness.rs:121-215 | Binary operators, short-circuit ones with their skipped edge, fit the code they lower to, which evaluates the left operand first (`Evaluation.LoweredAsEvaluated`). |
| Liveness.Analysis.Conditional | crates/grenat_codegen/src/liveness.rs:121-215 | Both arms and both edges of an `if`, without `else` too, fit the code they lower to. |
| Liveness.Analysis.Arms | crates/grenat_codegen/src/liveness.rs:121-215 | Both arms are analysed from the set after the `if`, neither spoiling the annotations of the other. |
| Liveness.Analysis.Segments | crates/grenat_codegen/src/liveness.rs:121-215 | Interpolated expressions are analysed from the last to the first. |
| Liveness.Analysis.Assignment | crates/grenat_codegen/src/liveness.rs:121-215 | An assignment ends the liveness of its variable before its value is evaluated, and fits the code it lowers to. |
| Liveness.Analysis.CallParts | crates/grenat_codegen/src/liveness.rs:121-215 | Receiver, arguments and inlined block are analysed in reverse evaluation order, and fit the code of the call. |
| Liveness.Analysis.WhileRound | crates/grenat_codegen/src/liveness.rs:121-215 | A round of a `while` from a guessed header gives the next guess and the annotations of that guess. |
| Liveness.Analysis.BlockRound | crates/grenat_codegen/src/liveness.rs:218-234 | The same for a block inlined as a loop body, its unread object parameters listed as dead. |
| Liveness.Analysis.FixedPoint | crates/grenat_codegen/src/liveness.rs:236-248 | Unless a `return` inside lacks a value, the rounds stop, at the live set of the loop, and the annotations left by the last one are those of that set. |
| Liveness.AnnotatedFrame | crates/grenat_codegen/src/liveness.rs:41-51 | A plan still fits code whose nodes were not annotated again: nested overwrites do not spoil it. |
| Scheduler.SingleHolder | crates/grenat_green/src/scheduler.rs:196-254 | In every reachable state a task has at most one holder (queue entry, worker or pushing waker): one bringing it iff queued, one executing it iff running or notified, none iff parked or done. |
| Scheduler.ReturnsWhenDone | crates/grenat_green/src/scheduler.rs:160-254 | A worker returns only when the queue is empty, nobody is about to push, and every task is done and counted. |
| Scheduler.NoLostNotification | crates/grenat_green/src/scheduler.rs:46-50 | While a worker sleeps each queued task has its own awake worker or pending notification; with no live task left, a notification of all is pending. |
| Scheduler.TaskAutomaton | crates/grenat_green/src/task.rs:22-66 | Every step of every run moves a task along the five-state automaton only: a notified task is queued before it can park. |
| Scheduler.WakeTakesEffect | crates/grenat_green/src/task.rs:46-66 | `wake` retries until its task is queued, notified or done. |
| Scheduler.StepKeepsInv | crates/grenat_green/src/scheduler.rs:65-254 | Each action of each worker and waker keeps places, live count, sleepers and end of run consistent, and each task at one place of the queue at most. |
| Scheduler.StepKeepsCount | crates/grenat_green/src/scheduler.rs:65-82 | The live count is the number of tasks not yet counted as finished. |
| Scheduler.TakenInOrder | crates/grenat_green/src/scheduler.rs:46-50 | Over every run, the tasks queued by whoever queues them, behind those that were, are in order those taken and then those left. |
| Scheduler.NobodyOvertakes | crates/grenat_green/src/scheduler.rs:199-208 | A task with n before it in the queue is the (n + 1)st taken, whatever is queued meanwhile. |
| Scheduler.TurnOfYielding | crates/grenat_green/src/scheduler.rs:134-139 | A task taken that yields ends up behind all those queued. |
| Scheduler.TurnOfParking | crates/grenat_green/src/scheduler.rs:196-245 | A task taken that parks leaves the queue, and its worker looks for another. |
| Scheduler.WokenBeforeParking | crates/grenat_green/src/scheduler.rs:196-245 | A task woken before it could park is queued behind all others instead. |
| Scheduler.WakeQueues | crates/grenat_green/src/task.rs:46-66 | A call to `wake` nobody disturbs queues a parked task, last. |
| Scheduler.WakeMarks | crates/grenat_green/src/task.rs:46-66 | It leaves a mark on a running task, and does nothing to others. |
| Scheduler.WorkersGoOn | crates/grenat_green/src/scheduler.rs:196-254 | In every reachable state, a worker that has not returned has a step of its own to take, unless another one holds the lock. |
| Scheduler.WakersGoOn | crates/grenat_green/src/task.rs:46-66 | So has whoever wakes a task. |
| GreenMutex.MutualExclusion | crates/grenat_green/src/sync.rs:43-67 | At most one guard exists, and one does exactly when the mutex is locked, barging and spurious wake-ups included. |
| GreenMutex.NobodyStranded | crates/grenat_green/src/sync.rs:23-67 | Whenever the mutex is free while tickets wait, some task whose ticket was removed, never a mere newcomer, takes the lock by its own steps alone. |
| GreenMutex.UnlockTakesOldest | crates/grenat_green/src/sync.rs:61-67 | An unlock frees the mutex and takes the oldest ticket that waits, to wake its task; the others keep waiting. |
| GreenMutex.LockedWaitsLast | crates/grenat_green/src/sync.rs:46-53 | A task that finds the mutex locked waits behind all others. |
| GreenMutex.TasksGoOn | crates/grenat_green/src/sync.rs:43-67 | In every reachable state, a task that is not parked has a step of its own to take, unless another one is inside the latch. |
| GreenMutex.StepKeepsInv | crates/grenat_green/src/sync.rs:43-67 | Tickets are unique and held by one waiting task each; a popped one is woken or about to be. |
| Condvar.NoMissedNotification | crates/grenat_green/src/sync.rs:107-129 | A task parked while the condition holds is about to be woken, or still queued with a notifier to come, whether it notifies while holding the mutex or after. |
| Condvar.TakenTicketsAreWoken | crates/grenat_green/src/sync.rs:124-129 | Each ticket a notification took belongs to a task that is not left parked. |
| Condvar.TasksGoOn | crates/grenat_green/src/sync.rs:107-129 | In every reachable state, a task that is not parked has a step of its own to take, unless it needs the mutex another one holds. |
| Channel.NothingLost | crates/grenat_green/src/channel.rs:33-82 | While the receiver exists the values accepted are those received then those queued, in order; `None` comes only with no sender left and everything received. |
| Channel.EndIsFinal | crates/grenat_green/src/channel.rs:48-82 | After `None` nothing is accepted. |
| Channel.ReceiverNeverStalls | crates/grenat_green/src/channel.rs:35-82 | A receiver parked with a value queued, or with no sender left, is about to be woken. |
| Channel.SentIsAccepted | crates/grenat_green/src/channel.rs:33-45 | In every reachable state, a value sent while the receiver exists is accepted, and a parked receiver woken for it. |
| Channel.LastDropEnds | crates/grenat_green/src/channel.rs:55-66 | The last sender dropped leaves none, every value still queued, and a parked receiver woken. |
| Channel.LookTakesNext | crates/grenat_green/src/channel.rs:68-82 | `recv` gives the next value accepted and not received; `None` once there is none and no sender is left; otherwise it waits. |
| Channel.CloneThenDrop | crates/grenat_green/src/channel.rs:48-66 | A sender cloned then dropped leaves the channel as it was. |
| Channel.TasksGoOn | crates/grenat_green/src/channel.rs:33-82 | In every reachable state, a task inside an operation that is not parked has a step of its own to take, unless another one is inside the latch. |
| Parking.WithoutMembers | crates/grenat_green/src/sync.rs:43-59 | Withdrawing a ticket removes that one and keeps the others, each once. |
| Shapes.IndexDescribes | crates/grenat_codegen/src/shapes.rs:13-52 | The shape numbered for a heap type is below the count, and described with the kind and slots the type calls for. |
| Shapes.IndexIsInjective | crates/grenat_codegen/src/shapes.rs:25-32 | Different heap types have different shapes. |
| Heap.SameRootsSameHeap | crates/grenat_runtime/src/release.rs:18-79 | Balanced heaps with the same outside references that agree on shared objects are the same: nothing leaked, nothing was lost, every count is right. |
| Heap.NoStray | crates/grenat_codegen/src/structs.rs:1-4 | No object can be held up by unreachable objects alone, as structs do not contain themselves. |
| Heap.FreeCell | crates/grenat_runtime/src/release.rs:66-79 | Freeing an object hands its references to whoever releases them. |
| Heap.Objects.Alloc | crates/grenat_codegen/src/marshal.rs:36-59 | An object is new, with a count of one; nothing else changes. |
| Heap.Objects.Retain | crates/grenat_codegen/src/marshal.rs:94-98 | One more outside reference, and only that count changes. |
| Heap.Objects.Release | crates/grenat_runtime/src/release.rs:22-50 | One outside reference less, through the described shape; what is left of the heap is unchanged and balanced. |
| Heap.Objects.Free | crates/grenat_runtime/src/release.rs:53-79 | The last reference gone, the object and what it alone held are freed. |
| Marshal.Write | crates/grenat_codegen/src/marshal.rs:36-59 | For every value that fits: only new objects are added, holding new ones only, each count right, and reading the result gives the value back; integers are written modulo 2⁶⁴, booleans as 0 or 1, floats as their bits. |
| Marshal.WriteAll | crates/grenat_codegen/src/marshal.rs:43-56 | The same for the items of an array or the fields of a record, in order. |
| Marshal.WriteArray | crates/grenat_codegen/src/marshal.rs:43-46 | An array that fits, an empty one of unknown element type included, is written as one new object over its items. |
| Marshal.WriteRecord | crates/grenat_codegen/src/marshal.rs:47-55 | A record that fits is written as one new object over its fields, and reads back with its names. |
| Marshal.ReadFrame | crates/grenat_codegen/src/marshal.rs:61-84 | A value reads the same in any heap that preserves its objects, whatever their counts. |
| Marshal.ReadBySlots | crates/grenat_codegen/src/marshal.rs:61-84 | Whatever is in the heap: an integer is read modulo 2⁶⁴, a boolean by its low byte, and an array or a record is what each of its slots is read as, in order, with the names of the fields. |
| Marshal.ReadFits | crates/grenat_codegen/src/marshal.rs:16-34 | What native code gives back fits its type, unless it is an array of unknown elements that is not empty. |
| Marshal.BitsRoundTrip | crates/grenat_codegen/src/marshal.rs:38-67 | 64-bit two's complement integers and booleans come back from their bits; those of an integer differ from it by a multiple of 2⁶⁴. |
| Marshal.Release | crates/grenat_codegen/src/marshal.rs:86-92 | A value is released through the shape of its type; scalars are not references. |
| Marshal.ThereAndBack | crates/grenat_codegen/src/marshal.rs:16-99 | Writing, reading and releasing a value gives it back and leaves the heap as it was. |
| Native.Call | crates/grenat_codegen/src/native.rs:86-163 | A call happens exactly when the function is compiled and each argument fits its parameter, or is an alias of an earlier array of that type. The value is an alias if and only if it is one of the arrays given; each array given to a function that mutates comes back as native code left it, and nothing else does. Whatever the outcome, the heap is left exactly as it was. |
| Native.Run | crates/grenat_codegen/src/native.rs:110-163 | Aliases get the very word of their array; the result is that of the heap native code left, an alias if and only if it is one of the arrays given; each array given to a function that mutates is read back, and no other argument. |
| Native.HandOver | crates/grenat_codegen/src/native.rs:110-122 | Each argument is one new outside reference to new objects that read back as it. |
| Native.HandOverOne | crates/grenat_codegen/src/native.rs:111-121 | An alias is its array's word, retained; any other argument is written. |
| Native.Enter | crates/grenat_codegen/src/native.rs:108-128 | Native code starts with all its arguments ready: their references are its own, those of the boundary apart. |
| Native.Keep | crates/grenat_codegen/src/native.rs:123-128 | Each array argument gets a second reference, and no older object changes. |
| Native.Success | crates/grenat_codegen/src/native.rs:140-158 | Result and arrays are read while alive, and the result's reference is dropped. |
| Native.FindKept | crates/grenat_codegen/src/native.rs:144-147 | A kept array with the word of the result, or none exists. |
| Native.Collect | crates/grenat_codegen/src/native.rs:150-156 | Exactly the kept arrays of a function that mutates are read back: all those given as arrays, by `Native.KeptAreArrays`. |
| Native.KeptAreArrays | crates/grenat_codegen/src/native.rs:123-128 | The arguments kept are the arrays given, aliases apart. |
| Native.Drop | crates/grenat_codegen/src/native.rs:159-161 | The kept references are dropped, once each. |
| Native.GivingBackConforms | crates/grenat_codegen/src/native.rs:86-163 | Code that returns its argument, of any type, keeps the promise asked of native code. |
| StructTable.FiniteIffChainsEnd | crates/grenat_codegen/src/structs.rs:1-4 | A struct is finite if and only if every chain of its fields goes through annotated plain structs and ends in scalars, without a cycle. |
| StructTable.Search.IsNative | crates/grenat_codegen/src/structs.rs:124-151 | The memoised search answers whether the struct is finite, also while others are being searched; what it remembers is right, and it ends. |
| StructTable.Search.AllNative | crates/grenat_codegen/src/structs.rs:139-147 | All annotated fields are scalars or finite structs, or the struct is not finite. |
| StructTable.NativeNames | crates/grenat_codegen/src/structs.rs:45-53 | The names kept are exactly those of finite structs, in the order of the program. |
| StructTable.FromProgram | crates/grenat_codegen/src/structs.rs:36-68 | The table has exactly the finite structs, in the order of the program and numbered by name; each field has the type its annotation names, shown as the annotation is written; a rank falls from a struct to those inside it. |
| StructTable.Define | crates/grenat_codegen/src/structs.rs:59-66 | Every annotated field of a finite struct gets the type its annotation names, shown as it is written. |
| StructTable.FieldResolves | crates/grenat_codegen/src/structs.rs:82-95 | The annotation of a field of a finite struct names a type, never an array, and a struct only if less deep. |
| StructTable.TypeShowsAsWritten | crates/grenat_codegen/src/structs.rs:83-95 | Any annotation that has a type is written as that type is shown. |
| StructTable.AnnotationHasType | crates/grenat_codegen/src/structs.rs:98-110 | What a type is shown as, read as an annotation, has that type if and only if no struct in it is named as a scalar and it is no array of unknown elements. |
| StructTable.ScalarsHaveTypes | crates/grenat_codegen/src/structs.rs:87-90 | Without structs, the single names that have a type are those of the scalars, each shown as itself. |
| StructTable.FieldsInOrder | crates/grenat_codegen/src/structs.rs:117-122 | The fields are those of the annotated members that are no instance variables, one after the other. |
| StructTable.UntypedAnywhere | crates/grenat_codegen/src/structs.rs:138-139 | A field without annotation anywhere among the members counts, an instance variable does not. |
| StructTable.LastDefinitionCounts | crates/grenat_codegen/src/structs.rs:37-44 | Of several definitions of a name, the last one counts. |
| Eligibility.Select | crates/grenat_codegen/src/eligibility.rs:26-59 | What is compiled and rejected, the signatures each function was typed with being exactly those compiled, and the mutation marks. |
| Eligibility.Round | crates/grenat_codegen/src/eligibility.rs:42-52 | One round keeps those that type against the given signatures and lists the others with their reason, each in order. |
| Eligibility.SurvivorsAreConsistent | crates/grenat_codegen/src/eligibility.rs:1-10 | Every compiled function types against exactly the compiled signatures. |
| Eligibility.SurvivorsAreGreatest | crates/grenat_codegen/src/eligibility.rs:1-10 | With distinct names, and inference monotone on signatures that hide the same builtins, every set that types against itself and has each candidate hiding a builtin is compiled. |
| Eligibility.HidingLosesAFunction | crates/grenat_codegen/src/infer/calls.rs:55-60 | Where a candidate `puts` hides the builtin, a function that prints is not compiled, though it could be without it. |
| Eligibility.SelectionSplits | crates/grenat_codegen/src/eligibility.rs:40-59 | Each candidate is either compiled or rejected, once. |
| Eligibility.RejectedForAReason | crates/grenat_codegen/src/eligibility.rs:40-59 | A candidate is rejected for what inference found with the signatures of some candidates among which it is, and all those compiled are. |
| Eligibility.LastSigCounts | crates/grenat_codegen/src/eligibility.rs:41 | Of several signatures of a name, the last one counts. |
| Eligibility.Mutations | crates/grenat_codegen/src/eligibility.rs:61-79 | A function is marked if and only if a chain of calls inside the set reaches one that modifies an array itself. |
| Eligibility.Mutating | crates/grenat_codegen/src/eligibility.rs:62-75 | The growing set stops at exactly those functions. |
| Eligibility.MoreMutating | crates/grenat_codegen/src/eligibility.rs:66-70 | The functions found in a round are callers of mutating ones not known yet; when there is none, every caller is known. |
| Rates.NewRate | crates/grenat_limits/src/rate.rs:16-28 | A rate exists exactly for 1 to 2³² − 1 calls in more than nothing and at most 366 days; its period is that time to the nearest nanosecond. |
| Rates.Rate.Interval | crates/grenat_limits/src/rate.rs:31-33 | count intervals fit in the period, and leave less than count nanoseconds. |
| TokenBucket.Bucket.Reserve | crates/grenat_limits/src/bucket.rs:37-45 | A turn takes one interval after all booked ones and goes at most a burst before it, never in the past. |
| TokenBucket.Bucket.Refund | crates/grenat_limits/src/bucket.rs:47-53 | The last reservation is undone: every later call is granted as if it had not been made; a turn with one booked after it stays spent. |
| TokenBucket.OutstandingTurnsAreDisjoint | crates/grenat_limits/src/bucket.rs:11-53 | Over any run of reservations and refunds, outstanding turns occupy disjoint intervals before the next booking. |
| TokenBucket.SecondRefundIsSafeIff | crates/grenat_limits/src/bucket.rs:47-53 | After any run, giving any turn back again keeps the bookkeeping sound, and each later call a turn of its own, if and only if the bucket is not at the turn's end or no outstanding turn ends after its start. |
| TokenBucket.SecondRefundAtOnce | crates/grenat_limits/src/bucket.rs:47-53 | A second refund with nothing between changes nothing. |
| TokenBucket.SecondRefundHandsTurnTwice | crates/grenat_limits/src/bucket.rs:47-53 | With any rate that spaces calls and after any run: a call asks, is cancelled, another asks at that time; giving the first turn back again books the second call's turn once more. |
| TokenBucket.PlacesApart | crates/grenat_limits/src/bucket.rs:37-45 | The turn m places later goes at least m − count + 1 intervals later. |
| TokenBucket.WindowHolds | crates/grenat_limits/src/bucket.rs:1-9 | A window holds at most count + ⌊width / interval⌋ calls. |
| TokenBucket.RefundLeavesNoTrace | crates/grenat_limits/src/bucket.rs:47-53 | A reservation refunded at once changes no later booking under a clock that does not go back. |
| TokenBucket.RefinesTokens | crates/grenat_limits/src/bucket.rs:1-9 | The instants granted are those of a bucket of count tokens refilled every interval, from any matching state. |
| TokenBucket.RefinesFullBucket | crates/grenat_limits/src/bucket.rs:32-45 | A new bucket grants as a full bucket of tokens. |
| Slots.Queue.constructor | crates/grenat_limits/src/slots.rs:16-18 | At least one slot, none taken, nobody waiting. |
| Slots.Queue.Enqueue | crates/grenat_limits/src/slots.rs:21-26 | A ticket never given before, last in the queue. |
| Slots.Queue.TryEnter | crates/grenat_limits/src/slots.rs:28-36 | A slot is taken if and only if one is free and no earlier ticket waits. |
| Slots.Queue.Leave | crates/grenat_limits/src/slots.rs:38-41 | Exactly that ticket leaves; the others keep their order. |
| Slots.Queue.Release | crates/grenat_limits/src/slots.rs:43-46 | The first waiting ticket, whichever, can enter now; an admission followed by a release leaves only its ticket gone from the queue. |
| Limiter.SlotsAreCounted | crates/grenat_limits/src/limiter.rs:50-131 | Slots in use are the calls between admission and the end of their permit, never above the limit, cancellations included. |
| Limiter.FirstComeFirstServed | crates/grenat_limits/src/limiter.rs:55-71 | The queue holds exactly the waiting calls' tickets in order; admission follows ticket order. |
| Limiter.NoTurnTwice | crates/grenat_limits/src/limiter.rs:72-97 | No two calls hold overlapping turns, whatever is cancelled and refunded. |
| Limiter.RefundsOnce | crates/grenat_limits/src/limiter.rs:79-97 | A call gives its turn back once: a second time has no effect, whatever happens between. |
| Limiter.GrantedOnTime | crates/grenat_limits/src/limiter.rs:72-105 | A permit is granted only after its turn's instant, with no pause left at the last look. |
| Limiter.NoCallDuringPause | crates/grenat_limits/src/limiter.rs:94-111 | Over every run, a permit is granted at an instant no earlier than the end of every pause ordered before its last look. |
| Limiter.LookDecides | crates/grenat_limits/src/limiter.rs:94-111 | A call about to go is let through if and only if every pause ordered so far is over; otherwise it waits again. |
| Limiter.BookedAfterPauses | crates/grenat_limits/src/limiter.rs:72-77 | A turn is booked no earlier than now and than the end of every pause ordered so far. |
| Limiter.EntersInTurn | crates/grenat_limits/src/limiter.rs:55-71 | A waiting call gets a slot if and only if one is free and no earlier call waits. |
| Limiter.GrantedInTime | crates/grenat_limits/src/limiter.rs:86-99 | A call nobody disturbs gets its permit as soon as its turn has come and the pause is over, and not before. |
| Limiter.CancelledLeavesNoTrace | crates/grenat_limits/src/limiter.rs:78-97 | A call cancelled after booking gives its slot back, and later calls get the turns they would have got without it if nobody booked between. |
| Limiter.CancelledInQueue | crates/grenat_limits/src/limiter.rs:64-69 | A call cancelled while it waits for a slot leaves the queue and takes none. |
| Calendar.CivilByYears | crates/grenat_limits/src/retry_after.rs:102-111 | The era arithmetic counts 365 days a year, one more in leap years, and the days into the year. |
| Calendar.NextDayCounts | crates/grenat_limits/src/retry_after.rs:93-111 | Days are 0 on 1970-01-01 and grow by exactly one from each valid date to the next. |
| Calendar.DatesInOrder | crates/grenat_limits/src/retry_after.rs:102-111 | A later date has more days: no two dates are the same day. |
| HttpDate.ImfReads | crates/grenat_limits/src/retry_after.rs:32-39 | An instant written as an IMF-fixdate is read back. |
| HttpDate.AsctimeReads | crates/grenat_limits/src/retry_after.rs:50-53 | An instant written as by asctime is read back, one-digit days with their two spaces included. |
| HttpDate.Rfc850Reads | crates/grenat_limits/src/retry_after.rs:40-72 | A two-digit year is read in the assumed century, or the one before beyond fifty years; an instant of that century within the horizon is read back. |
| HttpDate.CenturyBefore | crates/grenat_limits/src/retry_after.rs:66-72 | A date of the century before is meant exactly when its day exists in the assumed century, more than fifty years ahead. |
| HttpDate.OnlyDates | crates/grenat_limits/src/retry_after.rs:32-73 | Whatever text is read as a date has the words of one of the three formats, with `GMT` where it belongs, and is a day that exists at a time of day. |
| HttpDate.ClockShape | crates/grenat_limits/src/retry_after.rs:55-64 | A time of day is three numbers of two characters between colons, never after 23:59:60. |
| HttpDate.ExampleReads | crates/grenat_limits/src/retry_after.rs:3-10 | The date of section 5.6.7 of RFC 9110 is read as its instant in each format. |
| HttpDate.MonthNames | crates/grenat_limits/src/retry_after.rs:83-85 | Each month is read by its name. |
| HttpDate.NeverBeyondFifty | crates/grenat_limits/src/retry_after.rs:66-72 | Whatever the text, a two-digit year never gives more than `now` plus fifty years of 365.2425 days. |
| HttpDate.CenturyIsRight | crates/grenat_limits/src/retry_after.rs:87-91 | The assumed century is that of `now`'s calendar year if and only if as many years of 365.25 days have passed since 1970. |
| HttpDate.CenturyStartsLate | crates/grenat_limits/src/retry_after.rs:87-91 | On 2000-01-01 at midnight the assumed century is 1900. |
| HttpDate.ClockReads | crates/grenat_limits/src/retry_after.rs:55-64 | Any time of day with two digits each, leap second included, is read back. |
| PrattParser.ExprReads | crates/grenat_parser/src/exprs.rs:28-201 | Tokens of a well-parenthesised expression, before anything that does not continue it, are read as its tree; which parentheses that takes is `Precedence.TwoOperators`. |
| PrattParser.BinaryReads | crates/grenat_parser/src/exprs.rs:117-138 | An operand is read whole at any power up to its own, then its operators go on. |
| PrattParser.UnaryReads | crates/grenat_parser/src/exprs.rs:140-162 | Prefix operators and negative literals are read as written. |
| Regrouping.JoinIsProper | crates/grenat_parser/src/exprs.rs:117-138 | What is read from two operands and an operator: the same tokens, grouped as the binding powers want. |
| Regrouping.JoinDiffers | crates/grenat_parser/src/exprs.rs:117-138 | If either operand does not fit, the tree read has its top elsewhere. |
| Regrouping.NormalIsProper | crates/grenat_parser/src/exprs.rs:28-201 | The regrouped expression has the same tokens and all the parentheses it needs. |
| Regrouping.ReadsNormal | crates/grenat_parser/src/exprs.rs:28-201 | What is read where operands lack parentheses is the regrouped expression: another tree, unless none was missing. |
| Reading.ReadsBackIffProper | crates/grenat_fmt/src/exprs.rs:7-34 | However a tree is written, its text reads back as it if and only if every operand, receiver and target that needs parentheses has them. |
| Reading.ExprWritten | crates/grenat_parser/src/exprs.rs:28-201 | Whatever the parser reads from a text with no comma left before the end of a list, the text is a well-parenthesised writing of it. |
| Reading.OneWriting | crates/grenat_parser/src/exprs.rs:203-233 | Two writings of one tree with the same tokens are the same: the text tells where its parentheses are. |
| Reading.TextsAreDistinct | crates/grenat_fmt/src/exprs.rs:7-34 | Writings with all the parentheses they need, of whatever trees, have the same text only if they are the same writing. |
| Printer.ReadsBackIffClean | crates/grenat_fmt/src/exprs.rs:117-215 | A tree printed with the printer's table and read with the parser's is itself if and only if no `**` has a left operand that gives its end away. |
| Printer.PairsAreNecessary | crates/grenat_fmt/src/exprs.rs:172-183 | However a tree is written, with whatever parentheses, if it reads back then every pair the printer adds between operators is there. |
| Printer.PowerOfNegationChanges | crates/grenat_fmt/src/exprs.rs:28 | The square of `!-x` is printed as the text of another tree. |
| Printer.TablesAgree | crates/grenat_fmt/src/exprs.rs:7-34 | The printer's binding powers are the parser's, on every operator. |
| Precedence.PowersByClass | crates/grenat_parser/src/exprs.rs:55-86 | One operator goes inside another on its right if and only if it is of a tighter class, or both are `**`, the classes being listed from `..` to `**`. |
| Precedence.TwoOperators | crates/grenat_parser/src/exprs.rs:117-138 | For all operators and operands, `x a y b z` is read with `y b z` inside `a` if `b` is of a tighter class or both are `**`, and with `x a y` inside `b` otherwise. |
| Precedence.MinusAndOperator | crates/grenat_parser/src/exprs.rs:140-162 | `-x b z` negates the power if `b` is `**`, and `x` alone otherwise; a number takes the sign as its own. |
| Precedence.BangAndOperator | crates/grenat_parser/src/exprs.rs:140-162 | `!x b z` negates `x` alone. |
| Precedence.AssignmentTakesAll | crates/grenat_parser/src/exprs.rs:18-53 | An assignment takes all that follows as its value, further assignments included, and is refused unless its target is a name, `x.name` or `x[…]`, parentheses apart. |
| Precedence.OperationShown | crates/grenat_fmt/src/exprs.rs:172-183 | Between operators, the printer puts parentheses exactly where an operand would otherwise be cut by the operator beside it; besides, around assignments, constructs that end by themselves, and a negation before `**`. |
| Precedence.PrefixShown | crates/grenat_fmt/src/exprs.rs:195-210 | After `-`, around what starts with a number, prefix operators, assignments and all operations but powers; after `!`, around operations and assignments. |
| Precedence.ReceiverShown | crates/grenat_fmt/src/exprs.rs:212-215 | Before `.name`, `[…]` and `?`, around operations, prefix operators and assignments. |
| Printer.Printer.Print | crates/grenat_fmt/src/exprs.rs:88-170 | Printing appends exactly the tokens of the expression with the parentheses decided, which are those of `Precedence.OperationShown`, `PrefixShown` and `ReceiverShown`. |
| Printer.Printer.MaybeParens | crates/grenat_fmt/src/exprs.rs:185-193 | Parentheses around the operand, or none. |
| Printer.Printer.PrintForm | crates/grenat_fmt/src/exprs.rs:254-291 | A call's name and arguments, an index or a `?`, after its receiver. |
| Printer.Printer.PrintList | crates/grenat_fmt/src/exprs.rs:387-412 | The expressions of a list in order, commas between them. |
| Base64.GroupRoundTrip | crates/grenat_imap/src/utf7.rs:42-47 | One to three bytes come back from their two to four sextets. |
| Base64.RoundTrip | crates/grenat_imap/src/utf7.rs:35-49 | Every byte string comes back from its sextets, whose number is known. |
| Base64.EncodeNumber | crates/grenat_imap/src/utf7.rs:42-47 | The sextets are the digits in base 64 of the number whose digits in base 256 are the bytes, the last one filled up with zero bits. |
| Base64.Alphabet | crates/grenat_imap/src/utf7.rs:6 | The alphabet: `A` to `Z`, `a` to `z`, `0` to `9`, `+`, and the last character. |
| Utf7.EncodeName | crates/grenat_imap/src/utf7.rs:8-25 | The loop writes the encoding of the name: plain characters, and each other run in base64 of its UTF-16. |
| Utf7.PlainIsKept | crates/grenat_imap/src/utf7.rs:12-19 | A printable character is written as it is, `&` as `&-`. |
| Utf7.RunIsOne | crates/grenat_imap/src/utf7.rs:12-25 | Any other run of characters, as long as it goes, is written as one. |
| Utf7.UnitsNumber | crates/grenat_imap/src/utf7.rs:40-47 | It is written as the digits in base 64 of the number whose digits are its UTF-16 units. |
| Utf7.Surrogates | crates/grenat_imap/src/utf7.rs:20-22 | A character beyond the first plane is a high and a low surrogate, of its ten high and ten low bits. |
| Utf7.ExampleFolder | crates/grenat_imap/src/utf7.rs:60-63 | A folder of the example of section 5.1.3 of RFC 3501 is written as there. |
| Utf7.Encoder.Flush | crates/grenat_imap/src/utf7.rs:35-49 | A pending run is written between `&` and `-`, and is no longer pending. |
| Utf7.Encoder.WriteGroups | crates/grenat_imap/src/utf7.rs:42-47 | The base64 of all the bytes, three at a time, the last group partial. |
| Utf7.Encoder.Add | crates/grenat_imap/src/utf7.rs:12-23 | Characters are added in order, a run flushed before each plain one and at the end. |
| Utf7.NameRoundTrip | crates/grenat_imap/src/utf7.rs:1-25 | A decoder of modified UTF-7 undoes the encoding of every name, surrogate pairs and partial groups included. |
| Utf7.EncodedIsPlain | crates/grenat_imap/src/utf7.rs:8-25 | The encoding is printable ASCII. |
| Utf7.QuotedReads | crates/grenat_imap/src/utf7.rs:27-33 | A quoted name is read back up to its own closing quote, whatever follows. |
| AudioData.DecodeBase64 | crates/grenat_llm/src/audio.rs:80-107 | Exactly padded base64 of the alphabet is accepted, and decoded to as many bytes as announced. |
| AudioData.DecodeGroups | crates/grenat_llm/src/audio.rs:98-105 | The groups of four decode in order to the bytes the text means, or a character outside of the alphabet refuses all. |
| AudioData.Gather | crates/grenat_llm/src/audio.rs:99-102 | The bits of a group, each character at its place, or none if a character is foreign. |
| AudioData.AudioRoundTrip | crates/grenat_llm/src/audio.rs:69-107 | Every byte string comes back from its padded base64, of the announced size. |
| AudioData.LengthIsExact | crates/grenat_llm/src/audio.rs:69-73 | The announced size is that of the bytes decoded, for every accepted text. |

## Left out

- Type inference and translation to machine code: what inference promises is `Liveness.Accepted`, its
  definite assignment and where control goes on, for the variables that hold objects. Types are not
  modelled, so it accepts more: an operand that is a single `return` or `exit`, say. Which variables are
  objects, which names are builtins, which calls are inlined and with which parameters are inputs of the
  analysis; a plan is keyed by node number.
- References held in temporaries, and what of them native code releases when it traps or exits: promised by the
  contract `Native.Conforms`, not shown.
- The order of the drops on an edge: an edge drops a set.
- Eligibility.SurvivorsAreGreatest: inference is any function, monotone on signatures that hide the same
  builtins; sets that lack a candidate hiding one are not covered, and may be left out
  (`Eligibility.HidingLosesAFunction`). Duplicate names of functions are refused before
  (`crates/grenat_types/src/collect.rs:15`).
- `signature` and the instance methods of structs: direct readings of the declarations.
- Heap.Objects.Free: an object leaves the heap before its children are released, where the runtime
  returns its memory after; no address is handed out in between.
- Marshal.WriteRecord: a record is allocated once its fields are written, where the source allocates
  it first and fills it.
- Memory exhaustion, alignment and the bytes of the shapes in the emitted module.
- Coroutine stacks, thread-locals, panic payloads and weak memory: atomics and locks are
  sequentially consistent steps. Timers and blocking calls appear as wake-ups at any time.
- Channel: one task at a time is inside `recv`. `Receiver::recv` takes a shared reference, so two
  tasks sharing a receiver could call it together, and the second would replace the waiter of the
  first; the documentation promises a single consumer (`crates/grenat_green/src/channel.rs:1`).
- Waiters that are threads rather than tasks park as tasks do; `Mutex::new`, guards and
  dereferencing are direct.
- `Limiter::refill`, which lets an old turn be refunded after it; the display of rates.
- Overflow of instants and durations: nanoseconds are unbounded.
- Rates.NewRate: seconds are real numbers rounded to the nearest nanosecond, not floats.
- `Retry-After` in seconds, and the refusal of every malformed date: signs in two-character numbers
  are accepted as the source accepts them. Texts of dates are taken as ASCII.
- Printer: command calls without parentheses, line breaks, chains, comments, heredocs, literals
  other than numbers, endless ranges, multiple assignment and jumps. Spaces and characters are left
  to the lexer: texts are token sequences, in which names are never followed by an argument.
- `if … end` and other constructs that end by themselves are one token; the ternary is not printed.
- Base64: shifts and masks are written as products and remainders, bits or-ed apart as sums.
