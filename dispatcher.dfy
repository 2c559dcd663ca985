/**
 * ScriptLauncher.runOneCommand (lines 105-255): look the command up, then run
 * its steps in order, each bracketed by startRequest/endRequest, stopping at
 * the first failure.
 *
 * Reflection (Class.forName, getMethod("main"), invoke) is a table from class
 * name to the behaviour of that class's main method; the request service and
 * the invocations are recorded in one trace.
 */
module Dispatcher {
  import opened Wrappers
  import opened StepTypes
  import opened Catalog
  import opened Listing

  /** The command whose first user argument names the class to run. */
  const Dsrun: string := "dsrun"

  /** The exception a failed main raises; `cause` is its cause's message, None when it has no cause. */
  datatype Failure = Failure(cause: Option<string>)

  /** How a call of a class's static main(String[]) ends. */
  datatype Invocation = Returned | Threw(failure: Failure)

  /** The classes the context class loader can load, with the behaviour of their main method. */
  type ClassTable = map<string, seq<string> -> Invocation>

  /** One entry of the trace: a request started, a main invoked, a request ended. */
  datatype Event = Start | Main(className: string, args: seq<string>) | End(failure: Option<Failure>)

  /** Exceptions that escape runOneCommand instead of becoming a status. */
  datatype CrashReason =
    | NullClassName          // Class.forName(null) throws NullPointerException
    | MissingRequestService  // the IllegalStateException of lines 211-215
    | NullCause              // cause.getMessage() on an exception without a cause (line 247)

  datatype Outcome = Status(code: nat) | Crash(reason: CrashReason)

  datatype Run = Run(outcome: Outcome, trace: seq<Event>)

  /** The result of one step: go on to the next step, or leave runOneCommand. */
  datatype StepResult = Continue(events: seq<Event>) | Stop(outcome: Outcome, events: seq<Event>)

  // ---------------------------------------------------------------------------
  // Argument vector (lines 161-206)

  /**
   * Leading raw arguments that are not passed on: the command name, and for
   * dsrun (the request is exactly "dsrun") the class name too.
   */
  function Skip(dsrun: bool): nat
  {
    if dsrun then 2 else 1
  }

  /** Forwarding is switched off only by the exact attribute value "false". */
  predicate PassUserArgs(step: Step)
  {
    step.passuserargs != Some("false")
  }

  /** The user's arguments that are passed on: none when forwarding is off or there are none past the skipped ones. */
  function UserArgs(dsrun: bool, args: seq<string>, step: Step): seq<string>
    requires |args| >= Skip(dsrun)
  {
    if !PassUserArgs(step) || |args| <= Skip(dsrun) then [] else args[Skip(dsrun)..]
  }

  /** The arguments main receives: the step's own arguments, then the user's. */
  function ArgVector(dsrun: bool, args: seq<string>, step: Step): seq<string>
    requires |args| >= Skip(dsrun)
  {
    step.argument + UserArgs(dsrun, args, step)
  }

  /**
   * The step's arguments come first, in order, then every raw argument past the
   * skipped ones, in order, unless forwarding is off.
   */
  lemma ArgVectorLayout(dsrun: bool, args: seq<string>, step: Step)
    requires |args| >= Skip(dsrun)
    ensures var r := ArgVector(dsrun, args, step);
      && |r| == |step.argument| + (if PassUserArgs(step) then |args| - Skip(dsrun) else 0)
      && r[..|step.argument|] == step.argument
      && forall i :: |step.argument| <= i < |r| ==> r[i] == args[i - |step.argument| + Skip(dsrun)]
  {
  }

  /** args.clone() (line 163). */
  method CloneArgs(args: seq<string>) returns (copy: array<string>)
    ensures fresh(copy) && copy[..] == args
  {
    copy := new string[|args|];
    for i := 0 to |args|
      invariant forall k :: 0 <= k < i ==> copy[k] == args[k]
    {
      copy[i] := args[i];
    }
  }

  /** Lines 176-188: a new array holding the entries of `source` from index x on. */
  method CopyFrom(source: array<string>, x: nat) returns (tail: array<string>)
    requires x <= source.Length
    ensures fresh(tail) && tail[..] == source[x..]
  {
    tail := new string[source.Length - x];
    for i := x to source.Length
      invariant forall k :: x <= k < i ==> tail[k - x] == source[k]
    {
      tail[i - x] := source[i];
    }
  }

  /** Lines 191-206: a new array holding the step's arguments followed by the entries of `rest`. */
  method Prepend(bits: seq<string>, rest: array<string>) returns (joined: array<string>)
    ensures fresh(joined) && joined[..] == bits + rest[..]
  {
    joined := new string[rest.Length + |bits|];
    var i := 0;
    while i < |bits|
      invariant 0 <= i <= |bits|
      invariant forall k :: 0 <= k < i ==> joined[k] == bits[k]
    {
      joined[i] := bits[i];
      i := i + 1;
    }
    while i < |bits| + rest.Length
      invariant |bits| <= i <= |bits| + rest.Length
      invariant forall k :: 0 <= k < |bits| ==> joined[k] == bits[k]
      invariant forall k :: |bits| <= k < i ==> joined[k] == rest[k - |bits|]
    {
      joined[i] := rest[i - |bits|];
      i := i + 1;
    }
  }

  /** Lines 163-206: clone the raw arguments, keep those past the skipped ones, then prepend the step's arguments. */
  method BuildUseArgs(request: string, args: seq<string>, step: Step) returns (useargs: array<string>)
    requires |args| >= 1
    requires request == Dsrun ==> |args| >= 2
    ensures fresh(useargs)
    ensures useargs[..] == ArgVector(request == Dsrun, args, step)
  {
    useargs := CloneArgs(args);
    var passargs := true;
    if step.passuserargs == Some("false") {
      passargs := false;
    }
    if |args| == 1 || (request == Dsrun && |args| == 2) || !passargs {
      useargs := new string[0];
    } else {
      var x := 1;
      if request == Dsrun {
        x := 2;
      }
      useargs := CopyFrom(useargs, x);
    }
    useargs := Prepend(step.argument, useargs);
  }

  // ---------------------------------------------------------------------------
  // Specification of the step loop (lines 128-254)

  /** Lines 137-148: the class to load, None when it is null. */
  function ClassName(dsrun: bool, args: seq<string>, step: Step): Option<string>
    requires |args| >= Skip(dsrun)
  {
    if dsrun then Some(args[1]) else step.className
  }

  /** One iteration of the step loop. */
  function RunStep(dsrun: bool, args: seq<string>, step: Step, classes: ClassTable, hasRequestService: bool): StepResult
    requires |args| >= 1
  {
    if dsrun && |args| < 2 then Stop(Status(1), [])
    else
      var name := ClassName(dsrun, args, step);
      if name.None? then Stop(Crash(NullClassName), [])
      else if name.value !in classes then Stop(Status(1), [])
      else if !hasRequestService then Stop(Crash(MissingRequestService), [])
      else
        var argv := ArgVector(dsrun, args, step);
        var begun := [Start, Main(name.value, argv)];
        match classes[name.value](argv)
        case Returned => Continue(begun + [End(None)])
        case Threw(f) => Stop(if f.cause.None? then Crash(NullCause) else Status(1), begun + [End(Some(f))])
  }

  /** Each step's result on its own: a step does not depend on the steps before it. */
  function StepResults(dsrun: bool, args: seq<string>, steps: seq<Step>, classes: ClassTable, hasRequestService: bool): seq<StepResult>
    requires |args| >= 1
  {
    seq(|steps|, j requires 0 <= j < |steps| => RunStep(dsrun, args, steps[j], classes, hasRequestService))
  }

  /** Entry j of `results` is what step j does. */
  ghost predicate StepOutcome(results: seq<StepResult>, request: string, args: seq<string>, steps: seq<Step>, classes: ClassTable, hasRequestService: bool, j: int)
    requires |args| >= 1
    requires |results| == |steps|
  {
    0 <= j < |steps| && results[j] == RunStep(request == Dsrun, args, steps[j], classes, hasRequestService)
  }

  /** The step loop over the steps' results: the first Stop ends the command; without one the status is 0. */
  function Pipeline(results: seq<StepResult>): Run
  {
    if results == [] then Run(Status(0), [])
    else
      match results[0]
      case Stop(o, events) => Run(o, events)
      case Continue(events) =>
        var rest := Pipeline(results[1..]);
        Run(rest.outcome, events + rest.trace)
  }

  /** What runOneCommand does with the given catalog, classes and arguments. */
  function Dispatch(catalog: seq<Command>, classes: ClassTable, hasRequestService: bool, args: seq<string>): Run
    requires |args| >= 1
  {
    match Lookup(catalog, args[0])
    case None => Run(Status(1), [])
    case Some(command) => Pipeline(StepResults(args[0] == Dsrun, args, command.steps, classes, hasRequestService))
  }

  /** Loop invariant of the step loop: `done` is the trace of the results before i, `all` the whole run. */
  ghost predicate Pending(results: seq<StepResult>, i: nat, done: seq<Event>, all: Run)
    requires i <= |results|
  {
    var rest := Pipeline(results[i..]);
    all == Run(rest.outcome, done + rest.trace)
  }

  lemma PendingAtStart(results: seq<StepResult>)
    ensures Pending(results, 0, [], Pipeline(results))
  {
    assert results[0..] == results;
  }

  lemma PendingAtEnd(results: seq<StepResult>, done: seq<Event>, all: Run)
    requires Pending(results, |results|, done, all)
    ensures all == Run(Status(0), done)
  {
    assert results[|results|..] == [];
  }

  lemma PendingStops(results: seq<StepResult>, i: nat, done: seq<Event>, all: Run)
    requires i < |results| && results[i].Stop?
    requires Pending(results, i, done, all)
    ensures all == Run(results[i].outcome, done + results[i].events)
  {
    assert results[i..][0] == results[i];
  }

  lemma PendingContinues(results: seq<StepResult>, i: nat, done: seq<Event>, all: Run)
    requires i < |results| && results[i].Continue?
    requires Pending(results, i, done, all)
    ensures Pending(results, i + 1, done + results[i].events, all)
  {
    assert results[i..][0] == results[i] && results[i..][1..] == results[i + 1..];
    var rest := Pipeline(results[i + 1..]);
    assert done + (results[i].events + rest.trace) == (done + results[i].events) + rest.trace;
  }

  // ---------------------------------------------------------------------------
  // The launcher's collaborators

  /**
   * The running kernel: what the class loader can resolve, whether the
   * RequestService is registered, and the trace of requests and main calls.
   */
  class Kernel {
    const classes: ClassTable
    const hasRequestService: bool
    var trace: seq<Event>

    constructor (classes: ClassTable, hasRequestService: bool)
      ensures this.classes == classes && this.hasRequestService == hasRequestService
      ensures trace == []
    {
      this.classes := classes;
      this.hasRequestService := hasRequestService;
      trace := [];
    }

    /** Class.forName: whether the class can be loaded. */
    method ForName(className: string) returns (found: bool)
      ensures found <==> className in classes
    {
      found := className in classes;
    }

    method StartRequest()
      requires hasRequestService
      modifies this
      ensures trace == old(trace) + [Start]
    {
      trace := trace + [Start];
    }

    method EndRequest(failure: Option<Failure>)
      requires hasRequestService
      modifies this
      ensures trace == old(trace) + [End(failure)]
    {
      trace := trace + [End(failure)];
    }

    /** getMethod("main") and invoke, on a loaded class. */
    method InvokeMain(className: string, args: seq<string>) returns (result: Invocation)
      requires className in classes
      modifies this
      ensures result == classes[className](args)
      ensures trace == old(trace) + [Main(className, args)]
    {
      result := classes[className](args);
      trace := trace + [Main(className, args)];
    }
  }

  // ---------------------------------------------------------------------------
  // runOneCommand

  /**
   * One pass of the step loop of runOneCommand: resolve the class, build the
   * arguments, bracket the call of main. None means go on with the next step.
   */
  method RunOneStep(kernel: Kernel, request: string, args: seq<string>, step: Step) returns (stop: Option<Outcome>)
    requires |args| >= 1
    modifies kernel
    ensures var r := RunStep(request == Dsrun, args, step, kernel.classes, kernel.hasRequestService);
      && (stop.None? <==> r.Continue?)
      && (r.Stop? ==> stop == Some(r.outcome))
      && kernel.trace == old(kernel.trace) + r.events
  {
    var className: string;
    if Dsrun == request {
      if |args| < 2 {
        return Some(Status(1));
      }
      className := args[1];
    } else {
      if step.className.None? {
        return Some(Crash(NullClassName));
      }
      className := step.className.value;
    }
    var found := kernel.ForName(className);
    if !found {
      return Some(Status(1));
    }
    var useargs := BuildUseArgs(request, args, step);
    if !kernel.hasRequestService {
      return Some(Crash(MissingRequestService));
    }
    kernel.StartRequest();
    var result := kernel.InvokeMain(className, useargs[..]);
    match result
    case Returned =>
      kernel.EndRequest(None);
      stop := None;
    case Threw(failure) =>
      kernel.EndRequest(Some(failure));
      if failure.cause.None? {
        return Some(Crash(NullCause));
      }
      return Some(Status(1));
  }

  /** The step loop of runOneCommand: run the steps in order, leave at the first that stops. */
  method RunCommandSteps(kernel: Kernel, request: string, args: seq<string>, steps: seq<Step>, ghost results: seq<StepResult>)
    returns (outcome: Outcome)
    requires |args| >= 1
    requires |results| == |steps|
    requires forall j :: 0 <= j < |steps| ==> StepOutcome(results, request, args, steps, kernel.classes, kernel.hasRequestService, j)
    modifies kernel
    ensures outcome == Pipeline(results).outcome && kernel.trace == old(kernel.trace) + Pipeline(results).trace
  {
    ghost var all := Pipeline(results);
    ghost var done: seq<Event> := [];
    PendingAtStart(results);
    for i := 0 to |steps|
      invariant kernel.trace == old(kernel.trace) + done
      invariant Pending(results, i, done, all)
    {
      assert StepOutcome(results, request, args, steps, kernel.classes, kernel.hasRequestService, i);
      var stop := RunOneStep(kernel, request, args, steps[i]);
      if stop.Some? {
        PendingStops(results, i, done, all);
        return stop.value;
      }
      PendingContinues(results, i, done, all);
      done := done + results[i].events;
    }
    PendingAtEnd(results, done, all);
    return Status(0);
  }

  /** Recognize and execute a single command. */
  method RunOneCommand(kernel: Kernel, catalog: seq<Command>, args: array<string>) returns (outcome: Outcome, usage: seq<string>)
    requires args.Length >= 1
    modifies kernel
    ensures unchanged(args)
    ensures outcome == Dispatch(catalog, kernel.classes, kernel.hasRequestService, args[..]).outcome
    ensures kernel.trace == old(kernel.trace) + Dispatch(catalog, kernel.classes, kernel.hasRequestService, args[..]).trace
    ensures usage == if Lookup(catalog, args[0]).None? then Render(SortedListing(catalog)) else []
  {
    var request := args[0];
    var command := FindCommand(catalog, request);
    if command.None? {
      usage := Display(catalog);
      return Status(1), usage;
    }
    usage := [];
    ghost var results := StepResults(request == Dsrun, args[..], command.value.steps, kernel.classes, kernel.hasRequestService);
    outcome := RunCommandSteps(kernel, request, args[..], command.value.steps, results);
  }

  // ---------------------------------------------------------------------------
  // Properties of a single step

  /** A block of the trace: a request started, one main invoked, the request ended. */
  predicate Block(events: seq<Event>)
  {
    |events| == 3 && events[0] == Start && events[1].Main? && events[2].End?
  }

  /** What one step can leave behind: a clean block, or nothing or a failed block together with a non-zero status. */
  predicate StepShape(r: StepResult)
  {
    match r
    case Continue(events) => Block(events) && events[2] == End(None)
    case Stop(o, events) => (o.Status? ==> o.code == 1) && (events == [] || (Block(events) && events[2].failure.Some?))
  }

  /** Whether the step gets as far as invoking main: the class resolves and the request service is there. */
  predicate Reaches(dsrun: bool, args: seq<string>, step: Step, classes: ClassTable, hasRequestService: bool)
    requires |args| >= 1
  {
    (dsrun ==> |args| >= 2)
    && ClassName(dsrun, args, step).Some?
    && ClassName(dsrun, args, step).value in classes
    && hasRequestService
  }

  /**
   * A step starts a request exactly when it reaches main (lines 137-215 return
   * before startRequest otherwise); then main receives the step's class and the
   * argument vector, and the request is ended with the outcome of main.
   */
  lemma StepEvents(dsrun: bool, args: seq<string>, step: Step, classes: ClassTable, hasRequestService: bool)
    requires |args| >= 1
    ensures var r := RunStep(dsrun, args, step, classes, hasRequestService);
      && StepShape(r)
      && (r.events != [] <==> Reaches(dsrun, args, step, classes, hasRequestService))
      && (Reaches(dsrun, args, step, classes, hasRequestService) ==>
            var name := ClassName(dsrun, args, step).value;
            var argv := ArgVector(dsrun, args, step);
            r.events[..2] == [Start, Main(name, argv)]
            && (r.Continue? <==> classes[name](argv) == Returned))
  {
    var r := RunStep(dsrun, args, step, classes, hasRequestService);
    if Reaches(dsrun, args, step, classes, hasRequestService) {
      assert r.events[..2] == [Start, Main(ClassName(dsrun, args, step).value, ArgVector(dsrun, args, step))];
    }
  }

  /** An unresolvable class ends the command with status 1 before any request is started (lines 149-159). */
  lemma UnresolvableClassStops(dsrun: bool, args: seq<string>, step: Step, classes: ClassTable, hasRequestService: bool)
    requires |args| >= Skip(dsrun)
    requires ClassName(dsrun, args, step).Some? && ClassName(dsrun, args, step).value !in classes
    ensures RunStep(dsrun, args, step, classes, hasRequestService) == Stop(Status(1), [])
  {
  }

  /** Forwarding is decided by the attribute alone: "false" passes the step's arguments as they are, anything else appends every argument past the skipped ones. */
  lemma ForwardingSwitch(dsrun: bool, args: seq<string>, step: Step)
    requires |args| >= Skip(dsrun)
    ensures ArgVector(dsrun, args, step)
      == if step.passuserargs == Some("false") then step.argument else step.argument + args[Skip(dsrun)..]
  {
    if |args| == Skip(dsrun) {
      assert args[Skip(dsrun)..] == [];
      assert step.argument + [] == step.argument;
    }
  }

  /** For dsrun the class comes from the first user argument, so the step's own class attribute plays no part. */
  lemma DsrunIgnoresStepClass(args: seq<string>, step: Step, className: Option<string>, classes: ClassTable, hasRequestService: bool)
    requires |args| >= 1
    ensures RunStep(true, args, step, classes, hasRequestService)
      == RunStep(true, args, step.(className := className), classes, hasRequestService)
  {
  }

  // ---------------------------------------------------------------------------
  // Properties of the step loop

  /** The events of the given step results, one after another. */
  function Completed(results: seq<StepResult>): seq<Event>
  {
    if results == [] then [] else results[0].events + Completed(results[1..])
  }

  /** When no step stops, the command returns 0 and the trace holds every step's events in order (lines 128-130, 254). */
  lemma {:induction false} AllContinue(results: seq<StepResult>)
    requires forall j :: 0 <= j < |results| ==> results[j].Continue?
    ensures Pipeline(results) == Run(Status(0), Completed(results))
  {
    if results != [] {
      assert forall j :: 0 <= j < |results[1..]| ==> results[1..][j] == results[j + 1];
      AllContinue(results[1..]);
    }
  }

  /** The first step that stops ends the command: its outcome is the command's, and no later step leaves a trace. */
  lemma {:induction false} FirstStopEnds(results: seq<StepResult>, k: nat)
    requires k < |results| && results[k].Stop?
    requires forall j :: 0 <= j < k ==> results[j].Continue?
    ensures Pipeline(results) == Run(results[k].outcome, Completed(results[..k]) + results[k].events)
  {
    if k > 0 {
      var tail := results[1..];
      assert forall j :: 0 <= j < k - 1 ==> tail[j] == results[j + 1];
      FirstStopEnds(tail, k - 1);
      assert results[..k][0] == results[0] && results[..k][1..] == tail[..k - 1];
      var rest := Pipeline(tail);
      assert results[0].events + (Completed(tail[..k - 1]) + results[k].events)
          == (results[0].events + Completed(tail[..k - 1])) + results[k].events;
    }
  }

  /** With well-shaped steps, the command returns 0 exactly when no step stops. */
  lemma {:induction false} SucceedsIffAllContinue(results: seq<StepResult>)
    requires forall j :: 0 <= j < |results| ==> StepShape(results[j])
    ensures Pipeline(results).outcome == Status(0) <==> forall j :: 0 <= j < |results| ==> results[j].Continue?
  {
    if results != [] {
      var tail := results[1..];
      assert forall j :: 0 <= j < |tail| ==> tail[j] == results[j + 1];
      SucceedsIffAllContinue(tail);
      if results[0].Continue? && forall j :: 0 <= j < |tail| ==> tail[j].Continue? {
        assert forall j :: 0 <= j < |results| ==> results[j].Continue? by {
          forall j | 0 <= j < |results| ensures results[j].Continue? {
            if j > 0 {
              assert results[j] == tail[j - 1];
            }
          }
        }
      }
    }
  }

  /**
   * The trace is a run of blocks, and only the last block may record a
   * failure: every startRequest is closed by an endRequest around exactly one
   * main, and nothing is started after a main fails.
   */
  predicate Bracketed(trace: seq<Event>)
    decreases |trace|
  {
    trace == []
    || (|trace| >= 3 && Block(trace[..3]) && (trace[2] == End(None) || |trace| == 3) && Bracketed(trace[3..]))
  }

  /** With well-shaped steps the trace is bracketed and the status is 0 or 1 (lines 219-250). */
  lemma {:induction false} PipelineBracketed(results: seq<StepResult>)
    requires forall j :: 0 <= j < |results| ==> StepShape(results[j])
    ensures Bracketed(Pipeline(results).trace)
    ensures Pipeline(results).outcome.Status? ==> Pipeline(results).outcome.code <= 1
  {
    if results != [] {
      var tail := results[1..];
      assert forall j :: 0 <= j < |tail| ==> tail[j] == results[j + 1];
      PipelineBracketed(tail);
      var events := results[0].events;
      if results[0].Continue? {
        var trace := events + Pipeline(tail).trace;
        assert trace[..3] == events && trace[3..] == Pipeline(tail).trace;
      } else if events != [] {
        assert events[..3] == events && events[3..] == [];
      }
    }
  }

  /** Every result of StepResults is well shaped. */
  lemma AllStepsShaped(dsrun: bool, args: seq<string>, steps: seq<Step>, classes: ClassTable, hasRequestService: bool)
    requires |args| >= 1
    ensures var results := StepResults(dsrun, args, steps, classes, hasRequestService);
      forall j :: 0 <= j < |results| ==> StepShape(results[j])
  {
    var results := StepResults(dsrun, args, steps, classes, hasRequestService);
    forall j | 0 <= j < |results| ensures StepShape(results[j]) {
      StepEvents(dsrun, args, steps[j], classes, hasRequestService);
    }
  }

  /** Completed over clean blocks: one block of three events per step, in step order. */
  lemma {:induction false} CompletedLayout(results: seq<StepResult>)
    requires forall j :: 0 <= j < |results| ==> |results[j].events| == 3
    ensures |Completed(results)| == 3 * |results|
    ensures forall j :: 0 <= j < |results| ==> Completed(results)[3 * j..3 * j + 3] == results[j].events
  {
    if results != [] {
      var tail := results[1..];
      assert forall j :: 0 <= j < |tail| ==> tail[j] == results[j + 1];
      CompletedLayout(tail);
      var all := Completed(results);
      assert all == results[0].events + Completed(tail);
      forall j | 0 <= j < |results| ensures all[3 * j..3 * j + 3] == results[j].events {
        if j == 0 {
          assert all[..3] == results[0].events;
        } else {
          assert all[3 * j..3 * j + 3] == Completed(tail)[3 * (j - 1)..3 * (j - 1) + 3];
        }
      }
    }
  }

  // ---------------------------------------------------------------------------
  // Properties of runOneCommand

  /** The trace of runOneCommand is always bracketed, and its status is 0 or 1. */
  lemma DispatchBracketed(catalog: seq<Command>, classes: ClassTable, hasRequestService: bool, args: seq<string>)
    requires |args| >= 1
    ensures Bracketed(Dispatch(catalog, classes, hasRequestService, args).trace)
    ensures var o := Dispatch(catalog, classes, hasRequestService, args).outcome; o.Status? ==> o.code <= 1
  {
    match Lookup(catalog, args[0])
    case None =>
    case Some(command) =>
      AllStepsShaped(args[0] == Dsrun, args, command.steps, classes, hasRequestService);
      PipelineBracketed(StepResults(args[0] == Dsrun, args, command.steps, classes, hasRequestService));
  }

  /** runOneCommand returns 0 exactly when the command is found and every one of its steps returns normally. */
  lemma DispatchSucceeds(catalog: seq<Command>, classes: ClassTable, hasRequestService: bool, args: seq<string>)
    requires |args| >= 1
    ensures Dispatch(catalog, classes, hasRequestService, args).outcome == Status(0)
      <==> && Lookup(catalog, args[0]).Some?
           && var steps := Lookup(catalog, args[0]).value.steps;
              forall j :: 0 <= j < |steps| ==> RunStep(args[0] == Dsrun, args, steps[j], classes, hasRequestService).Continue?
  {
    match Lookup(catalog, args[0])
    case None =>
    case Some(command) =>
      var results := StepResults(args[0] == Dsrun, args, command.steps, classes, hasRequestService);
      AllStepsShaped(args[0] == Dsrun, args, command.steps, classes, hasRequestService);
      SucceedsIffAllContinue(results);
      assert forall j :: 0 <= j < |results| ==> results[j] == RunStep(args[0] == Dsrun, args, command.steps[j], classes, hasRequestService);
  }

  /** The first failing step aborts the command: the steps after it never start a request or invoke main. */
  lemma FailureAborts(dsrun: bool, args: seq<string>, steps: seq<Step>, classes: ClassTable, hasRequestService: bool, k: nat)
    requires |args| >= 1
    requires k < |steps|
    requires forall j :: 0 <= j < k ==> RunStep(dsrun, args, steps[j], classes, hasRequestService).Continue?
    requires RunStep(dsrun, args, steps[k], classes, hasRequestService).Stop?
    ensures var run := Pipeline(StepResults(dsrun, args, steps, classes, hasRequestService));
      var r := RunStep(dsrun, args, steps[k], classes, hasRequestService);
      run == Run(r.outcome, Completed(StepResults(dsrun, args, steps[..k], classes, hasRequestService)) + r.events)
  {
    var results := StepResults(dsrun, args, steps, classes, hasRequestService);
    FirstStopEnds(results, k);
    assert results[..k] == StepResults(dsrun, args, steps[..k], classes, hasRequestService);
  }

  /**
   * When every step returns normally, main is invoked once per step, in step
   * order, each time with the step's class and argument vector, inside its own
   * request.
   */
  lemma AllStepsInvoked(dsrun: bool, args: seq<string>, steps: seq<Step>, classes: ClassTable, hasRequestService: bool)
    requires |args| >= Skip(dsrun)
    requires forall j :: 0 <= j < |steps| ==> RunStep(dsrun, args, steps[j], classes, hasRequestService).Continue?
    ensures var run := Pipeline(StepResults(dsrun, args, steps, classes, hasRequestService));
      && run.outcome == Status(0)
      && |run.trace| == 3 * |steps|
      && forall j :: 0 <= j < |steps| ==>
           run.trace[3 * j..3 * j + 3]
           == [Start, Main(ClassName(dsrun, args, steps[j]).value, ArgVector(dsrun, args, steps[j])), End(None)]
  {
    var results := StepResults(dsrun, args, steps, classes, hasRequestService);
    AllContinue(results);
    CompletedLayout(results);
    forall j | 0 <= j < |steps|
      ensures results[j].events
        == [Start, Main(ClassName(dsrun, args, steps[j]).value, ArgVector(dsrun, args, steps[j])), End(None)]
    {
      StepEvents(dsrun, args, steps[j], classes, hasRequestService);
    }
  }

  /** An unknown command runs nothing and returns 1 (lines 120-126). */
  lemma UnknownCommandRunsNothing(catalog: seq<Command>, classes: ClassTable, hasRequestService: bool, args: seq<string>)
    requires |args| >= 1 && Lookup(catalog, args[0]).None?
    ensures Dispatch(catalog, classes, hasRequestService, args) == Run(Status(1), [])
  {
  }

  /**
   * "dsrun" without a class name: the check sits inside the step loop, so a
   * command with steps returns 1 before resolving anything, and one without
   * steps returns 0.
   */
  lemma DsrunWithoutClassName(catalog: seq<Command>, classes: ClassTable, hasRequestService: bool, command: Command)
    requires Lookup(catalog, Dsrun) == Some(command)
    ensures Dispatch(catalog, classes, hasRequestService, [Dsrun]) == Run(Status(if command.steps == [] then 0 else 1), [])
  {
    var results := StepResults(true, [Dsrun], command.steps, classes, hasRequestService);
    if command.steps != [] {
      assert results[0] == Stop(Status(1), []);
    }
  }

  // ---------------------------------------------------------------------------
  // Scenarios

  /** A class whose main returns normally. */
  function Quiet(args: seq<string>): Invocation
  {
    Returned
  }

  /** A class whose main fails because the disk is full. */
  function DiskFull(args: seq<string>): Invocation
  {
    Threw(Failure(Some("disk full")))
  }

  /** "hello world": Greeter receives its own argument, then the user's, and the command returns 0. */
  lemma HelloWorld()
    ensures var hello := Command("hello", "Say hello", [Step(Some("Greeter"), ["--lang=en"], None)]);
      Dispatch([hello], map["Greeter" := Quiet], true, ["hello", "world"])
      == Run(Status(0), [Start, Main("Greeter", ["--lang=en", "world"]), End(None)])
  {
    var hello := Command("hello", "Say hello", [Step(Some("Greeter"), ["--lang=en"], None)]);
    assert EqualsIgnoreCase("hello", "hello");
    assert Lookup([hello], "hello") == Some(hello);
    var results := StepResults(false, ["hello", "world"], hello.steps, map["Greeter" := Quiet], true);
    assert ["hello", "world"][1..] == ["world"];
    var step := hello.steps[0];
    assert ArgVector(false, ["hello", "world"], step) == ["--lang=en", "world"];
    assert ClassName(false, ["hello", "world"], step) == Some("Greeter");
    assert map["Greeter" := Quiet]["Greeter"](["--lang=en", "world"]) == Returned;
    assert results[0] == Continue([Start, Main("Greeter", ["--lang=en", "world"]), End(None)]);
    assert results[1..] == [];
    assert "hello" != Dsrun by {
      assert "hello"[0] != Dsrun[0];
    }
    assert Dispatch([hello], map["Greeter" := Quiet], true, ["hello", "world"]) == Pipeline(results);
    assert Pipeline(results[1..]) == Run(Status(0), []);
  }

  /**
   * Three steps, the second failing with "disk full": the command returns 1,
   * the second request is ended with that failure, and the third step never
   * runs.
   */
  lemma DiskFullAborts()
    ensures var backup := Command("backup", "Back up", [
                Step(Some("Prepare"), [], Some("false")),
                Step(Some("Writer"), [], Some("false")),
                Step(Some("Report"), [], Some("false"))]);
      Dispatch([backup], map["Prepare" := Quiet, "Writer" := DiskFull, "Report" := Quiet], true, ["backup"])
      == Run(Status(1), [Start, Main("Prepare", []), End(None),
                         Start, Main("Writer", []), End(Some(Failure(Some("disk full"))))])
  {
    var backup := Command("backup", "Back up", [
                Step(Some("Prepare"), [], Some("false")),
                Step(Some("Writer"), [], Some("false")),
                Step(Some("Report"), [], Some("false"))]);
    var classes := map["Prepare" := Quiet, "Writer" := DiskFull, "Report" := Quiet];
    assert EqualsIgnoreCase("backup", "backup");
    assert Lookup([backup], "backup") == Some(backup);
    var results := StepResults(false, ["backup"], backup.steps, classes, true);
    assert results[0] == Continue([Start, Main("Prepare", []), End(None)]);
    assert results[1] == Stop(Status(1), [Start, Main("Writer", []), End(Some(Failure(Some("disk full"))))]);
    FirstStopEnds(results, 1);
    assert results[..1] == [results[0]];
  }

  /**
   * Only the exact request "dsrun" takes the class from the arguments: "dsrun
   * MyClass x" runs MyClass with ["x"], while "DSRUN MyClass x" finds the same
   * command but runs the step's own class with ["MyClass", "x"].
   */
  lemma DsrunIsCaseSensitive()
    ensures var dsrun := Command("dsrun", "Run a class", [Step(Some("Runner"), [], None)]);
      var classes := map["Runner" := Quiet, "MyClass" := Quiet];
      && Dispatch([dsrun], classes, true, ["dsrun", "MyClass", "x"])
         == Run(Status(0), [Start, Main("MyClass", ["x"]), End(None)])
      && Dispatch([dsrun], classes, true, ["DSRUN", "MyClass", "x"])
         == Run(Status(0), [Start, Main("Runner", ["MyClass", "x"]), End(None)])
  {
    var dsrun := Command("dsrun", "Run a class", [Step(Some("Runner"), [], None)]);
    var classes := map["Runner" := Quiet, "MyClass" := Quiet];
    assert EqualsIgnoreCase("dsrun", "dsrun");
    assert Lookup([dsrun], "dsrun") == Some(dsrun);
    assert EqualsIgnoreCase("dsrun", "DSRUN");
    assert Lookup([dsrun], "DSRUN") == Some(dsrun);
    var lower := ["dsrun", "MyClass", "x"];
    var upper := ["DSRUN", "MyClass", "x"];
    assert "DSRUN" != Dsrun by {
      assert "DSRUN"[0] != Dsrun[0];
    }
    assert lower[2..] == ["x"] && upper[1..] == ["MyClass", "x"];
    var step := dsrun.steps[0];
    assert ArgVector(true, lower, step) == ["x"];
    assert ArgVector(false, upper, step) == ["MyClass", "x"];
    assert ClassName(true, lower, step) == Some("MyClass");
    assert ClassName(false, upper, step) == Some("Runner");
    var r1 := StepResults(true, lower, dsrun.steps, classes, true);
    var r2 := StepResults(false, upper, dsrun.steps, classes, true);
    assert r1[0] == Continue([Start, Main("MyClass", ["x"]), End(None)]);
    assert r2[0] == Continue([Start, Main("Runner", ["MyClass", "x"]), End(None)]);
    assert r1[1..] == [] && r2[1..] == [];
    assert Dispatch([dsrun], classes, true, lower) == Pipeline(r1);
    assert Dispatch([dsrun], classes, true, upper) == Pipeline(r2);
    assert Pipeline(r1[1..]) == Run(Status(0), []);
  }
}
