/** The model download: one mutex, a background worker, a canceller, progress callbacks and new requests. */
module Downloads {
  import opened Wrappers
  import opened Settings

  datatype Outcome = Pulling | Done | Failed | Cancelled

  datatype Download = Download(model: string, state: Outcome, phase: string, percent: Option<int>, error: string)

  /** How an engine pull ended when it did not succeed. */
  datatype EngineError = EngineError(notFound: bool, detail: string)

  /** A worker between its start and its end: one engine pull in flight. */
  datatype Worker = Worker(generation: nat, model: string, cancelled: bool)

  /** What the mutex guards; `cancel` is the worker the stored cancel function reaches. */
  datatype Guarded = Guarded(pull: Option<Download>, cancel: Option<nat>, running: bool, generation: nat)

  datatype System = System(guarded: Guarded, workers: map<nat, Worker>)

  const GENERATIONS: nat := 0x1_0000_0000_0000_0000

  predicate IsPhase(phase: string) {
    phase == "starting" || phase == "downloading" || phase == "verifying" || phase == "writing"
  }

  predicate IsPulling(g: Guarded) { g.pull.Some? && g.pull.value.state == Pulling }

  datatype Event =
    | Request(model: string, engineRuns: bool, worker: nat)
    | Progress(worker: nat, phase: string, percent: int)
    | End(worker: nat, error: Option<EngineError>, deadline: bool)
    | Cancel

  // ---- the transitions ---------------------------------------------------------------------------

  /** A request starts a worker only for a model name, while the engine runs and nothing else does. */
  predicate Accepts(g: Guarded, model: string, engineRuns: bool) {
    IsModelName(model) && engineRuns && !IsPulling(g) && !g.running
  }

  function Fresh(g: Guarded, model: string, worker: nat): Guarded {
    Guarded(Some(Download(model, Pulling, "starting", None, "")), Some(worker), true, (g.generation + 1) % GENERATIONS)
  }

  function Reported(g: Guarded, generation: nat, phase: string, percent: int): Guarded {
    if g.generation != generation || !IsPulling(g) || !IsPhase(phase) then g
    else
      var p := g.pull.value.(phase := phase);
      g.(pull := Some(if 0 <= percent <= 100 then p.(percent := Some(percent)) else p))
  }

  function Reason(e: EngineError, deadline: bool): string {
    if e.notFound then "the registry has no model by this name"
    else if deadline then "the download took too long and was stopped"
    else if e.detail != "" then "the engine reported: " + e.detail
    else "the download failed; check the network and the free disk space"
  }

  function Ended(g: Guarded, generation: nat, error: Option<EngineError>, deadline: bool): Guarded {
    if g.generation != generation || g.pull.None? then g
    else
      var p := g.pull.value.(phase := "");
      var after :=
        if p.state == Cancelled then p
        else if error.None? then p.(state := Done, percent := None)
        else p.(state := Failed, error := Reason(error.value, deadline));
      g.(running := false, cancel := None, pull := Some(after))
  }

  function CancelledBy(g: Guarded): Guarded {
    if IsPulling(g) then g.(pull := Some(g.pull.value.(state := Cancelled, phase := "", percent := None))) else g
  }

  function Step(s: System, e: Event): System {
    match e
    case Request(model, engineRuns, worker) =>
      if !Accepts(s.guarded, model, engineRuns) || worker in s.workers then s
      else
        var g := Fresh(s.guarded, model, worker);
        System(g, s.workers[worker := Worker(g.generation, model, false)])
    case Progress(worker, phase, percent) =>
      if worker !in s.workers then s
      else s.(guarded := Reported(s.guarded, s.workers[worker].generation, phase, percent))
    case End(worker, error, deadline) =>
      if worker !in s.workers then s
      else System(Ended(s.guarded, s.workers[worker].generation, error, deadline), s.workers - {worker})
    case Cancel =>
      var reached := if IsPulling(s.guarded) then s.guarded.cancel else None;
      System(CancelledBy(s.guarded),
             if reached.Some? && reached.value in s.workers
             then s.workers[reached.value := s.workers[reached.value].(cancelled := true)] else s.workers)
  }

  function Run(s: System, events: seq<Event>): System
    decreases |events|
  {
    if events == [] then s else Run(Step(s, events[0]), events[1..])
  }

  const Unused := System(Guarded(None, None, false, 0), map[])

  // ---- the code under the mutex ---------------------------------------------------------------------

  class ModelState {
    var pull: Option<Download>
    var cancel: Option<nat>
    var running: bool
    var generation: nat
    ghost var workers: map<nat, Worker>

    ghost function View(): System
      reads this
    {
      System(Guarded(pull, cancel, running, generation), workers)
    }

    constructor ()
      ensures View() == Unused
    {
      pull, cancel, running, generation := None, None, false, 0;
      workers := map[];
    }

    /** Answers whether the request was taken: started, or already downloading the same model. */
    method PullModel(model: string, engineRuns: bool, worker: nat) returns (taken: bool)
      requires worker !in workers
      modifies this
      ensures View() == Step(old(View()), Request(model, engineRuns, worker))
      ensures taken <==>
                || Accepts(old(View()).guarded, model, engineRuns)
                || (IsModelName(model) && engineRuns && IsPulling(old(View()).guarded) && old(pull).value.model == model)
    {
      if !IsModelName(model) || !engineRuns {
        return false;
      }
      if pull.Some? && pull.value.state == Pulling {
        return pull.value.model == model;
      }
      if running {
        return false;
      }
      generation := (generation + 1) % GENERATIONS;
      pull := Some(Download(model, Pulling, "starting", None, ""));
      cancel := Some(worker);
      running := true;
      workers := workers[worker := Worker(generation, model, false)];
      return true;
    }

    /** A worker's progress callback. */
    method Report(own: nat, phase: string, percent: int, ghost worker: nat)
      requires worker in workers && workers[worker].generation == own
      modifies this
      ensures View() == Step(old(View()), Progress(worker, phase, percent))
    {
      if generation != own || pull.None? || pull.value.state != Pulling || !IsPhase(phase) {
        return;
      }
      pull := Some(pull.value.(phase := phase));
      if 0 <= percent <= 100 {
        pull := Some(pull.value.(percent := Some(percent)));
      }
    }

    /** The end of a worker's engine pull. */
    method Finish(own: nat, error: Option<EngineError>, deadline: bool, ghost worker: nat)
      requires worker in workers && workers[worker].generation == own
      modifies this
      ensures View() == Step(old(View()), End(worker, error, deadline))
    {
      workers := workers - {worker};
      if generation != own || pull.None? {
        return;
      }
      running := false;
      cancel := None;
      var p := pull.value.(phase := "");
      if p.state != Cancelled {
        p := if error.None? then p.(state := Done, percent := None)
             else p.(state := Failed, error := Reason(error.value, deadline));
      }
      pull := Some(p);
    }

    method CancelPull()
      modifies this
      ensures View() == Step(old(View()), Cancel)
    {
      if pull.Some? && pull.value.state == Pulling {
        pull := Some(pull.value.(state := Cancelled, phase := "", percent := None));
        if cancel.Some? {
          if cancel.value in workers {
            workers := workers[cancel.value := workers[cancel.value].(cancelled := true)];
          }
        }
      }
    }
  }

  // ---- every interleaving ------------------------------------------------------------------------------

  /** The live worker, if any, is the one the guarded fields speak of. */
  ghost predicate Inv(s: System) {
    var g := s.guarded;
    && (forall a, b :: a in s.workers && b in s.workers ==> a == b)
    && (g.running <==> s.workers != map[])
    && (g.running <==> g.cancel.Some?)
    && (g.running ==> g.cancel.value in s.workers && g.pull.Some?)
    && (g.running ==> Speaks(g, s.workers[g.cancel.value]))
    && (IsPulling(g) ==> g.running)
    && (g.pull.Some? ==> (g.pull.value.phase != "" <==> IsPulling(g)))
    && (IsPulling(g) ==> IsPhase(g.pull.value.phase))
    && (g.pull.Some? && g.pull.value.percent.Some? ==> 0 <= g.pull.value.percent.value <= 100)
  }

  /** The worker is of the current generation and downloads the named model, unless cancelled. */
  ghost predicate Speaks(g: Guarded, w: Worker)
    requires g.pull.Some?
  {
    && w.generation == g.generation && w.model == g.pull.value.model
    && (g.pull.value.state == Pulling || g.pull.value.state == Cancelled)
    && (w.cancelled <==> g.pull.value.state == Cancelled)
  }

  lemma StepKeepsInv(s: System, e: Event)
    requires Inv(s)
    ensures Inv(Step(s, e))
  {
    match e
    case Request(_, _, _) =>
    case Progress(worker, _, _) =>
      if worker in s.workers {
        assert worker == s.guarded.cancel.value;
      }
    case End(worker, _, _) =>
      if worker in s.workers {
        assert worker == s.guarded.cancel.value;
        assert forall other :: other in s.workers ==> other == worker;
        assert s.workers - {worker} == map[];
      }
    case Cancel =>
  }

  lemma {:induction false} RunKeepsInv(s: System, events: seq<Event>)
    requires Inv(s)
    ensures Inv(Run(s, events))
    decreases |events|
  {
    if events != [] {
      StepKeepsInv(s, events[0]);
      RunKeepsInv(Step(s, events[0]), events[1..]);
    }
  }

  /** In every interleaving at most one engine pull is in flight, and the flags tell exactly which. */
  lemma OnePullInFlight(events: seq<Event>)
    ensures
      var s := Run(Unused, events);
      var g := s.guarded;
      && |s.workers| <= 1
      && (g.running <==> |s.workers| == 1)
      && (forall w <- s.workers :: g.cancel == Some(w) && s.workers[w].generation == g.generation)
      && (IsPulling(g) ==> exists w <- s.workers :: !s.workers[w].cancelled && s.workers[w].model == g.pull.value.model)
      && (g.pull.Some? ==> (g.pull.value.phase != "" <==> IsPulling(g)))
  {
    RunKeepsInv(Unused, events);
    var s := Run(Unused, events);
    if s.guarded.running {
      var w := s.guarded.cancel.value;
      assert s.workers.Keys == {w};
      assert |s.workers| == |s.workers.Keys|;
    }
  }

  /** What is over stays as it ended: only an accepted request changes a finished or cancelled download. */
  lemma {:induction false} EndIsFinal(s: System, events: seq<Event>)
    requires Inv(s) && s.guarded.pull.Some? && !IsPulling(s.guarded)
    requires forall i :: 0 <= i < |events| ==>
               events[i].Request? ==> !Accepts(Run(s, events[..i]).guarded, events[i].model, events[i].engineRuns)
    ensures Run(s, events).guarded.pull == s.guarded.pull
    decreases |events|
  {
    if events != [] {
      var t := Step(s, events[0]);
      StepKeepsInv(s, events[0]);
      assert events[..0] == [];
      assert Run(s, events[..0]) == s;
      forall i | 0 <= i < |events[1..]| && events[1..][i].Request?
        ensures !Accepts(Run(t, events[1..][..i]).guarded, events[1..][i].model, events[1..][i].engineRuns)
      {
        assert events[..i + 1][1..] == events[1..][..i];
        assert Run(s, events[..i + 1]) == Run(t, events[1..][..i]);
      }
      EndIsFinal(t, events[1..]);
    }
  }

  /** A cancelled worker's end reports nothing, and only then may the next download start. */
  lemma CancelledEndsQuietly(events: seq<Event>, worker: nat, error: Option<EngineError>, deadline: bool, model: string)
    requires worker in Run(Unused, events).workers && Run(Unused, events).workers[worker].cancelled
    ensures
      var s := Run(Unused, events);
      var t := Step(s, End(worker, error, deadline));
      && t.guarded.pull == s.guarded.pull && t.guarded.pull.Some? && t.guarded.pull.value.state == Cancelled
      && !Accepts(s.guarded, model, true) && (Accepts(t.guarded, model, true) <==> IsModelName(model))
  {
    RunKeepsInv(Unused, events);
    var s := Run(Unused, events);
    assert worker == s.guarded.cancel.value;
  }

  // ---- what each event does, after any run -------------------------------------------------------------

  /** A request starts a download exactly when it names a model, the engine runs, and no pull is in flight, not even
      a cancelled one. */
  lemma RequestStartsExactlyWhen(events: seq<Event>, model: string, engineRuns: bool, worker: nat)
    requires worker !in Run(Unused, events).workers
    ensures
      var s := Run(Unused, events);
      var t := Step(s, Request(model, engineRuns, worker));
      if IsModelName(model) && engineRuns && |s.workers| == 0 then
        && t.guarded.pull == Some(Download(model, Pulling, "starting", None, ""))
        && t.guarded.generation != s.guarded.generation
        && t.workers == map[worker := Worker(t.guarded.generation, model, false)]
      else t == s
  {
    hide IsModelName;
    RunKeepsInv(Unused, events);
  }

  /** The live worker's progress shows while its download is pulling: a known phase, and a percentage that is one. */
  lemma ProgressShows(events: seq<Event>, worker: nat, phase: string, percent: int)
    requires worker in Run(Unused, events).workers
    ensures
      var s := Run(Unused, events);
      var t := Step(s, Progress(worker, phase, percent));
      && t.workers == s.workers && s.guarded.pull.Some?
      && var p := s.guarded.pull.value;
        if !s.workers[worker].cancelled && phase in ["starting", "downloading", "verifying", "writing"] then
          && p.state == Pulling
          && t.guarded.pull
             == Some(Download(p.model, Pulling, phase, if 0 <= percent <= 100 then Some(percent) else p.percent, p.error))
        else t == s
  {
    RunKeepsInv(Unused, events);
    var s := Run(Unused, events);
    assert worker == s.guarded.cancel.value;
    PhasesAre(phase);
    hide IsPhase;
  }

  lemma PhasesAre(phase: string)
    ensures IsPhase(phase) <==> phase in ["starting", "downloading", "verifying", "writing"]
  {
  }

  /** What a failed pull says. */
  ghost predicate Explains(reason: string, e: EngineError, deadline: bool) {
    && (e.notFound ==> reason == "the registry has no model by this name")
    && (!e.notFound && deadline ==> reason == "the download took too long and was stopped")
    && (!e.notFound && !deadline && |e.detail| > 0 ==> reason == "the engine reported: " + e.detail)
    && (!e.notFound && !deadline && |e.detail| == 0 ==>
          reason == "the download failed; check the network and the free disk space")
  }

  lemma ReasonExplains(e: EngineError, deadline: bool)
    ensures Explains(Reason(e, deadline), e, deadline)
  {
  }

  /** The end of a pull frees the slot and is recorded: cancelled stays cancelled, otherwise done or failed with why. */
  lemma EndIsRecorded(events: seq<Event>, worker: nat, error: Option<EngineError>, deadline: bool)
    requires worker in Run(Unused, events).workers
    ensures
      var s := Run(Unused, events);
      var t := Step(s, End(worker, error, deadline));
      && |t.workers| == 0 && !t.guarded.running && s.guarded.pull.Some? && t.guarded.pull.Some?
      && var before, after := s.guarded.pull.value, t.guarded.pull.value;
        && after.model == s.workers[worker].model && after.phase == ""
        && if s.workers[worker].cancelled then after.state == Cancelled && after == before
           else if error.None? then after == Download(before.model, Done, "", None, before.error)
           else
             && after == Download(before.model, Failed, "", before.percent, after.error)
             && Explains(after.error, error.value, deadline)
  {
    RunKeepsInv(Unused, events);
    var s := Run(Unused, events);
    assert worker == s.guarded.cancel.value;
    if error.Some? {
      ReasonExplains(error.value, deadline);
    }
    hide Reason, Explains;
    StepKeepsInv(s, End(worker, error, deadline));
  }

  /** Cancelling reaches the live worker while its download is pulling, and changes nothing otherwise. */
  lemma CancelReaches(events: seq<Event>, worker: nat)
    ensures
      var s := Run(Unused, events);
      var t := Step(s, Cancel);
      if worker in s.workers && !s.workers[worker].cancelled then
        && s.guarded.pull.Some? && t.guarded.pull == Some(s.guarded.pull.value.(state := Cancelled, phase := "", percent := None))
        && t.workers == s.workers[worker := s.workers[worker].(cancelled := true)] && t.guarded.running
      else t == s || exists other <- s.workers :: other != worker && !s.workers[other].cancelled
  {
    RunKeepsInv(Unused, events);
    var s := Run(Unused, events);
    if worker in s.workers {
      assert worker == s.guarded.cancel.value;
    } else if s.guarded.running {
      assert s.guarded.cancel.value in s.workers;
    }
  }
}
