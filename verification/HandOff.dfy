/** The daemon's hand-off: the worker thread publishes box lists, the main loop takes them over
    and renders them.  Every interleaving of the atomic steps below is a run.  A list is published
    under the box mutex, the counter is bumped and read outside it; the tracker has a mutex of
    its own, which PAUSE and SET_PADDING wait for. */
module HandOff {
  import opened Geometry

  type Boxes = seq<BoundingBox>

  /** Where the worker stands.  Between two steps it holds the tracker's mutex at `Tracking` and
      the box mutex at `ClearCounting`, and no mutex anywhere else. */
  datatype WorkerPc =
    | AtLoop | Choosing | Capturing | Tracking | Publishing(boxes: Boxes) | Counting | Clearing | ClearCounting | Exited

  /** Where main stands: at `Resetting` and `Configuring` it waits for the tracker's mutex, at
      `Consuming` for the box mutex; it holds a mutex only within a step. */
  datatype MainPc =
    | MainLoop | Commands | Resetting | PauseRendering | Configuring | Consuming(seen: nat) | Rendering | Joining | Done

  datatype Command = Pause | Resume | SetPadding | Stop | Other

  datatype Flags = Flags(modelLoaded: bool, running: bool, workerRunning: bool, paused: bool)

  /** What the mutex and the counter guard; `log` is history: every list published so far. */
  datatype Shared = Shared(latest: Boxes, rawSeq: nat, log: seq<Boxes>)

  /** The main loop's own variables, and as history which published list it holds and shows, and
      the counter at its last load. */
  datatype Loop = Loop(
    pc: MainPc, snapshot: Boxes, lastProcessedSeq: nat, activeBoxCount: nat, shown: Boxes,
    snapshotVersion: nat, shownVersion: nat, loadedSeq: nat)
  {
    function Clear(): Loop { this.(shown := [], shownVersion := 0) }
  }

  datatype State = State(flags: Flags, shared: Shared, worker: WorkerPc, loop: Loop)

  /** The list published as number v; number 0 is the empty list from before the first. */
  function Version(log: seq<Boxes>, v: nat): Boxes
    requires v <= |log|
  {
    if v == 0 then [] else log[v - 1]
  }

  function Start(modelLoaded: bool): State {
    State(Flags(modelLoaded, true, true, false), Shared([], 0, []), AtLoop, Loop(MainLoop, [], 0, 0, [], 0, 0, 0))
  }

  // ---------- Steps ----------

  datatype Step =
    | WorkerLoop | WorkerChoose | WorkerCapture(captured: bool) | WorkerTrack(boxes: Boxes)
    | WorkerPublish | WorkerCount | WorkerClear | WorkerClearCount
    | MainTurn | MainCommand(command: Command) | MainReset | MainPauseRender | MainConfigure
    | MainLoad | MainConsume | MainRender | MainJoin
    | Signal

  predicate Enabled(s: State, step: Step) {
    match step
    case WorkerLoop => s.worker.AtLoop?
    case WorkerChoose => s.worker.Choosing?
    case WorkerCapture(_) => s.worker.Capturing?
    case WorkerTrack(_) => s.worker.Tracking?
    case WorkerPublish => s.worker.Publishing?
    case WorkerCount => s.worker.Counting?
    case WorkerClear => s.worker.Clearing?
    case WorkerClearCount => s.worker.ClearCounting?
    case MainTurn => s.loop.pc.MainLoop?
    case MainCommand(_) => s.loop.pc.Commands?
    case MainReset => s.loop.pc.Resetting? && !s.worker.Tracking?
    case MainPauseRender => s.loop.pc.PauseRendering?
    case MainConfigure => s.loop.pc.Configuring? && !s.worker.Tracking?
    case MainLoad => s.loop.pc.Commands?
    case MainConsume => s.loop.pc.Consuming? && !s.worker.ClearCounting?
    case MainRender => s.loop.pc.Rendering?
    case MainJoin => s.loop.pc.Joining? && s.worker.Exited?
    case Signal => true
  }

  predicate ByWorker(step: Step) {
    step.WorkerLoop? || step.WorkerChoose? || step.WorkerCapture? || step.WorkerTrack? || step.WorkerPublish?
    || step.WorkerCount? || step.WorkerClear? || step.WorkerClearCount?
  }

  function AfterWorker(s: State, step: Step): State
    requires Enabled(s, step) && ByWorker(step)
  {
    var q := s.shared;
    match step
    case WorkerLoop => s.(worker := if s.flags.workerRunning && s.flags.running then Choosing else Exited)
    case WorkerChoose => s.(worker := if !s.flags.paused && s.flags.modelLoaded then Capturing else Clearing)
    case WorkerCapture(captured) => s.(worker := if captured then Tracking else AtLoop)
    case WorkerTrack(boxes) => s.(worker := Publishing(boxes))
    case WorkerPublish => s.(shared := Shared(s.worker.boxes, q.rawSeq, q.log + [s.worker.boxes]), worker := Counting)
    case WorkerCount => s.(shared := q.(rawSeq := q.rawSeq + 1), worker := AtLoop)
    case WorkerClear => s.(shared := Shared([], q.rawSeq, q.log + [[]]), worker := ClearCounting)
    case WorkerClearCount => s.(shared := q.(rawSeq := q.rawSeq + 1), worker := AtLoop)
  }

  function AfterMain(s: State, step: Step): State
    requires Enabled(s, step) && !ByWorker(step)
  {
    var m := s.loop;
    match step
    case MainTurn =>
      if s.flags.running then s.(loop := m.(pc := Commands))
      else s.(flags := s.flags.(workerRunning := false), loop := m.(pc := Joining))
    case MainCommand(command) =>
      (match command
       case Pause => s.(flags := s.flags.(paused := true), loop := m.(pc := Resetting))
       case Resume => s.(flags := s.flags.(paused := false))
       case SetPadding => s.(loop := m.(pc := Configuring))
       case Stop => s.(flags := s.flags.(running := false))
       case Other => s)
    case MainReset => s.(loop := m.(pc := PauseRendering))
    case MainPauseRender => s.(loop := m.Clear().(pc := Commands))
    case MainConfigure => s.(loop := m.(pc := Commands))
    case MainLoad =>
      s.(loop := m.(loadedSeq := s.shared.rawSeq,
                    pc := if s.shared.rawSeq != m.lastProcessedSeq then Consuming(s.shared.rawSeq) else MainLoop))
    case MainConsume =>
      s.(loop := m.(snapshot := s.shared.latest, snapshotVersion := |s.shared.log|,
                    lastProcessedSeq := m.pc.seen, pc := Rendering))
    case MainRender =>
      if s.flags.paused then s.(loop := m.Clear().(activeBoxCount := 0, pc := MainLoop))
      else s.(loop := m.(shown := m.snapshot, shownVersion := m.snapshotVersion,
                         activeBoxCount := |m.snapshot|, pc := MainLoop))
    case MainJoin => s.(loop := m.Clear().(pc := Done))
    case Signal => s.(flags := s.flags.(running := false))
  }

  function After(s: State, step: Step): State
    requires Enabled(s, step)
  {
    if ByWorker(step) then AfterWorker(s, step) else AfterMain(s, step)
  }

  // ---------- What every step keeps ----------

  /** A list is published but not counted yet. */
  predicate MidPublish(worker: WorkerPc) { worker.Counting? || worker.ClearCounting? }

  predicate Counted(q: Shared, worker: WorkerPc) {
    |q.log| == q.rawSeq + (if MidPublish(worker) then 1 else 0) && q.latest == Version(q.log, |q.log|)
  }

  predicate Consumed(q: Shared, m: Loop) {
    && m.lastProcessedSeq <= m.snapshotVersion <= |q.log| && m.lastProcessedSeq <= q.rawSeq
    && m.snapshot == Version(q.log, m.snapshotVersion)
    && (m.pc.Consuming? ==> m.lastProcessedSeq < m.pc.seen == m.loadedSeq <= q.rawSeq)
    && (!m.pc.Consuming? ==> m.lastProcessedSeq == m.loadedSeq)
  }

  /** PAUSE is being handled: the flag is set, the screen not cleared yet. */
  predicate Pausing(pc: MainPc) { pc.Resetting? || pc.PauseRendering? }

  predicate ShownRight(paused: bool, q: Shared, m: Loop) {
    && m.shownVersion <= m.snapshotVersion <= |q.log| && m.shown == Version(q.log, m.shownVersion)
    && (!m.pc.Rendering? ==> m.shownVersion == 0 || m.shownVersion == m.snapshotVersion)
    && (Pausing(m.pc) ==> paused)
    && ((paused && !Pausing(m.pc)) || m.pc.Done? ==> m.shown == [])
  }

  predicate Stopping(f: Flags, worker: WorkerPc, pc: MainPc) {
    && (pc.Joining? || pc.Done? ==> !f.workerRunning && !f.running)
    && (pc.Done? ==> worker.Exited?)
    && (worker.Exited? || !f.workerRunning ==> !f.running)
  }

  ghost predicate Modelled(f: Flags, q: Shared, worker: WorkerPc) {
    !f.modelLoaded ==>
      !worker.Capturing? && !worker.Tracking? && !worker.Publishing? && forall k :: 0 <= k < |q.log| ==> q.log[k] == []
  }

  ghost predicate Inv(s: State) {
    && Counted(s.shared, s.worker) && Consumed(s.shared, s.loop) && ShownRight(s.flags.paused, s.shared, s.loop)
    && Stopping(s.flags, s.worker, s.loop.pc) && Modelled(s.flags, s.shared, s.worker)
  }

  lemma StartInv(modelLoaded: bool)
    ensures Inv(Start(modelLoaded))
  {
  }

  lemma VersionKept(log: seq<Boxes>, more: Boxes, v: nat)
    requires v <= |log|
    ensures Version(log + [more], v) == Version(log, v)
  {
  }

  lemma VersionZero(log: seq<Boxes>)
    ensures Version(log, 0) == []
  {
  }

  lemma WorkerInv(s: State, step: Step)
    requires Inv(s) && Enabled(s, step) && ByWorker(step)
    ensures Inv(AfterWorker(s, step))
  {
    VersionZero(s.shared.log);
    if step.WorkerPublish? || step.WorkerClear? {
      var more := if step.WorkerPublish? then s.worker.boxes else [];
      VersionKept(s.shared.log, more, s.loop.snapshotVersion);
      VersionKept(s.shared.log, more, s.loop.shownVersion);
    }
  }

  lemma MainConsumed(s: State, step: Step)
    requires Counted(s.shared, s.worker) && Consumed(s.shared, s.loop) && Enabled(s, step) && !ByWorker(step)
    ensures Consumed(AfterMain(s, step).shared, AfterMain(s, step).loop)
  {
    hide Version;
  }

  lemma MainShown(s: State, step: Step)
    requires Consumed(s.shared, s.loop) && ShownRight(s.flags.paused, s.shared, s.loop) && Enabled(s, step)
    requires !ByWorker(step)
    requires Counted(s.shared, s.worker)
    ensures var t := AfterMain(s, step); ShownRight(t.flags.paused, t.shared, t.loop)
  {
    VersionZero(s.shared.log);
    hide Version;
  }

  lemma MainElse(s: State, step: Step)
    requires Stopping(s.flags, s.worker, s.loop.pc) && Modelled(s.flags, s.shared, s.worker) && Enabled(s, step)
    requires !ByWorker(step)
    ensures var t := AfterMain(s, step);
            && t.shared == s.shared && t.worker == s.worker
            && Stopping(t.flags, t.worker, t.loop.pc) && Modelled(t.flags, t.shared, t.worker)
  {
  }

  lemma StepInv(s: State, step: Step)
    requires Inv(s) && Enabled(s, step)
    ensures Inv(After(s, step))
  {
    hide Enabled, AfterWorker, AfterMain, ByWorker, Counted, Consumed, ShownRight, Stopping, Modelled;
    if ByWorker(step) {
      WorkerInv(s, step);
    } else {
      MainConsumed(s, step);
      MainShown(s, step);
      MainElse(s, step);
    }
  }

  // ---------- Whole runs ----------

  /** `steps` is one interleaving that the two threads can take from s. */
  predicate Runs(s: State, steps: seq<Step>)
    decreases |steps|
  {
    steps != [] ==> Enabled(s, steps[0]) && Runs(After(s, steps[0]), steps[1..])
  }

  function Final(s: State, steps: seq<Step>): State
    requires Runs(s, steps)
    decreases |steps|
  {
    if steps == [] then s else Final(After(s, steps[0]), steps[1..])
  }

  lemma {:induction false} RunInv(s: State, steps: seq<Step>)
    requires Inv(s) && Runs(s, steps)
    ensures Inv(Final(s, steps))
    decreases |steps|
  {
    hide Inv, After, Enabled;
    if steps != [] {
      StepInv(s, steps[0]);
      RunInv(After(s, steps[0]), steps[1..]);
    }
  }

  /** Nothing that was published, counted or taken over is ever taken back. */
  predicate NotBefore(s: State, t: State) {
    && s.shared.log <= t.shared.log && s.shared.rawSeq <= t.shared.rawSeq
    && s.loop.snapshotVersion <= t.loop.snapshotVersion && s.loop.lastProcessedSeq <= t.loop.lastProcessedSeq
  }

  lemma StepNotBefore(s: State, step: Step)
    requires Inv(s) && Enabled(s, step)
    ensures NotBefore(s, After(s, step))
  {
  }

  /** Main's snapshot never goes back to an older list, over any stretch of any run. */
  lemma {:induction false} NeverBack(s: State, steps: seq<Step>)
    requires Inv(s) && Runs(s, steps)
    ensures NotBefore(s, Final(s, steps))
    decreases |steps|
  {
    hide Inv, After, Enabled;
    if steps != [] {
      StepNotBefore(s, steps[0]);
      StepInv(s, steps[0]);
      NeverBack(After(s, steps[0]), steps[1..]);
    }
  }

  /** What holds at every point of every run of the daemon. */
  lemma HandOffSafe(modelLoaded: bool, steps: seq<Step>)
    requires Runs(Start(modelLoaded), steps)
    ensures var t := Final(Start(modelLoaded), steps);
            // the snapshot is at least as new as the sequence number main has processed
            && t.loop.lastProcessedSeq <= t.loop.snapshotVersion <= |t.shared.log|
            && t.loop.snapshot == Version(t.shared.log, t.loop.snapshotVersion)
            // once main has caught up with the counter it holds the newest list
            && (t.loop.lastProcessedSeq == t.shared.rawSeq && !MidPublish(t.worker) ==>
                  t.loop.snapshot == t.shared.latest)
            // the screen shows nothing, or a published list no newer than the snapshot
            && t.loop.shownVersion <= t.loop.snapshotVersion
            && t.loop.shown == Version(t.shared.log, t.loop.shownVersion)
            // paused means cleared, and so does shut down or a missing model
            && (t.flags.paused && !Pausing(t.loop.pc) ==> t.loop.shown == [])
            && (t.loop.pc.Done? ==> t.loop.shown == [] && t.worker.Exited?)
            && (!modelLoaded ==> t.loop.shown == [])
  {
    StartInv(modelLoaded);
    RunInv(Start(modelLoaded), steps);
    ModelFixed(Start(modelLoaded), steps);
    hide Final, Runs;
  }

  lemma {:induction false} ModelFixed(s: State, steps: seq<Step>)
    requires Runs(s, steps)
    ensures Final(s, steps).flags.modelLoaded == s.flags.modelLoaded
    decreases |steps|
  {
    hide Enabled, After;
    if steps != [] {
      ModelKept(s, steps[0]);
      ModelFixed(After(s, steps[0]), steps[1..]);
    }
  }

  lemma ModelKept(s: State, step: Step)
    requires Enabled(s, step)
    ensures After(s, step).flags.modelLoaded == s.flags.modelLoaded
  {
  }

  /** The boxes that the tracker delivered last. */
  function LastTracked(steps: seq<Step>): Boxes {
    if steps == [] then []
    else
      var n := |steps| - 1;
      match steps[n] case WorkerTrack(boxes) => boxes case _ => LastTracked(steps[..n])
  }

  /** The lists published by the steps, in order: what was tracked last, or nothing. */
  function PublishedBy(steps: seq<Step>): seq<Boxes> {
    if steps == [] then []
    else
      var n := |steps| - 1;
      PublishedBy(steps[..n])
      + match steps[n] case WorkerPublish => [LastTracked(steps[..n])] case WorkerClear => [[]] case _ => []
  }

  /** In every run the published lists are exactly those that the tracker delivered, each
      published as it was, and an empty one for every time the worker found nothing to do. */
  lemma {:induction false} PublishedAreTracked(modelLoaded: bool, steps: seq<Step>)
    requires Runs(Start(modelLoaded), steps)
    ensures var t := Final(Start(modelLoaded), steps);
            && t.shared.log == PublishedBy(steps)
            && (t.worker.Publishing? ==> t.worker.boxes == LastTracked(steps))
    decreases |steps|
  {
    hide Runs, Final, Enabled, After;
    var s := Start(modelLoaded);
    if steps == [] {
      NothingYet(s);
    } else {
      var n := |steps| - 1;
      SplitRun(s, steps, n);
      assert steps[n..] == [steps[n]];
      PublishedAreTracked(modelLoaded, steps[..n]);
      OneStep(Final(s, steps[..n]), steps[n]);
      StepPublishes(Final(s, steps[..n]), steps[n]);
    }
  }

  lemma NothingYet(s: State)
    ensures Final(s, []) == s
  {
  }

  lemma OneStep(s: State, step: Step)
    requires Runs(s, [step])
    ensures Enabled(s, step) && Final(s, [step]) == After(s, step)
  {
    assert [step][1..] == [];
  }

  lemma StepPublishes(s: State, step: Step)
    requires Enabled(s, step)
    ensures var t := After(s, step);
            && t.shared.log == s.shared.log + (match step
                                               case WorkerPublish => [s.worker.boxes]
                                               case WorkerClear => [[]]
                                               case _ => [])
            && (step.WorkerPublish? ==> s.worker.Publishing?)
            && (t.worker.Publishing? ==>
                  if step.WorkerTrack? then t.worker.boxes == step.boxes
                  else s.worker.Publishing? && t.worker.boxes == s.worker.boxes)
  {
  }

  /** After PAUSE has cleared the screen nothing appears on it before a RESUME, whatever the
      worker publishes in between. */
  lemma {:induction false} PausedStaysBlank(s: State, steps: seq<Step>)
    requires s.flags.paused && s.loop.shown == [] && Runs(s, steps) && MainCommand(Resume) !in steps
    ensures var t := Final(s, steps); t.flags.paused && t.loop.shown == []
    decreases |steps|
  {
    hide After, Enabled;
    if steps != [] {
      StepBlank(s, steps[0]);
      PausedStaysBlank(After(s, steps[0]), steps[1..]);
    }
  }

  lemma StepBlank(s: State, step: Step)
    requires s.flags.paused && s.loop.shown == [] && Enabled(s, step) && step != MainCommand(Resume)
    ensures var t := After(s, step); t.flags.paused && t.loop.shown == []
  {
  }

  /** The worker holds no frame and no boxes. */
  predicate Idle(worker: WorkerPc) { !worker.Capturing? && !worker.Tracking? && !worker.Publishing? }

  /** Once the worker has come to rest under PAUSE, or without a model, it takes no frame and
      publishes nothing but empty lists until RESUME. */
  lemma {:induction false} PausedPublishesNothing(s: State, steps: seq<Step>)
    requires Runs(s, steps) && Idle(s.worker)
    requires !s.flags.modelLoaded || (s.flags.paused && MainCommand(Resume) !in steps)
    ensures var t := Final(s, steps);
            && Idle(t.worker) && s.shared.log <= t.shared.log
            && forall k :: |s.shared.log| <= k < |t.shared.log| ==> t.shared.log[k] == []
    decreases |steps|
  {
    hide Enabled, After, Idle;
    if steps != [] {
      StepIdle(s, steps[0]);
      PausedPublishesNothing(After(s, steps[0]), steps[1..]);
    }
  }

  lemma StepIdle(s: State, step: Step)
    requires Enabled(s, step) && Idle(s.worker)
    requires !s.flags.modelLoaded || (s.flags.paused && step != MainCommand(Resume))
    ensures var t := After(s, step);
            && Idle(t.worker) && t.flags.modelLoaded == s.flags.modelLoaded
            && (s.flags.modelLoaded ==> t.flags.paused)
            && (t.shared.log == s.shared.log || t.shared.log == s.shared.log + [[]])
  {
  }

  /** Rendering while not paused shows a list at least as new as every list counted when main
      last read the counter. */
  lemma RenderFresh(s: State)
    requires Inv(s) && Enabled(s, MainRender) && !s.flags.paused
    ensures var t := After(s, MainRender);
            && s.loop.loadedSeq <= t.loop.shownVersion <= |s.shared.log|
            && t.loop.shown == Version(s.shared.log, t.loop.shownVersion)
  {
  }

  /** Main's next turn shows what was published last, when something has been counted since its
      last one and nothing stops it: not while paused, but then a RESUME is enough. */
  lemma NextTurnShows(s: State, resume: bool)
    requires Inv(s) && s.loop.pc.Commands? && !s.worker.ClearCounting? && s.shared.rawSeq != s.loop.lastProcessedSeq
    requires resume || !s.flags.paused
    ensures var steps := (if resume then [MainCommand(Resume)] else []) + [MainLoad, MainConsume, MainRender];
            && Runs(s, steps)
            && Final(s, steps).loop.shown == s.shared.latest
            && Final(s, steps).loop.activeBoxCount == |s.shared.latest|
  {
    var t := if resume then After(s, MainCommand(Resume)) else s;
    var last := [MainLoad, MainConsume, MainRender];
    TurnShows(t);
    if resume {
      assert ([MainCommand(Resume)] + last)[1..] == last;
    } else {
      assert [] + last == last;
    }
    hide After;
  }

  lemma TurnShows(t: State)
    requires t.loop.pc.Commands? && !t.worker.ClearCounting? && t.shared.rawSeq != t.loop.lastProcessedSeq
    requires !t.flags.paused
    ensures Runs(t, [MainLoad, MainConsume, MainRender])
    ensures Final(t, [MainLoad, MainConsume, MainRender]).loop.shown == t.shared.latest
    ensures Final(t, [MainLoad, MainConsume, MainRender]).loop.activeBoxCount == |t.shared.latest|
  {
    var u := After(t, MainLoad);
    var v := After(u, MainConsume);
    var w := After(v, MainRender);
    assert [MainLoad, MainConsume, MainRender][1..] == [MainConsume, MainRender];
    assert [MainConsume, MainRender][1..] == [MainRender] && [MainRender][1..] == [];
    assert Runs(v, [MainRender]) && Final(v, [MainRender]) == w;
    assert Runs(u, [MainConsume, MainRender]) && Final(u, [MainConsume, MainRender]) == w;
  }

  /** STOP or a signal is final, and main's next turn after it asks the worker to exit. */
  lemma StopIsFinal(s: State, step: Step)
    requires Enabled(s, step)
    ensures step == MainCommand(Stop) || step == Signal || !s.flags.running ==> !After(s, step).flags.running
    ensures step == MainTurn && !s.flags.running ==>
              After(s, step).loop.pc.Joining? && !After(s, step).flags.workerRunning
  {
  }

  // ---------- The reported box count ----------

  /** A step that clears the screen without setting the reported count. */
  predicate Clears(step: Step) { step.MainPauseRender? || step.MainJoin? }

  /** How far the run goes up to its last rendering of a new list. */
  function LastRender(steps: seq<Step>): (r: nat)
    ensures r <= |steps| && (r > 0 ==> steps[r - 1] == MainRender)
    ensures forall k :: r <= k < |steps| ==> steps[k] != MainRender
  {
    if steps == [] then 0
    else
      var n := |steps| - 1;
      if steps[n] == MainRender then |steps| else LastRender(steps[..n])
  }

  lemma {:induction false} SplitRun(s: State, steps: seq<Step>, k: nat)
    requires Runs(s, steps) && k <= |steps|
    ensures Runs(s, steps[..k]) && Runs(Final(s, steps[..k]), steps[k..])
    ensures Final(Final(s, steps[..k]), steps[k..]) == Final(s, steps)
    decreases |steps|
  {
    hide Enabled, After;
    if k == 0 {
      assert steps[..0] == [] && steps[0..] == steps;
    } else {
      SplitRun(After(s, steps[0]), steps[1..], k - 1);
      assert steps[1..][..k - 1] == steps[..k][1..] && steps[1..][k - 1..] == steps[k..];
      assert steps[..k][0] == steps[0];
    }
  }

  lemma StepCount(s: State, step: Step)
    requires Enabled(s, step)
    ensures var t := After(s, step);
            && (step == MainRender ==> t.loop.activeBoxCount == |t.loop.shown|)
            && (step != MainRender ==> t.loop.activeBoxCount == s.loop.activeBoxCount)
            && (step != MainRender ==> t.loop.shown == if Clears(step) then [] else s.loop.shown)
  {
  }

  /** Without a rendering the count stays, and so does the screen unless something clears it. */
  lemma {:induction false} CountKept(s: State, steps: seq<Step>)
    requires Runs(s, steps) && forall k :: 0 <= k < |steps| ==> steps[k] != MainRender
    ensures var t := Final(s, steps);
            && t.loop.activeBoxCount == s.loop.activeBoxCount
            && t.loop.shown == if exists k :: 0 <= k < |steps| && Clears(steps[k]) then [] else s.loop.shown
    decreases |steps|
  {
    hide Enabled, After, Clears;
    if steps != [] {
      StepCount(s, steps[0]);
      var rest := steps[1..];
      CountKept(After(s, steps[0]), rest);
      if k :| 0 <= k < |steps| && Clears(steps[k]) {
        if k > 0 { assert Clears(rest[k - 1]); }
      }
      if k :| 0 <= k < |rest| && Clears(rest[k]) { assert Clears(steps[k + 1]); }
    }
  }

  /** In every run STATUS reports the number of boxes on the screen exactly when nothing has
      cleared the screen since the last rendering, or that rendering showed no box. */
  lemma CountReported(modelLoaded: bool, steps: seq<Step>)
    requires Runs(Start(modelLoaded), steps)
    ensures var r := LastRender(steps);
            Runs(Start(modelLoaded), steps[..r])
    ensures var r, t := LastRender(steps), Final(Start(modelLoaded), steps);
            t.loop.activeBoxCount == |t.loop.shown| <==>
            ((forall k :: r <= k < |steps| ==> !Clears(steps[k])) ||
             Final(Start(modelLoaded), steps[..r]).loop.shown == [])
  {
    hide Runs, Final, Clears;
    var s, r := Start(modelLoaded), LastRender(steps);
    SplitRun(s, steps, r);
    CountAtRender(modelLoaded, steps, r);
    var later := steps[r..];
    CountKept(Final(s, steps[..r]), later);
    if k :| r <= k < |steps| && Clears(steps[k]) { assert Clears(later[k - r]); }
    if k :| 0 <= k < |later| && Clears(later[k]) { assert Clears(steps[r + k]); }
  }

  lemma CountAtRender(modelLoaded: bool, steps: seq<Step>, r: nat)
    requires r <= |steps| && Runs(Start(modelLoaded), steps[..r]) && (r > 0 ==> steps[r - 1] == MainRender)
    ensures var m := Final(Start(modelLoaded), steps[..r]).loop; m.activeBoxCount == |m.shown|
  {
    var s := Start(modelLoaded);
    if r > 0 {
      SplitRun(s, steps[..r], r - 1);
      var before, last := steps[..r][..r - 1], steps[..r][r - 1..];
      assert last == [MainRender] && last[1..] == [];
      StepCount(Final(s, before), MainRender);
    }
  }

  lemma {:induction false} Then(start: State, steps: seq<Step>, step: Step)
    requires Runs(start, steps) && Enabled(Final(start, steps), step)
    ensures Runs(start, steps + [step]) && Final(start, steps + [step]) == After(Final(start, steps), step)
    decreases |steps|
  {
    hide Enabled, After;
    if steps == [] {
      assert steps + [step] == [step] && [step][1..] == [];
    } else {
      Then(After(start, steps[0]), steps[1..], step);
      assert (steps + [step])[1..] == steps[1..] + [step];
    }
  }

  lemma OnePublished(box: BoundingBox) returns (steps: seq<Step>)
    ensures Runs(Start(true), steps)
    ensures Final(Start(true), steps) == Start(true).(shared := Shared([box], 1, [[box]]))
  {
    var s := Start(true);
    steps := [];
    assert Final(s, steps) == s;
    hide Runs, Final;
    Then(s, steps, WorkerLoop);
    steps := steps + [WorkerLoop];
    Then(s, steps, WorkerChoose);
    steps := steps + [WorkerChoose];
    Then(s, steps, WorkerCapture(true));
    steps := steps + [WorkerCapture(true)];
    Then(s, steps, WorkerTrack([box]));
    steps := steps + [WorkerTrack([box])];
    Then(s, steps, WorkerPublish);
    steps := steps + [WorkerPublish];
    Then(s, steps, WorkerCount);
    steps := steps + [WorkerCount];
  }

  /** One such run: a box is rendered, PAUSE clears it, and the count is still one. */
  lemma CountLingers(box: BoundingBox) returns (steps: seq<Step>)
    ensures Runs(Start(true), steps)
    ensures var t := Final(Start(true), steps); t.loop.shown == [] && t.loop.activeBoxCount == 1
  {
    var s := Start(true);
    steps := OnePublished(box);
    hide Runs, Final;
    Then(s, steps, MainTurn);
    steps := steps + [MainTurn];
    Then(s, steps, MainLoad);
    steps := steps + [MainLoad];
    Then(s, steps, MainConsume);
    steps := steps + [MainConsume];
    Then(s, steps, MainRender);
    steps := steps + [MainRender];
    Then(s, steps, MainTurn);
    steps := steps + [MainTurn];
    Then(s, steps, MainCommand(Pause));
    steps := steps + [MainCommand(Pause)];
    Then(s, steps, MainReset);
    steps := steps + [MainReset];
    Then(s, steps, MainPauseRender);
    steps := steps + [MainPauseRender];
  }

  // ---------- Progress ----------

  /** Main waits for the worker: for a mutex that it holds, or for it to exit. */
  predicate Waits(s: State) {
    || ((s.loop.pc.Resetting? || s.loop.pc.Configuring?) && s.worker.Tracking?)
    || (s.loop.pc.Consuming? && s.worker.ClearCounting?)
    || (s.loop.pc.Joining? && !s.worker.Exited?)
  }

  /** Until main is done it can always move unless it waits, and then the worker can. */
  lemma NoDeadlock(s: State)
    requires Inv(s) && !s.loop.pc.Done?
    ensures Enabled(s, MainNext(s.loop.pc)) <==> !Waits(s)
    ensures !s.worker.Exited? ==> ByWorker(WorkerNext(s.worker)) && Enabled(s, WorkerNext(s.worker))
    ensures Waits(s) ==> !s.worker.Exited?
  {
  }

  /** Waiting for a mutex ends with whatever step the worker takes next. */
  lemma MutexReleased(s: State, step: Step)
    requires Waits(s) && !s.loop.pc.Joining? && Enabled(s, step) && ByWorker(step)
    ensures !Waits(After(s, step)) && After(s, step).loop == s.loop
  {
  }

  /** The worker can take exactly this step, whatever main does. */
  function WorkerNext(worker: WorkerPc): Step
    requires !worker.Exited?
  {
    match worker
    case AtLoop => WorkerLoop
    case Choosing => WorkerChoose
    case Capturing => WorkerCapture(false)
    case Tracking => WorkerTrack([])
    case Publishing(_) => WorkerPublish
    case Counting => WorkerCount
    case Clearing => WorkerClear
    case ClearCounting => WorkerClearCount
  }

  function MainNext(pc: MainPc): Step
    requires !pc.Done?
  {
    match pc
    case MainLoop => MainTurn
    case Commands => MainLoad
    case Resetting => MainReset
    case PauseRendering => MainPauseRender
    case Configuring => MainConfigure
    case Consuming(_) => MainConsume
    case Rendering => MainRender
    case Joining => MainJoin
  }

  /** Worker steps left before it must look at the stop flag again. */
  function WorkerSteps(worker: WorkerPc): nat {
    match worker
    case Exited => 0
    case AtLoop => 1
    case Counting | ClearCounting => 2
    case Publishing(_) | Clearing => 3
    case Tracking => 4
    case Capturing => 5
    case Choosing => 6
  }

  /** Once asked to stop, the worker exits after at most six more of its own steps. */
  lemma JoinEnds(s: State, step: Step)
    requires !s.flags.workerRunning && Enabled(s, step)
    ensures !After(s, step).flags.workerRunning
    ensures ByWorker(step) ==> WorkerSteps(After(s, step).worker) < WorkerSteps(s.worker) <= 6
    ensures !ByWorker(step) ==> After(s, step).worker == s.worker
    ensures !s.worker.Exited? ==> exists next :: ByWorker(next) && Enabled(s, next)
  {
    if !s.worker.Exited? { assert ByWorker(WorkerNext(s.worker)) && Enabled(s, WorkerNext(s.worker)); }
  }
}
