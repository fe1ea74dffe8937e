/** A disconnected server and its descriptor: whether a disconnect that overlaps a reconnect is told apart from one
    of the connection before. */
module ServerDisconnects {
  import opened Bytes
  import opened ServerLifetime
  import opened ServerRuns

  /** A connect of the server has started its generation and not yet published its descriptor. */
  predicate InGap(a: State, t: Tid, s: Sid) {
    WorksOn(a, t, s) && (PhaseOf(a, t).Bumped? || PhaseOf(a, t).Dialing? || PhaseOf(a, t).Dialed?)
  }

  /** The generation a plain disconnect reads is not one whose descriptor is still to come. */
  ghost predicate Prompt(a: State, step: Step) {
    step.ReadGeneration? && PhaseOf(a, step.t).Leaving? && PhaseOf(a, step.t).part == Alone ==>
      forall u :: !InGap(a, u, PhaseOf(a, step.t).s)
  }

  ghost predicate PromptRun(steps: seq<Step>, states: seq<State>) {
    Run(steps, states) && forall i :: 0 <= i < |steps| ==> Prompt(states[i], steps[i])
  }

  /** The thread ends the connection the server has now. */
  predicate Current(a: State, t: Tid, s: Sid)
    requires s in a.servers
  {
    var p := PhaseOf(a, t);
    WorksOn(a, t, s) && (p.Seen? || p.Taken? || p.Closed?) && p.gen == a.servers[s].generation
  }

  ghost predicate NoneInGap(a: State, s: Sid) {
    forall u :: !InGap(a, u, s)
  }

  ghost predicate CleanThread(a: State, t: Tid, s: Sid)
    requires s in a.servers
  {
    Current(a, t, s) ==>
      && (PhaseOf(a, t).part == Alone ==> NoneInGap(a, s))
      && (!PhaseOf(a, t).Seen? && PhaseOf(a, t).part != OfRemove ==> a.servers[s].fd == -1)
  }

  /** A disconnected server has no descriptor, and nobody who will mark it so will find one. */
  ghost predicate Clean(a: State) {
    forall s :: s in a.servers ==>
      (a.servers[s].state == Disconnected ==> a.servers[s].fd == -1) && forall t :: CleanThread(a, t, s)
  }

  /** A thread enters the gap by starting a generation. */
  lemma GapStep(a: State, step: Step)
    requires Enabled(a, step) && Target(a, step) in a.servers
    ensures var b, s := Apply(a, step), Target(a, step);
      && s in b.servers && b.servers[s].generation >= a.servers[s].generation
      && (InGap(b, step.t, s) && !InGap(a, step.t, s) ==> b.servers[s].generation > a.servers[s].generation)
  {
    hide Apply, Enabled, Target, NextServer, NextPhase, Fits;
    NotCreate(a, step);
    Frame(a, step);
    StepServer(a, step);
    StepPhase(a, step);
    var s := Target(a, step);
    GapNext(a.servers[s], PhaseOf(a, step.t), step, s, s in a.list);
  }

  predicate Gapped(p: Phase) {
    p.Bumped? || p.Dialing? || p.Dialed?
  }

  lemma GapNext(v: Server, p: Phase, step: Step, s: Sid, listed: bool)
    requires Fits(p, step, s) && !step.Create?
    ensures var w, q := NextServer(v, p, step, s, listed), NextPhase(v, p, step, s, listed);
      w.generation >= v.generation && (Gapped(q) && !Gapped(p) ==> w.generation > v.generation)
  {
  }

  /** A server gets a descriptor from a thread that leaves the gap. */
  lemma PublishStep(a: State, step: Step)
    requires Enabled(a, step) && Target(a, step) in a.servers
    ensures var b, s := Apply(a, step), Target(a, step);
      && s in b.servers
      && (b.servers[s].fd >= 0 ==> b.servers[s].fd == a.servers[s].fd || PhaseOf(a, step.t).Dialed?)
  {
    hide Apply, Enabled, Target, NextServer, Fits;
    NotCreate(a, step);
    Frame(a, step);
    StepServer(a, step);
    var s := Target(a, step);
    PublishNext(a.servers[s], PhaseOf(a, step.t), step, s, s in a.list);
  }

  lemma PublishNext(v: Server, p: Phase, step: Step, s: Sid, listed: bool)
    requires Fits(p, step, s) && !step.Create?
    ensures var w := NextServer(v, p, step, s, listed); w.fd >= 0 ==> w.fd == v.fd || p.Dialed?
  {
  }

  lemma StaysOn(a: State, step: Step)
    requires Enabled(a, step)
    ensures !PhaseOf(Apply(a, step), step.t).Idle? ==> PhaseOf(Apply(a, step), step.t).s == Target(a, step)
  {
    hide Apply, Enabled, Target, NextServer, NextPhase, Fits;
    if Target(a, step) in a.servers {
      NotCreate(a, step);
      StepPhase(a, step);
      var s := Target(a, step);
      PhaseMoves(a.servers[s], PhaseOf(a, step.t), step, s, s in a.list);
    } else {
      StaysOnNone(a, step);
    }
  }

  lemma StaysOnNone(a: State, step: Step)
    requires Enabled(a, step) && Target(a, step) !in a.servers
    ensures !PhaseOf(Apply(a, step), step.t).Idle? ==> PhaseOf(Apply(a, step), step.t).s == Target(a, step)
  {
    hide Has, Give, Without, Dropped;
  }

  lemma OwnMark(a: State, step: Step)
    requires Enabled(a, step) && ThreadOk(a, step.t) && ListOk(a) && Target(a, step) in a.servers
    requires CleanThread(a, step.t, Target(a, step))
    requires a.servers[Target(a, step)].state == Disconnected ==> a.servers[Target(a, step)].fd == -1
    ensures var b, s := Apply(a, step), Target(a, step);
      s in b.servers && (b.servers[s].state == Disconnected ==> b.servers[s].fd == -1)
  {
    hide Apply, Enabled, Target, NextServer, NextPhase, NoneInGap, InGap, Has, Suits;
    NotCreate(a, step);
    Frame(a, step);
    StepServer(a, step);
    var s, p := Target(a, step), PhaseOf(a, step.t);
    if !p.Idle? {
      RemovesDestroyed(a.servers[s], p, step.t);
    }
    MarkNext(a.servers[s], p, step, s, s in a.list);
  }

  lemma RemovesDestroyed(v: Server, p: Phase, t: Tid)
    requires Suits(v, p, t)
    ensures p.InRemove() ==> v.state.Destroyed?
  {
  }

  /** The phase ends the connection that the server has now. */
  predicate Ends(v: Server, p: Phase) {
    (p.Seen? || p.Taken? || p.Closed?) && p.gen == v.generation
  }

  lemma MarkNext(v: Server, p: Phase, step: Step, s: Sid, listed: bool)
    requires Fits(p, step, s) && !step.Create? && (p.InRemove() ==> v.state.Destroyed?)
    requires Ends(v, p) && !p.Seen? && p.part != OfRemove ==> v.fd == -1
    requires v.state == Disconnected ==> v.fd == -1
    ensures var w := NextServer(v, p, step, s, listed); w.state == Disconnected ==> w.fd == -1
  {
  }

  lemma OwnStep(a: State, step: Step)
    requires Enabled(a, step) && Target(a, step) in a.servers && CleanThread(a, step.t, Target(a, step))
    ensures var b, s := Apply(a, step), Target(a, step);
      s in b.servers &&
      (Current(b, step.t, s) ==>
         && (!PhaseOf(b, step.t).Seen? && PhaseOf(b, step.t).part != OfRemove ==> b.servers[s].fd == -1)
         && !InGap(b, step.t, s)
         && (step.ReadGeneration? || (Current(a, step.t, s) && PhaseOf(b, step.t).part == PhaseOf(a, step.t).part)))
  {
    hide Apply, Enabled, Target, NextServer, NextPhase, NoneInGap;
    NotCreate(a, step);
    Frame(a, step);
    StepServer(a, step);
    StepPhase(a, step);
    var s := Target(a, step);
    EndsNext(a.servers[s], PhaseOf(a, step.t), step, s, s in a.list);
  }

  lemma EndsNext(v: Server, p: Phase, step: Step, s: Sid, listed: bool)
    requires Fits(p, step, s) && !step.Create?
    requires Ends(v, p) && !p.Seen? && p.part != OfRemove ==> v.fd == -1
    ensures var w, q := NextServer(v, p, step, s, listed), NextPhase(v, p, step, s, listed);
      Ends(w, q) ==>
        && (!q.Seen? && q.part != OfRemove ==> w.fd == -1)
        && (step.ReadGeneration? || (p.s == s && Ends(v, p) && q.part == p.part))
  {
  }

  lemma OtherClean(a: State, step: Step, u: Tid)
    requires Inv(a) && Enabled(a, step) && Target(a, step) in a.servers && u != step.t
    requires CleanThread(a, u, Target(a, step))
    ensures Target(a, step) in Apply(a, step).servers && CleanThread(Apply(a, step), u, Target(a, step))
  {
    hide Apply, Enabled, Target, Counted, Owned, ServerOk, Has;
    var b, s := Apply(a, step), Target(a, step);
    Frame(a, step);
    GapStep(a, step);
    PublishStep(a, step);
    GentleStep(a, step);
    assert ThreadOk(a, u) && ThreadOk(a, step.t);
    if Current(b, u, s) {
      assert Current(a, u, s);
      assert PhaseOf(a, step.t).Dialed? ==> InGap(a, step.t, s);
      if NoneInGap(a, s) {
        GapFrame(a, step);
      }
    }
  }

  lemma OwnClean(a: State, step: Step)
    requires Inv(a) && Enabled(a, step) && Target(a, step) in a.servers && Prompt(a, step)
    requires CleanThread(a, step.t, Target(a, step))
    requires a.servers[Target(a, step)].state == Disconnected ==> a.servers[Target(a, step)].fd == -1
    ensures var b, s := Apply(a, step), Target(a, step);
      s in b.servers && CleanThread(b, step.t, s) && (b.servers[s].state == Disconnected ==> b.servers[s].fd == -1)
  {
    hide Apply, Counted, Owned, ServerOk, Has, ListOk, ThreadOk, Target;
    Frame(a, step);
    OwnStep(a, step);
    OwnMark(a, step);
    var b, s := Apply(a, step), Target(a, step);
    if step.ReadGeneration? {
      ReadPart(a, step);
    }
    if Current(b, step.t, s) && PhaseOf(b, step.t).part == Alone {
      assert NoneInGap(a, s);
      GapFrame(a, step);
    }
  }

  lemma GapFrame(a: State, step: Step)
    requires Enabled(a, step) && NoneInGap(a, Target(a, step))
    requires !InGap(Apply(a, step), step.t, Target(a, step))
    ensures NoneInGap(Apply(a, step), Target(a, step))
  {
    hide Apply, Enabled, Target;
    Frame(a, step);
    forall u ensures !InGap(Apply(a, step), u, Target(a, step)) {
      assert u != step.t ==> InGap(Apply(a, step), u, Target(a, step)) == InGap(a, u, Target(a, step));
    }
  }

  lemma ReadPart(a: State, step: Step)
    requires Enabled(a, step) && step.ReadGeneration?
    ensures PhaseOf(a, step.t).Leaving? && PhaseOf(a, step.t).s == Target(a, step)
    ensures PhaseOf(Apply(a, step), step.t).Seen? && PhaseOf(Apply(a, step), step.t).part == PhaseOf(a, step.t).part
  {
  }

  lemma CleanKept(a: State, step: Step)
    requires Inv(a) && Clean(a) && Enabled(a, step) && Prompt(a, step)
    ensures Clean(Apply(a, step))
  {
    hide Inv, Apply, Enabled, Target, Prompt, Current, NoneInGap;
    var b := Apply(a, step);
    Frame(a, step);
    StaysOn(a, step);
    forall s | s in b.servers
      ensures (b.servers[s].state == Disconnected ==> b.servers[s].fd == -1) && forall t :: CleanThread(b, t, s)
    {
      if s != Target(a, step) {
        ElsewhereClean(a, step, s);
      } else if s in a.servers {
        assert CleanThread(a, step.t, s);
        OwnClean(a, step);
        forall t ensures CleanThread(b, t, s) {
          if t != step.t {
            assert CleanThread(a, t, s);
            OtherClean(a, step, t);
          }
        }
      } else {
        NewClean(a, step);
      }
    }
  }

  lemma ElsewhereClean(a: State, step: Step, s: Sid)
    requires Clean(a) && Enabled(a, step) && s in a.servers && s != Target(a, step)
    ensures s in Apply(a, step).servers && Apply(a, step).servers[s] == a.servers[s]
    ensures forall t :: CleanThread(Apply(a, step), t, s)
  {
    hide Apply, Enabled, Target;
    var b := Apply(a, step);
    Frame(a, step);
    StaysOn(a, step);
    forall t ensures CleanThread(b, t, s) {
      assert CleanThread(a, t, s);
      assert forall u :: InGap(b, u, s) ==> InGap(a, u, s);
      assert NoneInGap(a, s) ==> NoneInGap(b, s);
    }
  }

  lemma NewClean(a: State, step: Step)
    requires Inv(a) && Enabled(a, step) && Target(a, step) !in a.servers && Target(a, step) in Apply(a, step).servers
    ensures var b, s := Apply(a, step), Target(a, step);
      b.servers[s].fd == -1 && forall t :: CleanThread(b, t, s)
  {
    hide Counted, ListOk, Owned, Has, Give, Without;
    var b, s := Apply(a, step), Target(a, step);
    assert step.Create?;
    forall t ensures !WorksOn(b, t, s) {
      assert ThreadOk(a, t);
    }
  }

  lemma {:induction false} RunClean(steps: seq<Step>, states: seq<State>, i: nat)
    requires PromptRun(steps, states) && i < |states|
    ensures Clean(states[i])
  {
    hide Apply, Enabled, Inv, Prompt, Clean;
    if i == 0 {
      StartClean();
    } else {
      RunInv(steps, states, i - 1);
      RunClean(steps, states, i - 1);
      CleanKept(states[i - 1], steps[i - 1]);
    }
  }

  lemma StartClean()
    ensures Clean(START)
  {
  }

  /** While no plain disconnect starts in a connect's gap, a disconnected server has no descriptor, at any time;
      with ConnectedAtRest, a server at rest then has a descriptor exactly when it is connected or connecting. */
  lemma DisconnectedHasNone(steps: seq<Step>, states: seq<State>, i: nat, s: Sid)
    requires PromptRun(steps, states) && i < |states| && s in states[i].servers
    ensures states[i].servers[s].state == Disconnected ==> states[i].servers[s].fd == -1
    ensures AtRest(states[i]) ==>
      (states[i].servers[s].fd >= 0 <==> states[i].servers[s].state == Connected || states[i].servers[s].state == Connecting)
  {
    RunClean(steps, states, i);
    if AtRest(states[i]) {
      NothingLeaks(steps, states, i);
      if states[i].servers[s].state == Connected || states[i].servers[s].state == Connecting {
        ConnectedAtRest(steps, states, i, s);
      }
    }
  }

  // ----- exactly when it fails

  /** The mark of a disconnect that finds the generation it read, and a descriptor published since it took one. */
  predicate LateMark(a: State, step: Step) {
    var p := PhaseOf(a, step.t);
    && step.MarkDisconnected? && p.Closed? && p.s in a.servers
    && p.gen == a.servers[p.s].generation && a.servers[p.s].fd >= 0
    && (a.servers[p.s].state == Connected || a.servers[p.s].state == Connecting)
  }

  ghost predicate NoneOpen(a: State) {
    forall s :: s in a.servers && a.servers[s].state == Disconnected ==> a.servers[s].fd == -1
  }

  lemma LateStep(a: State, step: Step)
    requires Inv(a) && NoneOpen(a) && Enabled(a, step)
    ensures NoneOpen(Apply(a, step)) <==> !LateMark(a, step)
  {
    hide Inv, Apply, Enabled, Target;
    var b, s := Apply(a, step), Target(a, step);
    Frame(a, step);
    Bounds(a, step);
    LateTarget(a, step);
    if LateMark(a, step) {
      assert s in b.servers;
    }
  }

  lemma Bounds(a: State, step: Step)
    requires Inv(a) && Enabled(a, step)
    ensures PhaseOf(a, step.t).Dialed? ==> PhaseOf(a, step.t).part != OfRemove
    ensures Target(a, step) in a.servers ==> a.servers[Target(a, step)].fd >= -1
  {
    hide Enabled, Target;
    assert ThreadOk(a, step.t);
    assert Target(a, step) in a.servers ==> ServerOk(a, Target(a, step));
  }

  lemma LateTarget(a: State, step: Step)
    requires NoneOpen(a) && Enabled(a, step)
    requires PhaseOf(a, step.t).Dialed? ==> PhaseOf(a, step.t).part != OfRemove
    requires Target(a, step) in a.servers ==> a.servers[Target(a, step)].fd >= -1
    ensures var b, s := Apply(a, step), Target(a, step);
      && (s in b.servers && b.servers[s].state == Disconnected && b.servers[s].fd != -1 <==> LateMark(a, step))
  {
    hide Apply, Enabled, Target, NextServer, NextPhase, Has;
    var s, p := Target(a, step), PhaseOf(a, step.t);
    if s in a.servers {
      NotCreate(a, step);
      Frame(a, step);
      StepServer(a, step);
      LateNext(a.servers[s], p, step, s, s in a.list);
    } else if step.Create? {
      CreateServer(a, step);
      CreateTarget(a, step);
    } else {
      NoServer(a, step);
    }
  }

  lemma NoServer(a: State, step: Step)
    requires Enabled(a, step) && !step.Create? && Target(a, step) !in a.servers
    ensures Target(a, step) !in Apply(a, step).servers && !step.MarkDisconnected?
  {
    hide Has, Give, Without, AfterFailure, Dropped;
  }

  lemma LateNext(v: Server, p: Phase, step: Step, s: Sid, listed: bool)
    requires Fits(p, step, s) && !step.Create? && v.fd >= -1 && (v.state == Disconnected ==> v.fd == -1)
    ensures var w := NextServer(v, p, step, s, listed);
      w.state == Disconnected && w.fd != -1 <==>
        step.MarkDisconnected? && p.gen == v.generation && v.fd >= 0 && (v.state == Connected || v.state == Connecting)
  {
  }

  /** A run keeps every disconnected server free of a descriptor exactly when none of its steps is a late mark. */
  lemma {:induction false} ExactlyLate(steps: seq<Step>, states: seq<State>, n: nat)
    requires Run(steps, states) && n <= |steps|
    ensures (forall i :: 0 <= i <= n ==> NoneOpen(states[i])) <==> (forall i :: 0 <= i < n ==> !LateMark(states[i], steps[i]))
  {
    hide Apply, Enabled, LateMark, Inv;
    if n == 0 {
      StartClean();
    } else {
      ExactlyLate(steps, states, n - 1);
      RunInv(steps, states, n - 1);
      if NoneOpen(states[n - 1]) {
        LateStep(states[n - 1], steps[n - 1]);
        assert states[n] == Apply(states[n - 1], steps[n - 1]);
      }
    }
  }

  // ----- a disconnect in the gap

  /** Some run ends in the state. */
  ghost predicate Reached(a: State) {
    exists steps, states :: Run(steps, states) && states[|steps|] == a
  }

  lemma Go(a: State, step: Step) returns (b: State)
    requires Reached(a) && Enabled(a, step)
    ensures b == Apply(a, step) && Reached(b)
  {
    hide Apply, Enabled;
    b := Apply(a, step);
    var steps, states :| Run(steps, states) && states[|steps|] == a;
    assert Run(steps + [step], states + [b]) && (states + [b])[|steps + [step]|] == b;
  }

  /** Server 0 alone, listed, with threads 2 and 3 holding it. */
  function With(v: Server, threads: map<Tid, Phase>, open: map<int, Owner>): State {
    State(map[0 := v], [0], threads, map[0 := Hold(2, 0), 1 := Hold(3, 0)], open)
  }

  /** Thread 1 connected server 0 on descriptor 5. */
  const UP := Server(1, 5, Connected, 1, 0, 1, true, None, None)
  const HELD := With(UP.(refcount := 3), map[1 := Idle], map[5 := OfServer(0)])

  /** Thread 2 reconnects it and has just started generation 2. */
  const RESUMING := UP.(refcount := 3, fd := -1, generation := 2, reconnector := Some(2))
  const PROBING := With(UP.(refcount := 3, reconnector := Some(2)), map[1 := Idle, 2 := Probing(0)], map[5 := OfServer(0)])
  const TOOK := With(RESUMING.(generation := 1), map[1 := Idle, 2 := Took(0, OfReconnect, 5)], map[5 := OfThread(2)])
  const GAP := With(RESUMING, map[1 := Idle, 2 := Bumped(0, OfReconnect, 5)], map[5 := OfThread(2)])

  /** Thread 3 begins a disconnect, and finds no descriptor to take. */
  const SEEN := With(RESUMING, map[1 := Idle, 2 := Bumped(0, OfReconnect, 5), 3 := Seen(0, Alone, 2)],
                     map[5 := OfThread(2)])
  const OVERLAP := With(RESUMING, map[1 := Idle, 2 := Bumped(0, OfReconnect, 5), 3 := Closed(0, Alone, 2)],
                        map[5 := OfThread(2)])

  /** Thread 2 has published descriptor 6. */
  const AGAIN := With(RESUMING.(fd := 6, state := Connecting), map[1 := Idle, 2 := LoggingIn(0), 3 := Closed(0, Alone, 2)],
                      map[6 := OfServer(0)])

  /** The reconnect succeeded, and thread 3 then marked the server disconnected. */
  const LATE := With(Server(3, 6, Disconnected, 2, 0, 1, true, None, None), map[1 := Idle, 2 := Idle, 3 := Idle],
                     map[6 := OfServer(0)])

  lemma StartReached()
    ensures Reached(START)
  {
    assert Run([], [START]);
  }

  lemma ToConnected() returns (a: State)
    ensures Reached(a) && a == State(map[0 := UP], [0], map[1 := Idle], map[], map[5 := OfServer(0)])
  {
    hide Reached, Has;
    StartReached();
    a := Go(START, Create(1, 0));
    a := Go(a, ConnectStart(1, 0));
    a := Go(a, Bump(1));
    a := Go(a, CloseOld(1));
    a := Go(a, DialOk(1, 5));
    a := Go(a, Publish(1));
    a := Go(a, CompleteLogin(1, 0));
    assert a.servers == map[0 := UP] && a.threads == map[1 := Idle] && a.open == map[5 := OfServer(0)];
  }

  lemma ToHeld()
    ensures Reached(HELD)
  {
    hide Reached, Has;
    var a := ToConnected();
    a := Go(a, LookupHold(2, 0, 0));
    a := Go(a, LookupHold(3, 0, 1));
    assert a.servers == HELD.servers && a.holds == HELD.holds;
  }

  lemma ToGap()
    ensures Reached(GAP)
  {
    hide Reached, Has;
    ToTook();
    var a := Go(TOOK, Bump(2));
    assert a.servers == GAP.servers && a.threads == GAP.threads;
  }

  lemma ToTook()
    ensures Reached(TOOK)
  {
    hide Reached, Has;
    ToProbing();
    var a := Go(PROBING, ProbeDone(2, true));
    assert a.servers == TOOK.servers && a.threads == TOOK.threads && a.open == TOOK.open;
  }

  lemma ToProbing()
    ensures Reached(PROBING)
  {
    hide Reached, Has;
    ToHeld();
    Holds23(HELD);
    var a := Go(HELD, ReconnectStart(2, 0));
    assert a.servers == PROBING.servers && a.threads == PROBING.threads;
  }

  lemma Holds23(a: State)
    requires a.holds == map[0 := Hold(2, 0), 1 := Hold(3, 0)]
    ensures Has(a, 2, 0) && Has(a, 3, 0)
  {
    assert a.holds[0] == Hold(2, 0) && a.holds[1] == Hold(3, 0);
  }

  lemma ToSeen()
    ensures Reached(SEEN)
  {
    hide Reached, Has;
    ToGap();
    Holds23(GAP);
    var a := Go(GAP, DisconnectStart(3, 0));
    a := Go(a, ReadGeneration(3));
    assert a.threads == SEEN.threads;
  }

  lemma ToOverlap()
    ensures Reached(OVERLAP)
  {
    hide Reached, Has;
    ToSeen();
    var a := Go(SEEN, TakeDescriptor(3));
    a := Go(a, CloseTaken(3));
    assert a.servers == OVERLAP.servers && a.threads == OVERLAP.threads && a.open == OVERLAP.open;
  }

  lemma ToAgain()
    ensures Reached(AGAIN)
  {
    hide Reached, Has;
    ToOverlap();
    var a := Go(OVERLAP, CloseOld(2));
    a := Go(a, DialOk(2, 6));
    a := Go(a, Publish(2));
    assert a.servers == AGAIN.servers && a.threads == AGAIN.threads && a.open == AGAIN.open;
  }

  /** A disconnect that starts in a reconnect's gap neither takes the new descriptor nor fails the reconnect, and
      leaves a disconnected server with an open descriptor: at rest, nothing is left to undo it. */
  lemma LateDisconnect()
    ensures Reached(LATE) && AtRest(LATE)
    ensures LATE.servers[0].state == Disconnected && LATE.servers[0].fd in LATE.open
  {
    hide Reached, Has;
    ToAgain();
    var a := Go(AGAIN, LoginDone(2, true));
    a := Go(a, ReconnectEnd(2));
    a := Go(a, MarkDisconnected(3));
    assert a.servers == LATE.servers && a.threads == LATE.threads;
  }

  // ----- a disconnect inside a reconnect, before its generation

  ghost predicate Leads(a: State, steps: seq<Step>, b: State) {
    if steps == [] then a == b else
      var n := |steps| - 1;
      exists m :: Leads(a, steps[..n], m) && Enabled(m, steps[n]) && b == Apply(m, steps[n])
  }

  lemma LeadsOn(a: State, steps: seq<Step>, m: State, step: Step) returns (b: State)
    requires Leads(a, steps, m) && Enabled(m, step)
    ensures b == Apply(m, step) && Leads(a, steps + [step], b)
  {
    hide Apply, Enabled;
    b := Apply(m, step);
    assert (steps + [step])[..|steps|] == steps;
  }

  /** Thread 3's whole disconnect, and then the rest of thread 2's reconnect. */
  const EARLY := [DisconnectStart(3, 0), ReadGeneration(3), TakeDescriptor(3), CloseTaken(3), MarkDisconnected(3)]
  const RESUME := [ProbeDone(2, true), Bump(2), CloseOld(2), DialOk(2, 6), Publish(2), LoginDone(2, true), ReconnectEnd(2)]

  const GONE := With(UP.(refcount := 3, fd := -1, state := Disconnected, reconnector := Some(2)),
                     map[1 := Idle, 2 := Probing(0), 3 := Idle], map[])
  const BACK := With(Server(3, 6, Connected, 2, 0, 1, true, None, None), map[1 := Idle, 2 := Idle, 3 := Idle],
                     map[6 := OfServer(0)])

  /** A disconnect that begins and ends while a reconnect runs, before the reconnect starts its generation, does not fail
      it: the reconnect ends connected. */
  lemma EarlyDisconnect()
    ensures Reached(PROBING) && Reconnects(PROBING, 2, 0)
    ensures Leads(PROBING, EARLY, GONE) && Leads(GONE, RESUME, BACK)
    ensures AtRest(BACK) && BACK.servers[0].state == Connected && BACK.servers[0].fd in BACK.open
  {
    hide Leads, Reached;
    ToProbing();
    Disconnecting();
    Resuming();
  }

  lemma {:induction false} LeadsThrough(a: State, first: seq<Step>, m: State, second: seq<Step>, b: State)
    requires Leads(a, first, m) && Leads(m, second, b)
    ensures Leads(a, first + second, b)
  {
    hide Apply, Enabled;
    if second == [] {
      assert first + second == first;
    } else {
      var n := |second| - 1;
      var c :| Leads(m, second[..n], c) && Enabled(c, second[n]) && b == Apply(c, second[n]);
      LeadsThrough(a, first, m, second[..n], c);
      assert (first + second)[..|first + second| - 1] == first + second[..n];
    }
  }

  lemma LeadsNowhere(a: State)
    ensures Leads(a, [], a)
  {
  }

  lemma LeadsTwice(a: State, x: Step, y: Step) returns (b: State)
    requires Enabled(a, x) && Enabled(Apply(a, x), y)
    ensures b == Apply(Apply(a, x), y) && Leads(a, [x, y], b)
  {
    hide Apply, Enabled, Leads;
    LeadsNowhere(a);
    b := LeadsOn(a, [], a, x);
    b := LeadsOn(a, [] + [x], b, y);
    assert [] + [x] + [y] == [x, y];
  }

  const LOOKING := With(UP.(refcount := 3, reconnector := Some(2)), map[1 := Idle, 2 := Probing(0), 3 := Seen(0, Alone, 1)],
                        map[5 := OfServer(0)])
  const TAKEN := With(UP.(refcount := 3, fd := -1, reconnector := Some(2)),
                      map[1 := Idle, 2 := Probing(0), 3 := Closed(0, Alone, 1)], map[])

  lemma Disconnecting()
    ensures Leads(PROBING, EARLY, GONE)
  {
    hide Leads, Apply, Enabled;
    DisconnectLooks();
    DisconnectTakes();
    DisconnectMarks();
    LeadsThrough(PROBING, EARLY[..2], LOOKING, EARLY[2..4], TAKEN);
    LeadsThrough(PROBING, EARLY[..2] + EARLY[2..4], TAKEN, EARLY[4..], GONE);
    assert EARLY[..2] + EARLY[2..4] + EARLY[4..] == EARLY;
  }

  lemma DisconnectLooks()
    ensures Leads(PROBING, EARLY[..2], LOOKING)
  {
    hide Leads, Has;
    Holds23(PROBING);
    var a := LeadsTwice(PROBING, EARLY[0], EARLY[1]);
    assert a.threads == LOOKING.threads && EARLY[..2] == [EARLY[0], EARLY[1]];
  }

  lemma DisconnectTakes()
    ensures Leads(LOOKING, EARLY[2..4], TAKEN)
  {
    hide Leads, Has;
    var a := LeadsTwice(LOOKING, EARLY[2], EARLY[3]);
    assert a.servers == TAKEN.servers && a.threads == TAKEN.threads && a.open == TAKEN.open;
    assert EARLY[2..4] == [EARLY[2], EARLY[3]];
  }

  lemma DisconnectMarks()
    ensures Leads(TAKEN, EARLY[4..], GONE)
  {
    hide Leads, Has;
    LeadsNowhere(TAKEN);
    var a := LeadsOn(TAKEN, [], TAKEN, EARLY[4]);
    assert a.servers == GONE.servers && a.threads == GONE.threads;
    assert [] + [EARLY[4]] == EARLY[4..];
  }

  const STARTED := With(GONE.servers[0].(generation := 2), map[1 := Idle, 2 := Bumped(0, OfReconnect, -1), 3 := Idle], map[])
  const DIALED := With(GONE.servers[0].(generation := 2), map[1 := Idle, 2 := Dialed(0, OfReconnect, 6), 3 := Idle],
                       map[6 := OfThread(2)])
  const LOGGED := With(GONE.servers[0].(generation := 2, fd := 6, state := Connected),
                       map[1 := Idle, 2 := Ending(0), 3 := Idle], map[6 := OfServer(0)])

  lemma Resuming()
    ensures Leads(GONE, RESUME, BACK)
  {
    hide Leads, Apply, Enabled;
    ReconnectStarts();
    ReconnectDials();
    ReconnectLogs();
    ReconnectStops();
    LeadsThrough(GONE, RESUME[..2], STARTED, RESUME[2..4], DIALED);
    LeadsThrough(GONE, RESUME[..2] + RESUME[2..4], DIALED, RESUME[4..6], LOGGED);
    LeadsThrough(GONE, RESUME[..2] + RESUME[2..4] + RESUME[4..6], LOGGED, RESUME[6..], BACK);
    assert RESUME[..2] + RESUME[2..4] + RESUME[4..6] + RESUME[6..] == RESUME;
  }

  lemma ReconnectStarts()
    ensures Leads(GONE, RESUME[..2], STARTED)
  {
    hide Leads, Has;
    var a := LeadsTwice(GONE, RESUME[0], RESUME[1]);
    assert a.servers == STARTED.servers && a.threads == STARTED.threads && RESUME[..2] == [RESUME[0], RESUME[1]];
  }

  lemma ReconnectDials()
    ensures Leads(STARTED, RESUME[2..4], DIALED)
  {
    hide Leads, Has;
    var a := LeadsTwice(STARTED, RESUME[2], RESUME[3]);
    assert a.threads == DIALED.threads && a.open == DIALED.open && RESUME[2..4] == [RESUME[2], RESUME[3]];
  }

  lemma ReconnectLogs()
    ensures Leads(DIALED, RESUME[4..6], LOGGED)
  {
    hide Leads, Has;
    var a := LeadsTwice(DIALED, RESUME[4], RESUME[5]);
    assert a.servers == LOGGED.servers && a.threads == LOGGED.threads && a.open == LOGGED.open;
    assert RESUME[4..6] == [RESUME[4], RESUME[5]];
  }

  lemma ReconnectStops()
    ensures Leads(LOGGED, RESUME[6..], BACK)
  {
    hide Leads, Has;
    LeadsNowhere(LOGGED);
    var a := LeadsOn(LOGGED, [], LOGGED, RESUME[6]);
    assert a.servers == BACK.servers && a.threads == BACK.threads && [] + [RESUME[6]] == RESUME[6..];
  }
}
