/** What holds over every run of the server protocol, whatever the interleaving. */
module ServerRuns {
  import opened Bytes
  import opened ServerLifetime

  lemma {:induction false} RunInv(steps: seq<Step>, states: seq<State>, i: nat)
    requires Run(steps, states) && i < |states|
    ensures Inv(states[i])
  {
    hide Apply, Enabled, Inv;
    if i == 0 {
      StartInv();
    } else {
      RunInv(steps, states, i - 1);
      InvKept(states[i - 1], steps[i - 1]);
    }
  }

  lemma StartInv()
    ensures Inv(START)
  {
  }

  // ----- one thread reconnects, and the count is right

  /** One thread reconnects a server at a time, and the flag is set exactly while it does. */
  lemma OneReconnect(steps: seq<Step>, states: seq<State>, i: nat, s: Sid)
    requires Run(steps, states) && i < |states| && s in states[i].servers
    ensures forall t, u :: Reconnects(states[i], t, s) && Reconnects(states[i], u, s) ==> t == u
    ensures states[i].servers[s].reconnector.Some? <==> exists t :: Reconnects(states[i], t, s)
  {
    RunInv(steps, states, i);
    var a := states[i];
    hide Run, Apply, Enabled, Counted, ListOk, Owned, Has;
    assert forall t :: Reconnects(a, t, s) ==> ThreadOk(a, t);
    assert ServerOk(a, s);
    if a.servers[s].reconnector.Some? {
      assert Reconnects(a, a.servers[s].reconnector.value, s);
    }
  }

  predicate Reconnects(a: State, t: Tid, s: Sid) {
    PhaseOf(a, t).InReconnect() && PhaseOf(a, t).s == s
  }

  /** The threads that are inside a call on the server. */
  predicate WorksOn(a: State, t: Tid, s: Sid) {
    !PhaseOf(a, t).Idle? && PhaseOf(a, t).s == s
  }

  /** A server's count is its holds and the creation's reference; it is freed once at most, and by then it is
      off the list, nobody holds it, no call is at work on it and its descriptor is closed. */
  lemma FreedOnce(steps: seq<Step>, states: seq<State>, i: nat, s: Sid)
    requires Run(steps, states) && i < |states| && s in states[i].servers
    ensures var a := states[i]; var v := a.servers[s];
      && v.refcount == |HoldsOf(a.holds, s)| + (if v.creation then 1 else 0)
      && (v.frees == 0 || v.frees == 1)
      && (v.frees == 1 <==> v.refcount == 0)
      && (v.frees == 1 ==> v.state.Destroyed? && v.fd == -1 && s !in a.list && HoldsOf(a.holds, s) == {}
                           && forall t :: !WorksOn(a, t, s))
  {
    RunInv(steps, states, i);
    var a := states[i];
    hide Run, Apply, Enabled, Owned;
    assert ServerOk(a, s);
    if a.servers[s].frees == 1 {
      forall t ensures !WorksOn(a, t, s) {
        if WorksOn(a, t, s) {
          WorkAlive(a, t);
        }
      }
    }
  }

  /** A call in progress keeps its server alive. */
  lemma WorkAlive(a: State, t: Tid)
    requires Inv(a) && !PhaseOf(a, t).Idle?
    ensures PhaseOf(a, t).s in a.servers && a.servers[PhaseOf(a, t).s].frees == 0
  {
    assert ThreadOk(a, t);
    var s := PhaseOf(a, t).s;
    if Has(a, t, s) {
      var tok :| tok in a.holds && a.holds[tok] == Hold(t, s);
      HeldAlive(a, tok);
    }
  }

  /** The end of a login by the server's creator, which works on the creation's reference without a hold. */
  predicate CreatorOnly(a: State, step: Step) {
    step.CompleteLogin? && !Has(a, step.t, step.s)
  }

  /** A step that reaches a server reaches one that was not freed. There are two exceptions. An attempt to remove a
      server that is not listed compares a pointer alone. The creator's end of a login reaches a freed server exactly
      when the creation's reference is gone and nobody holds the server. */
  lemma NoUseAfterFree(steps: seq<Step>, states: seq<State>, i: nat)
    requires Run(steps, states) && i < |steps|
    ensures var a, s := states[i], Target(states[i], steps[i]);
      s in a.servers && !(steps[i].RemoveStart? && s !in a.list) && !CreatorOnly(a, steps[i]) ==> a.servers[s].frees == 0
    ensures var a, s := states[i], Target(states[i], steps[i]);
      CreatorOnly(a, steps[i]) ==>
        s in a.servers && (a.servers[s].frees > 0 <==> !a.servers[s].creation && HoldsOf(a.holds, s) == {})
  {
    RunInv(steps, states, i);
    StepAlive(states[i], steps[i]);
    CreatorAlive(states[i], steps[i]);
  }

  lemma CreatorAlive(a: State, step: Step)
    requires Inv(a) && Enabled(a, step)
    ensures var s := Target(a, step);
      CreatorOnly(a, step) ==>
        s in a.servers && (a.servers[s].frees > 0 <==> !a.servers[s].creation && HoldsOf(a.holds, s) == {})
  {
    hide Apply, Owned, ThreadOk, ListOk;
  }

  lemma StepAlive(a: State, step: Step)
    requires Inv(a) && Enabled(a, step)
    ensures var s := Target(a, step);
      s in a.servers && !(step.RemoveStart? && s !in a.list) && !CreatorOnly(a, step) ==> a.servers[s].frees == 0
  {
    hide Apply, Owned, ThreadOk, HoldsOf;
    if !PhaseOf(a, step.t).Idle? {
      WorkAlive(a, step.t);
    } else if step.Release? {
      HeldAlive(a, step.tok);
    } else if Has(a, step.t, Target(a, step)) {
      var tok :| tok in a.holds && a.holds[tok] == Hold(step.t, Target(a, step));
      HeldAlive(a, tok);
    }
  }

  // ----- destroyed is for ever

  lemma DestroyedStep(a: State, step: Step, s: Sid)
    requires Inv(a) && Enabled(a, step) && s in a.servers && a.servers[s].state.Destroyed?
    ensures var b := Apply(a, step);
      && s in b.servers && b.servers[s].state.Destroyed? && s !in b.list
      && (b.servers[s].fd == a.servers[s].fd || b.servers[s].fd == -1)
  {
    hide Apply, Enabled, Target, Inv;
    Frame(a, step);
    GentleStep(a, step);
    InvKept(a, step);
    Unlisted(Apply(a, step), s);
  }

  lemma Unlisted(a: State, s: Sid)
    requires Inv(a) && (s in a.servers ==> a.servers[s].state.Destroyed?)
    ensures s !in a.list
  {
  }

  /** A removed server stays removed: no later step lists it again or publishes a descriptor for it. */
  lemma {:induction false} DestroyedForever(steps: seq<Step>, states: seq<State>, i: nat, j: nat, s: Sid)
    requires Run(steps, states) && i <= j < |states|
    requires s in states[i].servers && states[i].servers[s].state.Destroyed?
    ensures s in states[j].servers && states[j].servers[s].state.Destroyed? && s !in states[j].list
    ensures states[j].servers[s].fd == states[i].servers[s].fd || states[j].servers[s].fd == -1
  {
    hide Apply, Enabled, Inv;
    if i == j {
      RunInv(steps, states, i);
      Unlisted(states[i], s);
    } else {
      DestroyedForever(steps, states, i, j - 1, s);
      RunInv(steps, states, j - 1);
      DestroyedStep(states[j - 1], steps[j - 1], s);
    }
  }

  /** afp_server_remove's answer, told where it looks for the server in the list: 0, or -ENOENT. */
  function RemoveAnswer(a: State, s: Sid): int {
    if s in a.list then 0 else -2
  }

  /** After one removal took the server off the list, every other attempt answers -ENOENT and changes nothing. */
  lemma SecondRemove(steps: seq<Step>, states: seq<State>, i: nat, j: nat)
    requires Run(steps, states) && i < j < |steps|
    requires steps[i].RemoveStart? && steps[i].s in states[i].list
    requires steps[j].RemoveStart? && steps[j].s == steps[i].s
    ensures states[j + 1] == states[j] && RemoveAnswer(states[j], steps[j].s) == -2
    ensures RemoveAnswer(states[i], steps[i].s) == 0
  {
    var s := steps[i].s;
    RunInv(steps, states, i);
    assert states[i + 1].servers[s].state.Destroyed? by {
      assert Enabled(states[i], steps[i]) && states[i + 1] == Apply(states[i], steps[i]);
    }
    DestroyedForever(steps, states, i + 1, j, s);
    assert Enabled(states[j], steps[j]);
  }

  /** A server becomes connected from connecting alone, and with a descriptor. */
  lemma ConnectedFrom(steps: seq<Step>, states: seq<State>, i: nat, s: Sid)
    requires Run(steps, states) && i < |steps| && s in states[i].servers
    requires states[i].servers[s].state != Connected
    ensures s in states[i + 1].servers
    ensures states[i + 1].servers[s].state == Connected ==>
      states[i].servers[s].state == Connecting && states[i].servers[s].fd >= 0 && states[i + 1].servers[s].fd >= 0
  {
    var a, step := states[i], steps[i];
    assert Enabled(a, step) && states[i + 1] == Apply(a, step);
    hide Run, Has, Give, Without;
  }

  // ----- at rest

  ghost predicate AtRest(a: State) {
    forall t :: PhaseOf(a, t).Idle?
  }

  /** When no call is in progress no descriptor has leaked: the open ones are those of the listed servers. A
      destroyed server has none, has lost the creation's reference, and is freed exactly when nobody holds it. */
  lemma NothingLeaks(steps: seq<Step>, states: seq<State>, i: nat)
    requires Run(steps, states) && i < |states| && AtRest(states[i])
    ensures var a := states[i];
      && (forall x :: x in a.open <==> x >= 0 && exists s :: s in a.list && s in a.servers && a.servers[s].fd == x)
      && forall s :: s in a.servers ==>
           && a.servers[s].reconnector.None?
           && (a.servers[s].state.Destroyed? ==>
                 a.servers[s].fd == -1 && (a.servers[s].frees == 1 <==> HoldsOf(a.holds, s) == {}))
           && (s !in a.list ==> a.servers[s].fd == -1)
  {
    RunInv(steps, states, i);
    var a := states[i];
    hide Run, Apply, Enabled, ThreadOk, HoldsOf;
    forall s | s in a.servers
      ensures a.servers[s].reconnector.None? && a.servers[s].remover.None?
      ensures a.servers[s].state.Destroyed? ==> !a.servers[s].creation && a.servers[s].fd == -1
      ensures s !in a.list ==> a.servers[s].fd == -1
    {
      assert ServerOk(a, s);
    }
    hide ServerOk;
    forall x | x in a.open ensures x >= 0 && exists s :: s in a.list && s in a.servers && a.servers[s].fd == x {
      assert a.open[x].OfServer?;
      assert a.open[x].s in a.list;
    }
  }

  // ----- a connected server has a descriptor, or someone about to say otherwise

  predicate Lacks(a: State, s: Sid)
    requires s in a.servers
  {
    (a.servers[s].state == Connected || a.servers[s].state == Connecting) && a.servers[s].fd == -1
  }

  /** A thread that will publish a descriptor for the server or mark it disconnected. */
  predicate Fixes(a: State, t: Tid, s: Sid)
    requires s in a.servers
  {
    var p := PhaseOf(a, t);
    && WorksOn(a, t, s)
    && (p.Connector() || ((p.Leaving? || p.Seen?) && p.part == OfReconnect)
        || ((p.Taken? || p.Closed?) && p.gen == a.servers[s].generation))
  }

  ghost predicate Settled(a: State) {
    forall s :: s in a.servers && Lacks(a, s) ==> exists t :: Fixes(a, t, s)
  }

  /** A step that leaves its server lacking a descriptor, and its thread not about to see to that, found it so. */
  lemma LackedBefore(a: State, step: Step)
    requires Inv(a) && Enabled(a, step) && Target(a, step) in Apply(a, step).servers
    requires Lacks(Apply(a, step), Target(a, step)) && !Fixes(Apply(a, step), step.t, Target(a, step))
    ensures SameLack(a, step)
  {
    hide Apply, Enabled, Target, Lacks, Fixes, SameLack, ListOk, ThreadOk, ServerOk, Counted, Owned;
    ConnectFixes(a, step);
    WorkLacked(a, step);
  }

  ghost predicate SameLack(a: State, step: Step)
    requires Enabled(a, step)
  {
    var b, s := Apply(a, step), Target(a, step);
    && s in a.servers && s in b.servers && b.servers[s].generation == a.servers[s].generation
    && Lacks(a, s) && !Fixes(a, step.t, s)
  }

  /** A step of a connect that leaves its server lacking a descriptor is about to see to that. */
  lemma ConnectFixes(a: State, step: Step)
    requires ListOk(a) && ThreadOk(a, step.t) && Enabled(a, step) && Target(a, step) in Apply(a, step).servers
    ensures (TakeOldStep(step) || DialStep(step) || LandStep(step)) && Lacks(Apply(a, step), Target(a, step)) ==>
      Fixes(Apply(a, step), step.t, Target(a, step))
  {
    hide Has, Give, Without;
  }

  lemma WorkLacked(a: State, step: Step)
    requires ThreadOk(a, step.t) && Enabled(a, step) && Target(a, step) in Apply(a, step).servers
    requires !(TakeOldStep(step) || DialStep(step) || LandStep(step))
    requires Lacks(Apply(a, step), Target(a, step)) && !Fixes(Apply(a, step), step.t, Target(a, step))
    ensures SameLack(a, step)
  {
    hide Has, Give, Without, AfterFailure;
  }

  lemma SettledKept(a: State, step: Step)
    requires Inv(a) && Settled(a) && Enabled(a, step)
    ensures Settled(Apply(a, step))
  {
    hide Inv, Apply, Enabled, Target;
    var b := Apply(a, step);
    forall s | s in b.servers && Lacks(b, s) ensures exists t :: Fixes(b, t, s) {
      Frame(a, step);
      if !Fixes(b, step.t, s) {
        if s == Target(a, step) {
          LackedBefore(a, step);
        }
        var t :| Fixes(a, t, s);
        assert Fixes(b, t, s);
      }
    }
  }

  lemma {:induction false} RunSettled(steps: seq<Step>, states: seq<State>, i: nat)
    requires Run(steps, states) && i < |states|
    ensures Settled(states[i])
  {
    hide Apply, Enabled, Inv, Settled;
    if i == 0 {
      StartSettled();
    } else {
      RunInv(steps, states, i - 1);
      RunSettled(steps, states, i - 1);
      SettledKept(states[i - 1], steps[i - 1]);
    }
  }

  lemma StartSettled()
    ensures Settled(START)
  {
  }

  /** When no call is in progress, a server that is connected or connecting has a descriptor. */
  lemma ConnectedAtRest(steps: seq<Step>, states: seq<State>, i: nat, s: Sid)
    requires Run(steps, states) && i < |states| && AtRest(states[i]) && s in states[i].servers
    requires states[i].servers[s].state == Connected || states[i].servers[s].state == Connecting
    ensures states[i].servers[s].fd >= 0
  {
    RunSettled(steps, states, i);
    RunInv(steps, states, i);
    assert ServerOk(states[i], s);
    assert forall t :: !Fixes(states[i], t, s);
  }
}
