/** How a disconnected server comes to have a descriptor: a disconnect overtaken by a connect. */
module ServerLateMarks {
  import opened Bytes
  import opened ServerLifetime
  import opened ServerRuns
  import opened ServerDisconnects
  import opened ServerReconnects

  /** A thread's disconnect of a server: it reads the generation at step a, takes the descriptor at b, and has not
      marked the server before step c. */
  ghost predicate Disconnects(steps: seq<Step>, states: seq<State>, u: Tid, s: Sid, a: nat, b: nat, c: nat) {
    && |states| == |steps| + 1 && a < b < c <= |steps| && s in states[a].servers
    && steps[a] == ReadGeneration(u) && PhaseOf(states[a], u).Leaving? && PhaseOf(states[a], u).s == s
    && steps[b] == TakeDescriptor(u)
    && (forall k :: a < k <= b ==> Looks(PhaseOf(states[k], u), s, states[a].servers[s].generation))
    && forall k :: b < k <= c ==> HasTaken(PhaseOf(states[k], u), s, states[a].servers[s].generation)
  }

  predicate Looks(p: Phase, s: Sid, gen: nat) {
    p.Seen? && p.s == s && p.gen == gen
  }

  predicate HasTaken(p: Phase, s: Sid, gen: nat) {
    (p.Taken? || p.Closed?) && p.s == s && p.gen == gen
  }

  /** A server with a descriptor of a connection that is up or coming up. */
  predicate Up(v: Server) {
    v.fd >= 0 && (v.state == Connecting || v.state == Connected)
  }

  /** A step that ends what a connect has published. */
  predicate Unseats(a: State, step: Step, s: Sid) {
    Enabled(a, step) && Target(a, step) == s && s in a.servers
    && UnseatsServer(a.servers[s], PhaseOf(a, step.t), step, s in a.list)
  }

  predicate UnseatsServer(v: Server, p: Phase, step: Step, listed: bool) {
    || step.ConnectStart? || (step.ProbeDone? && step.ok)
    || (step.RemoveStart? && listed)
    || (step.TakeDescriptor? && p.Seen? && p.gen == v.generation)
    || (step.MarkDisconnected? && p.Closed? && p.gen == v.generation)
  }

  /** A disconnect reads the generation at a while a connect by thread w, which has started it, is still to publish its
      descriptor; it takes before the connect publishes at i, and marks the server at c, with nothing in between to end
      the new connection. */
  ghost predicate OvertakenBy(steps: seq<Step>, states: seq<State>, s: Sid, a: nat, b: nat, i: nat, c: nat, w: Tid) {
    && c < |steps| && a < b < i < c && steps[c].MarkDisconnected?
    && Disconnects(steps, states, steps[c].t, s, a, b, c) && PhaseOf(states[c], steps[c].t).Closed?
    && steps[i] == Publish(w) && s in states[i].servers && !states[i].servers[s].state.Destroyed?
    && (forall k :: a <= k <= i ==> InGap(states[k], w, s))
    && forall k :: i < k < c ==> !Unseats(states[k], steps[k], s)
  }

  ghost predicate Overtaken(steps: seq<Step>, states: seq<State>, c: nat) {
    exists s: Sid, a: nat, b: nat, i: nat, w: Tid :: OvertakenBy(steps, states, s, a, b, i, c, w)
  }

  // ----- the steps of a disconnect, found from its end

  lemma PhaseBefore(v: Server, p: Phase, step: Step, s: Sid, listed: bool, gen: nat)
    requires Fits(p, step, s) && !step.Create?
    ensures var q := NextPhase(v, p, step, s, listed);
      && (HasTaken(q, s, gen) ==> HasTaken(p, s, gen) || (step.TakeDescriptor? && Looks(p, s, gen)))
      && (Looks(q, s, gen) ==> Looks(p, s, gen) || (step.ReadGeneration? && p.Leaving? && p.s == s && gen == v.generation))
  {
  }

  lemma StepBefore(a: State, step: Step, u: Tid, s: Sid, gen: nat)
    requires Inv(a) && Enabled(a, step)
    ensures HasTaken(PhaseOf(Apply(a, step), u), s, gen) ==>
      HasTaken(PhaseOf(a, u), s, gen) || (step == TakeDescriptor(u) && Looks(PhaseOf(a, u), s, gen))
    ensures Looks(PhaseOf(Apply(a, step), u), s, gen) ==>
      Looks(PhaseOf(a, u), s, gen)
      || (step == ReadGeneration(u) && PhaseOf(a, u).Leaving? && PhaseOf(a, u).s == s && s in a.servers
          && gen == a.servers[s].generation)
  {
    hide Inv, Apply, Enabled, Target, Fits, NextPhase, NextServer;
    Frame(a, step);
    if step.t == u {
      StaysOn(a, step);
      if Target(a, step) in a.servers {
        NotCreate(a, step);
        StepPhase(a, step);
        PhaseBefore(a.servers[Target(a, step)], PhaseOf(a, u), step, Target(a, step), Target(a, step) in a.list, gen);
      } else {
        IdleWithout(a, step);
      }
    }
  }

  lemma IdleWithout(a: State, step: Step)
    requires Inv(a) && Enabled(a, step) && Target(a, step) !in a.servers
    ensures PhaseOf(Apply(a, step), step.t).Idle?
  {
    hide Apply, Enabled, Target, ListOk, Owned;
    assert ThreadOk(a, step.t);
    StaysIdle(a, step);
  }

  lemma {:induction false} FindRead(steps: seq<Step>, states: seq<State>, u: Tid, s: Sid, gen: nat, b: nat) returns (a: nat)
    requires Run(steps, states) && b <= |steps| && Looks(PhaseOf(states[b], u), s, gen)
    ensures a < b && steps[a] == ReadGeneration(u) && PhaseOf(states[a], u).Leaving? && PhaseOf(states[a], u).s == s
    ensures s in states[a].servers && states[a].servers[s].generation == gen
    ensures forall k :: a < k <= b ==> Looks(PhaseOf(states[k], u), s, gen)
  {
    hide Apply, Enabled, Inv, Looks, HasTaken;
    assert b > 0 by { NotAtStart(states[0], u, s, gen); }
    RunInv(steps, states, b - 1);
    StepBefore(states[b - 1], steps[b - 1], u, s, gen);
    if Looks(PhaseOf(states[b - 1], u), s, gen) {
      a := FindRead(steps, states, u, s, gen, b - 1);
    } else {
      a := b - 1;
    }
  }

  lemma NotAtStart(a: State, u: Tid, s: Sid, gen: nat)
    ensures a == START ==> !Looks(PhaseOf(a, u), s, gen) && !HasTaken(PhaseOf(a, u), s, gen)
  {
  }

  lemma {:induction false} FindTake(steps: seq<Step>, states: seq<State>, u: Tid, s: Sid, gen: nat, c: nat) returns (b: nat)
    requires Run(steps, states) && c <= |steps| && HasTaken(PhaseOf(states[c], u), s, gen)
    ensures b < c && steps[b] == TakeDescriptor(u) && Looks(PhaseOf(states[b], u), s, gen)
    ensures forall k :: b < k <= c ==> HasTaken(PhaseOf(states[k], u), s, gen)
  {
    hide Apply, Enabled, Inv, Looks, HasTaken;
    assert c > 0 by { NotAtStart(states[0], u, s, gen); }
    RunInv(steps, states, c - 1);
    StepBefore(states[c - 1], steps[c - 1], u, s, gen);
    if HasTaken(PhaseOf(states[c - 1], u), s, gen) {
      b := FindTake(steps, states, u, s, gen, c - 1);
    } else {
      b := c - 1;
    }
  }

  // ----- the connect that overtakes it

  /** The last step before c at which the server had no descriptor. */
  lemma {:induction false} FindPublish(states: seq<State>, s: Sid, lo: nat, c: nat) returns (i: nat)
    requires lo < c < |states| && forall k :: lo <= k <= c ==> s in states[k].servers
    requires states[lo].servers[s].fd < 0 && states[c].servers[s].fd >= 0
    ensures lo <= i < c && states[i].servers[s].fd < 0
    ensures forall k :: i < k <= c ==> states[k].servers[s].fd >= 0
  {
    if states[c - 1].servers[s].fd < 0 {
      i := c - 1;
    } else {
      i := FindPublish(states, s, lo, c - 1);
    }
  }

  lemma PublishedNext(v: Server, p: Phase, step: Step, s: Sid, listed: bool)
    requires Fits(p, step, s) && !step.Create?
    ensures var w := NextServer(v, p, step, s, listed);
      v.fd < 0 && w.fd >= 0 ==> step.Publish? && p.Dialed? && p.s == s && !v.state.Destroyed?
  {
  }

  lemma PublishedBy(a: State, step: Step, s: Sid)
    requires Enabled(a, step) && s in a.servers && s in Apply(a, step).servers
    requires a.servers[s].fd < 0 && Apply(a, step).servers[s].fd >= 0
    ensures step.Publish? && InGap(a, step.t, s) && !a.servers[s].state.Destroyed?
  {
    hide Apply, Enabled, Target, Fits, NextServer;
    Frame(a, step);
    assert Target(a, step) == s;
    NotCreate(a, step);
    StepServer(a, step);
    PublishedNext(a.servers[s], PhaseOf(a, step.t), step, s, s in a.list);
  }

  /** A thread in the gap of a connect was in it before a step that started no generation. */
  lemma GapBefore(a: State, step: Step, w: Tid, s: Sid)
    requires Inv(a) && Enabled(a, step) && s in a.servers && s in Apply(a, step).servers
    requires Apply(a, step).servers[s].generation == a.servers[s].generation && InGap(Apply(a, step), w, s)
    ensures InGap(a, w, s)
  {
    hide Inv, Apply, Enabled, Target;
    Frame(a, step);
    if step.t == w {
      StaysOn(a, step);
      GapStep(a, step);
    }
  }

  lemma {:induction false} GapSince(steps: seq<Step>, states: seq<State>, w: Tid, s: Sid, a: nat, i: nat)
    requires Run(steps, states) && a <= i <= |steps| && s in states[a].servers && s in states[i].servers
    requires states[a].servers[s].generation == states[i].servers[s].generation && InGap(states[i], w, s)
    ensures forall k :: a <= k <= i ==> InGap(states[k], w, s)
  {
    hide Apply, Enabled, Inv, InGap;
    if a < i {
      GenerationGrows(steps, states, s, a, i - 1);
      GenerationGrows(steps, states, s, i - 1, i);
      RunInv(steps, states, i - 1);
      GapBefore(states[i - 1], steps[i - 1], w, s);
      GapSince(steps, states, w, s, a, i - 1);
    }
  }

  // ----- what a connect has published

  lemma UpNext(v: Server, p: Phase, step: Step, s: Sid, listed: bool)
    requires Fits(p, step, s) && !step.Create? && v.fd >= 0 && (p.Idle? || Suits(v, p, step.t))
    ensures Up(NextServer(v, p, step, s, listed)) <==> Up(v) && !UnseatsServer(v, p, step, listed)
  {
  }

  lemma UpStep(a: State, step: Step, s: Sid)
    requires Inv(a) && Enabled(a, step) && s in a.servers && a.servers[s].fd >= 0
    ensures s in Apply(a, step).servers
    ensures Up(Apply(a, step).servers[s]) <==> Up(a.servers[s]) && !Unseats(a, step, s)
  {
    hide Apply, Enabled, Target, Fits, NextServer, Up, UnseatsServer, Counted, ListOk, Owned, Has, Suits;
    Frame(a, step);
    if Target(a, step) == s {
      assert ThreadOk(a, step.t);
      NotCreate(a, step);
      StepServer(a, step);
      UpNext(a.servers[s], PhaseOf(a, step.t), step, s, s in a.list);
    }
  }

  /** A connection that is up now, and had a descriptor all along, was up all along and nothing ended it. */
  lemma {:induction false} UpSince(steps: seq<Step>, states: seq<State>, s: Sid, i: nat, c: nat)
    requires Run(steps, states) && i < c <= |steps|
    requires forall k :: i < k <= c ==> s in states[k].servers && states[k].servers[s].fd >= 0
    requires Up(states[c].servers[s])
    ensures forall k :: i < k < c ==> !Unseats(states[k], steps[k], s)
  {
    hide Apply, Enabled, Inv, Up, Unseats;
    if i + 1 < c {
      RunInv(steps, states, c - 1);
      UpStep(states[c - 1], steps[c - 1], s);
      UpSince(steps, states, s, i, c - 1);
    }
  }

  /** A connection that nothing has ended since it was published is up. */
  lemma {:induction false} UpUntil(steps: seq<Step>, states: seq<State>, s: Sid, i: nat, c: nat)
    requires Run(steps, states) && i < c <= |steps| && s in states[i + 1].servers && Up(states[i + 1].servers[s])
    requires forall k :: i < k < c ==> !Unseats(states[k], steps[k], s)
    ensures s in states[c].servers && Up(states[c].servers[s])
    ensures states[c].servers[s].generation == states[i + 1].servers[s].generation
  {
    hide Apply, Enabled, Inv, Unseats;
    if i + 1 < c {
      UpUntil(steps, states, s, i, c - 1);
      RunInv(steps, states, c - 1);
      UpStep(states[c - 1], steps[c - 1], s);
      UpGeneration(states[c - 1], steps[c - 1], s);
    }
  }

  lemma UpGeneration(a: State, step: Step, s: Sid)
    requires Inv(a) && Enabled(a, step) && s in a.servers && a.servers[s].fd >= 0
    ensures s in Apply(a, step).servers && Apply(a, step).servers[s].generation == a.servers[s].generation
  {
    hide Apply, Enabled, Counted, ListOk, Owned;
    assert ThreadOk(a, step.t);
    StepGeneration(a, step, s);
  }

  lemma GapGeneration(a: State, step: Step, w: Tid, s: Sid)
    requires Inv(a) && Enabled(a, step) && InGap(a, w, s)
    ensures s in a.servers && s in Apply(a, step).servers
    ensures Apply(a, step).servers[s].generation == a.servers[s].generation
  {
    hide Apply, Enabled, Counted, Owned;
    assert ThreadOk(a, w) && ThreadOk(a, step.t);
    StepGeneration(a, step, s);
    if step.t != w && PhaseOf(a, step.t).Connector() {
      OneConnector(a, step.t, w);
    }
  }

  lemma {:induction false} GenerationInGap(steps: seq<Step>, states: seq<State>, w: Tid, s: Sid, a: nat, i: nat)
    requires Run(steps, states) && a <= i <= |steps| && forall k :: a <= k <= i ==> InGap(states[k], w, s)
    ensures s in states[a].servers && s in states[i].servers
    ensures states[i].servers[s].generation == states[a].servers[s].generation
  {
    hide Apply, Enabled, Inv, InGap;
    RunInv(steps, states, i);
    assert InGap(states[i], w, s);
    GapServer(states[i], w, s);
    if a < i {
      GenerationInGap(steps, states, w, s, a, i - 1);
      RunInv(steps, states, i - 1);
      assert InGap(states[i - 1], w, s);
      GapGeneration(states[i - 1], steps[i - 1], w, s);
    }
  }

  lemma GapServer(a: State, w: Tid, s: Sid)
    requires Inv(a) && InGap(a, w, s)
    ensures s in a.servers
  {
    assert ThreadOk(a, w);
  }

  // ----- the cause

  /** A late mark is the mark of a disconnect that a connect overtook. */
  lemma LateMarkOvertaken(steps: seq<Step>, states: seq<State>, c: nat)
    requires Run(steps, states) && c < |steps| && LateMark(states[c], steps[c])
    ensures Overtaken(steps, states, c)
  {
    hide Apply, Enabled, Inv, InGap, Unseats, HasTaken, Looks;
    var u, p := steps[c].t, PhaseOf(states[c], steps[c].t);
    var s, gen := p.s, p.gen;
    MarkTook(p, s, gen);
    var b := FindTake(steps, states, u, s, gen, c);
    var a := FindRead(steps, states, u, s, gen, b);
    GenerationGrows(steps, states, s, a, b);
    GenerationGrows(steps, states, s, b, c);
    TakesCurrent(states[b], steps[b], s, gen);
    forall k | b < k <= c ensures s in states[k].servers {
      GenerationGrows(steps, states, s, b, k);
    }
    var i := FindPublish(states, s, b + 1, c);
    assert states[i + 1] == Apply(states[i], steps[i]);
    PublishedBy(states[i], steps[i], s);
    var w := steps[i].t;
    GenerationGrows(steps, states, s, a, i);
    GenerationGrows(steps, states, s, i, c);
    GapSince(steps, states, w, s, a, i);
    UpSince(steps, states, s, i, c);
    assert OvertakenBy(steps, states, s, a, b, i, c, w);
  }

  lemma MarkTook(p: Phase, s: Sid, gen: nat)
    requires p.Closed? && p.s == s && p.gen == gen
    ensures HasTaken(p, s, gen)
  {
  }

  lemma TakesCurrent(a: State, step: Step, s: Sid, gen: nat)
    requires Enabled(a, step) && step.TakeDescriptor? && Looks(PhaseOf(a, step.t), s, gen) && s in a.servers
    requires a.servers[s].generation == gen
    ensures s in Apply(a, step).servers && Apply(a, step).servers[s].fd == -1
  {
    hide Give;
  }

  lemma PublishUp(a: State, step: Step, w: Tid, s: Sid)
    requires Inv(a) && Enabled(a, step) && step == Publish(w) && InGap(a, w, s) && s in a.servers
    requires !a.servers[s].state.Destroyed?
    ensures s in Apply(a, step).servers && Up(Apply(a, step).servers[s])
    ensures Apply(a, step).servers[s].generation == a.servers[s].generation
  {
    hide Counted, ListOk, Owned, Has, Give;
    assert ThreadOk(a, w);
  }

  lemma OvertakenMarksLate(steps: seq<Step>, states: seq<State>, c: nat)
    requires Run(steps, states) && Overtaken(steps, states, c)
    ensures c < |steps| && LateMark(states[c], steps[c])
  {
    hide Apply, Enabled, Inv, InGap, Unseats;
    var s: Sid, a: nat, b: nat, i: nat, w: Tid :| OvertakenBy(steps, states, s, a, b, i, c, w);
    GenerationInGap(steps, states, w, s, a, i);
    RunInv(steps, states, i);
    assert InGap(states[i], w, s);
    PublishUp(states[i], steps[i], w, s);
    UpUntil(steps, states, s, i, c);
    assert HasTaken(PhaseOf(states[c], steps[c].t), s, states[a].servers[s].generation);
  }

  /** A run leaves every disconnected server without a descriptor exactly when no connect overtakes a disconnect. */
  lemma ExactlyOvertaken(steps: seq<Step>, states: seq<State>, n: nat)
    requires Run(steps, states) && n <= |steps|
    ensures (forall i :: 0 <= i <= n ==> NoneOpen(states[i])) <==> (forall c :: 0 <= c < n ==> !Overtaken(steps, states, c))
  {
    hide NoneOpen, LateMark, Overtaken, Apply, Enabled;
    ExactlyLate(steps, states, n);
    forall c | 0 <= c < n ensures Overtaken(steps, states, c) <==> LateMark(states[c], steps[c]) {
      if Overtaken(steps, states, c) {
        OvertakenMarksLate(steps, states, c);
      }
      if LateMark(states[c], steps[c]) {
        LateMarkOvertaken(steps, states, c);
      }
    }
  }
}
