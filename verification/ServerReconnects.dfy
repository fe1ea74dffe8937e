/** When a reconnect succeeds, and when a disconnect that overlaps it fails it. */
module ServerReconnects {
  import opened Bytes
  import opened ServerLifetime
  import opened ServerRuns

  // ----- while one thread reconnects a server

  /** The connection a reconnect has published is still there and still to be completed. */
  predicate Intact(v: Server) {
    v.fd >= 0 && v.state == Connecting
  }

  /** A step that ends the connection a reconnect has published, or completes it in its place: a removal, a disconnect
      of the current generation that takes the descriptor or marks the server, or the end of a login. */
  predicate Breaks(a: State, step: Step, s: Sid) {
    Enabled(a, step) && Target(a, step) == s && s in a.servers
    && BreaksServer(a.servers[s], PhaseOf(a, step.t), step, s in a.list)
  }

  predicate BreaksServer(v: Server, p: Phase, step: Step, listed: bool) {
    || (step.RemoveStart? && listed)
    || (step.TakeDescriptor? && p.Seen? && p.gen == v.generation)
    || (step.MarkDisconnected? && p.Closed? && p.gen == v.generation)
    || step.CompleteLogin?
  }

  /** No other thread connects a server while one reconnects it. */
  lemma NoOtherConnects(a: State, step: Step, t: Tid, s: Sid)
    requires Inv(a) && Enabled(a, step) && step.t != t && Target(a, step) == s
    requires s in a.servers && a.servers[s].reconnector == Some(t)
    ensures !PhaseOf(a, step.t).Connector() && !PhaseOf(a, step.t).InReconnect() && !step.ConnectStart? && !step.Create?
  {
    hide Apply, Counted, Owned, Has;
    assert ThreadOk(a, step.t);
    Frame(a, step);
    NotCreate(a, step);
    MayConnect(a, step);
  }

  /** What another thread's step does to a server that is being reconnected. */
  lemma OtherNext(v: Server, p: Phase, step: Step, s: Sid, listed: bool)
    requires Fits(p, step, s) && !step.Create? && !step.ConnectStart? && !p.Connector() && !p.InReconnect()
    requires v.reconnector.Some?
    ensures var w := NextServer(v, p, step, s, listed);
      && w.generation == v.generation && w.reconnector == v.reconnector
      && (Intact(w) <==> Intact(v) && !BreaksServer(v, p, step, listed))
  {
  }

  lemma OtherStep(a: State, step: Step, t: Tid, s: Sid)
    requires Inv(a) && Enabled(a, step) && step.t != t && s in a.servers && a.servers[s].reconnector == Some(t)
    ensures var b := Apply(a, step);
      && s in b.servers && b.servers[s].generation == a.servers[s].generation
      && b.servers[s].reconnector == a.servers[s].reconnector && PhaseOf(b, t) == PhaseOf(a, t)
      && (Intact(b.servers[s]) <==> Intact(a.servers[s]) && !Breaks(a, step, s))
  {
    hide Inv, Apply, Enabled, Target, Fits, NextServer, Intact, BreaksServer;
    Frame(a, step);
    if Target(a, step) == s {
      NoOtherConnects(a, step, t, s);
      StepServer(a, step);
      OtherNext(a.servers[s], PhaseOf(a, step.t), step, s, s in a.list);
    }
  }

  lemma ReconnectorIs(a: State, t: Tid, s: Sid)
    requires Inv(a) && Reconnects(a, t, s)
    ensures s in a.servers && a.servers[s].reconnector == Some(t)
  {
    assert ThreadOk(a, t);
  }

  /** A reconnect has published its descriptor at step i, and has done nothing since. */
  ghost predicate LogsIn(steps: seq<Step>, states: seq<State>, i: nat, k: nat, t: Tid, s: Sid) {
    && Run(steps, states) && i < k <= |steps| && steps[i] == Publish(t) && PhaseOf(states[i + 1], t) == LoggingIn(s)
    && forall n :: i < n < k ==> steps[n].t != t
  }

  lemma {:induction false} IntactSince(steps: seq<Step>, states: seq<State>, i: nat, k: nat, t: Tid, s: Sid)
    requires LogsIn(steps, states, i, k, t, s)
    ensures PhaseOf(states[k], t) == LoggingIn(s) && s in states[k].servers
    ensures Intact(states[k].servers[s]) <==> forall n :: i < n < k ==> !Breaks(states[n], steps[n], s)
  {
    hide Apply, Enabled, Inv, Breaks, Intact;
    RunInv(steps, states, k - 1);
    if k == i + 1 {
      PublishedIntact(states[i], steps[i], t, s);
    } else {
      IntactSince(steps, states, i, k - 1, t, s);
      ReconnectorIs(states[k - 1], t, s);
      OtherStep(states[k - 1], steps[k - 1], t, s);
    }
  }

  lemma PublishedIntact(a: State, step: Step, t: Tid, s: Sid)
    requires Inv(a) && Enabled(a, step) && step == Publish(t) && PhaseOf(Apply(a, step), t) == LoggingIn(s)
    ensures s in Apply(a, step).servers && Intact(Apply(a, step).servers[s])
  {
    hide Counted, ListOk, Owned, Has, Give;
    assert ThreadOk(a, t);
  }

  /** A reconnect ends connected exactly when its login succeeds and, since it published its descriptor, nobody has
      removed the server, ended its connection or completed its login. Otherwise it changes nothing and goes on to
      disconnect. */
  lemma ReconnectSucceeds(steps: seq<Step>, states: seq<State>, i: nat, j: nat, t: Tid, s: Sid, ok: bool)
    requires LogsIn(steps, states, i, j, t, s) && j < |steps| && steps[j] == LoginDone(t, ok)
    ensures PhaseOf(states[j + 1], t) == Ending(s) <==> ok && forall n :: i < n < j ==> !Breaks(states[n], steps[n], s)
    ensures PhaseOf(states[j + 1], t) != Ending(s) ==>
      PhaseOf(states[j + 1], t) == Leaving(s, OfReconnect) && SameServers(states[j], states[j + 1])
    ensures PhaseOf(states[j + 1], t) == Ending(s) ==>
      s in states[j + 1].servers && states[j + 1].servers[s].state == Connected && states[j + 1].servers[s].fd >= 0
  {
    IntactSince(steps, states, i, j, t, s);
    LoginEnds(states[j], steps[j], t, s, ok);
  }

  /** Nothing but a thread's place in the program differs. */
  predicate SameServers(a: State, b: State) {
    b.servers == a.servers && b.list == a.list && b.holds == a.holds && b.open == a.open
  }

  lemma LoginEnds(a: State, step: Step, t: Tid, s: Sid, ok: bool)
    requires Enabled(a, step) && step == LoginDone(t, ok) && PhaseOf(a, t) == LoggingIn(s) && s in a.servers
    ensures var b, done := Apply(a, step), ok && Intact(a.servers[s]);
      && PhaseOf(b, t) == (if done then Ending(s) else Leaving(s, OfReconnect)) && (!done ==> SameServers(a, b))
      && s in b.servers && (done ==> b.servers[s].state == Connected && b.servers[s].fd >= 0)
  {
  }

  // ----- a reconnect that fails

  /** The steps at which a reconnect fails before it has published anything: the probe finds another server or none, the
      dial finds nobody, or the server was removed meanwhile. */
  predicate FailsEarly(step: Step) {
    step == ProbeDone(step.t, false) || step.DialFail? || step.CloseRefused?
  }

  /** Such a step takes, dials and publishes nothing, and the reconnect goes on to disconnect. */
  lemma EarlyFailure(a: State, step: Step, t: Tid, s: Sid)
    requires Inv(a) && Enabled(a, step) && step.t == t && Reconnects(a, t, s) && FailsEarly(step)
    ensures var b := Apply(a, step);
      && PhaseOf(b, t) == Leaving(s, OfReconnect) && b.servers == a.servers && b.list == a.list && b.holds == a.holds
      && (!step.CloseRefused? ==> b.open == a.open)
      && (step.CloseRefused? ==> PhaseOf(a, t).Refused? && b.open == a.open - {PhaseOf(a, t).held})
  {
    hide Counted, ListOk, Owned, Has, Give;
    assert ThreadOk(a, t);
  }

  /** A thread on the way out of a reconnect of the server. */
  predicate Out(p: Phase, s: Sid) {
    match p
    case Leaving(x, part) => x == s && part == OfReconnect
    case Seen(x, part, gen) => x == s && part == OfReconnect
    case Taken(x, part, gen, held) => x == s && part == OfReconnect
    case Closed(x, part, gen) => x == s && part == OfReconnect
    case Ending(x) => x == s
    case _ => false
  }

  /** No server is connected that was not. */
  predicate ConnectsNone(a: State, b: State) {
    forall x :: x in b.servers && b.servers[x].state == Connected ==> x in a.servers && a.servers[x].state == Connected
  }

  lemma OutNext(v: Server, p: Phase, step: Step, s: Sid, listed: bool)
    requires Fits(p, step, s) && !step.Create? && Out(p, s)
    ensures Out(NextPhase(v, p, step, s, listed), s)
      || (step.ReconnectEnd? && NextPhase(v, p, step, s, listed) == Idle)
    ensures NextServer(v, p, step, s, listed).state == Connected ==> v.state == Connected
  {
  }

  /** A step of such a thread keeps it there or ends the reconnect, and makes no server connected. */
  lemma OutStep(a: State, step: Step, t: Tid, s: Sid)
    requires Inv(a) && Enabled(a, step) && Out(PhaseOf(a, t), s)
    ensures Out(PhaseOf(Apply(a, step), t), s) || (step == ReconnectEnd(t) && PhaseOf(Apply(a, step), t) == Idle)
    ensures step.t == t ==> ConnectsNone(a, Apply(a, step))
  {
    hide Apply, Enabled, Inv, Target;
    Frame(a, step);
    if step.t == t {
      OutWorks(a, step, t, s);
      StepServer(a, step);
      StepPhase(a, step);
      OutNext(a.servers[s], PhaseOf(a, t), step, s, s in a.list);
    }
  }

  lemma OutWorks(a: State, step: Step, t: Tid, s: Sid)
    requires Inv(a) && Enabled(a, step) && step.t == t && Out(PhaseOf(a, t), s)
    ensures !step.Create? && Target(a, step) == s && s in a.servers && s in Apply(a, step).servers
  {
    hide Counted, ListOk, Owned, Has, Give, Without;
    assert ThreadOk(a, t);
  }

  /** Once a reconnect has failed, its thread makes no server connected until the reconnect has ended. */
  lemma {:induction false} FailedForGood(steps: seq<Step>, states: seq<State>, j: nat, k: nat, t: Tid, s: Sid)
    requires Run(steps, states) && j <= k <= |steps| && Out(PhaseOf(states[j], t), s)
    requires forall n :: j <= n < k ==> steps[n] != ReconnectEnd(t)
    ensures Out(PhaseOf(states[k], t), s)
    ensures forall n :: j <= n < k && steps[n].t == t ==> ConnectsNone(states[n], states[n + 1])
  {
    hide Apply, Enabled, Inv, Out, ConnectsNone;
    if j < k {
      FailedForGood(steps, states, j, k - 1, t, s);
      RunInv(steps, states, k - 1);
      OutStep(states[k - 1], steps[k - 1], t, s);
    }
  }

  // ----- a disconnect that overlaps it

  lemma {:induction false} GenerationGrows(steps: seq<Step>, states: seq<State>, s: Sid, i: nat, j: nat)
    requires Run(steps, states) && i <= j <= |steps| && s in states[i].servers
    ensures s in states[j].servers && states[j].servers[s].generation >= states[i].servers[s].generation
  {
    hide Apply, Enabled, Inv;
    if i < j {
      GenerationGrows(steps, states, s, i, j - 1);
      StepGeneration(states[j - 1], steps[j - 1], s);
    }
  }

  lemma StepGeneration(a: State, step: Step, s: Sid)
    requires Enabled(a, step) && s in a.servers
    ensures s in Apply(a, step).servers && Apply(a, step).servers[s].generation >= a.servers[s].generation
    ensures Apply(a, step).servers[s].generation != a.servers[s].generation ==>
      step.Bump? && PhaseOf(a, step.t).Took? && PhaseOf(a, step.t).s == s
  {
    hide Apply, Enabled, Target;
    Frame(a, step);
    if Target(a, step) == s {
      NotCreate(a, step);
      StepServer(a, step);
    }
  }

  /** The thread reconnects the server all the time from its start of a generation on. */
  ghost predicate InGeneration(steps: seq<Step>, states: seq<State>, m: nat, k: nat, t: Tid, s: Sid) {
    && Run(steps, states) && m < k <= |steps| && steps[m] == Bump(t)
    && (forall n :: m <= n <= k ==> Reconnects(states[n], t, s))
    && forall n :: m < n < k ==> steps[n] != Bump(t)
  }

  lemma {:induction false} GenerationStays(steps: seq<Step>, states: seq<State>, m: nat, k: nat, t: Tid, s: Sid)
    requires InGeneration(steps, states, m, k, t, s)
    ensures s in states[m].servers && s in states[k].servers
    ensures states[k].servers[s].generation == states[m].servers[s].generation + 1
  {
    hide Apply, Enabled, Inv, Reconnects;
    assert Reconnects(states[m], t, s) && Reconnects(states[k - 1], t, s);
    RunInv(steps, states, m);
    ReconnectorIs(states[m], t, s);
    RunInv(steps, states, k - 1);
    ReconnectorIs(states[k - 1], t, s);
    if k == m + 1 {
      BumpGeneration(states[m], steps[m], t, s);
    } else {
      GenerationStays(steps, states, m, k - 1, t, s);
      if steps[k - 1].t != t {
        OtherStep(states[k - 1], steps[k - 1], t, s);
      } else {
        StepGeneration(states[k - 1], steps[k - 1], s);
      }
    }
  }

  lemma BumpGeneration(a: State, step: Step, t: Tid, s: Sid)
    requires Enabled(a, step) && step == Bump(t) && Reconnects(a, t, s) && s in a.servers
    ensures s in Apply(a, step).servers && Apply(a, step).servers[s].generation == a.servers[s].generation + 1
  {
  }

  /** A generation read before a reconnect starts its own is never that of its connection, and one read after it is. So
      a disconnect can fail the reconnect only when it reads the generation after the reconnect has started it. */
  lemma CurrentExactly(steps: seq<Step>, states: seq<State>, m: nat, k: nat, t: Tid, s: Sid, a: nat)
    requires InGeneration(steps, states, m, k, t, s) && a <= k && a != m && s in states[a].servers
    ensures s in states[k].servers
    ensures states[a].servers[s].generation == states[k].servers[s].generation <==> m < a
  {
    GenerationStays(steps, states, m, k, t, s);
    if m < a {
      assert InGeneration(steps, states, m, a, t, s);
      GenerationStays(steps, states, m, a, t, s);
    } else {
      GenerationGrows(steps, states, s, a, m);
    }
  }

  /** A step of a disconnect that has read the generation at step a: it takes the descriptor or marks the server. */
  ghost predicate StepOfDisconnect(steps: seq<Step>, states: seq<State>, a: nat, k: nat, s: Sid) {
    && |states| == |steps| + 1 && a < k < |steps| && s in states[a].servers
    && var p := PhaseOf(states[k], steps[k].t);
       && ((steps[k].TakeDescriptor? && p.Seen?) || (steps[k].MarkDisconnected? && p.Closed?))
       && p.s == s && p.gen == states[a].servers[s].generation
  }

  /** Such a step of a plain disconnect, between the publication of a reconnect's descriptor and the end of its login,
      fails the reconnect exactly when the generation was read after the reconnect had started its own. */
  lemma DisconnectFails(steps: seq<Step>, states: seq<State>, m: nat, i: nat, k: nat, t: Tid, s: Sid, a: nat)
    requires InGeneration(steps, states, m, k, t, s) && m < i < k && LogsIn(steps, states, i, k, t, s)
    requires StepOfDisconnect(steps, states, a, k, s) && steps[k].t != t && a != m
    ensures Breaks(states[k], steps[k], s) <==> m < a
  {
    hide Apply, Inv, InGeneration;
    CurrentExactly(steps, states, m, k, t, s, a);
    assert Enabled(states[k], steps[k]);
    Frame(states[k], steps[k]);
  }

  /** A reconnect whose login succeeds, and a plain disconnect that reads the generation at step a, takes the descriptor
      at b and marks the server at c, with nobody else to end the connection: the reconnect fails exactly when the
      disconnect reads the generation after the reconnect has started it and takes or marks while it logs in. */
  lemma OverlappingDisconnect(steps: seq<Step>, states: seq<State>, m: nat, i: nat, j: nat, t: Tid, s: Sid,
                              u: Tid, a: nat, b: nat, c: nat)
    requires InGeneration(steps, states, m, j, t, s) && m < i < j && LogsIn(steps, states, i, j, t, s)
    requires j < |steps| && steps[j] == LoginDone(t, true) && u != t && a != m && a < b < c
    requires StepOfDisconnect(steps, states, a, b, s) && steps[b] == TakeDescriptor(u)
    requires StepOfDisconnect(steps, states, a, c, s) && steps[c] == MarkDisconnected(u)
    requires forall n :: i < n < j && n != b && n != c ==> !Breaks(states[n], steps[n], s)
    ensures PhaseOf(states[j + 1], t) != Ending(s) <==> m < a && (i < b < j || i < c < j)
  {
    hide Apply, Enabled, Inv, Breaks, InGeneration, StepOfDisconnect;
    ReconnectSucceeds(steps, states, i, j, t, s, true);
    if i < b < j {
      ShorterGeneration(steps, states, m, b, j, t, s);
      DisconnectFails(steps, states, m, i, b, t, s, a);
    }
    if i < c < j {
      ShorterGeneration(steps, states, m, c, j, t, s);
      DisconnectFails(steps, states, m, i, c, t, s, a);
    }
  }

  lemma ShorterGeneration(steps: seq<Step>, states: seq<State>, m: nat, k: nat, j: nat, t: Tid, s: Sid)
    requires InGeneration(steps, states, m, j, t, s) && m < k <= j
    ensures InGeneration(steps, states, m, k, t, s)
  {
    hide Run;
  }
}
