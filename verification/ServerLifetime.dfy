/** The life of a server object: the server list, its reference count, its connection state and descriptor, and
    the race of connects, reconnects, disconnects and removals (lib/afp.c, lib/afp_internal.h, lib/loop.c).
    A step is one critical section under the list's lock, one atomic operation, or the end of a thread's own
    work between two of them. */
module ServerLifetime {
  import opened Bytes

  type Sid = nat
  type Tid = nat
  type Token = nat

  datatype ConnState = Disconnected | Connecting | Connected | Destroyed

  /** The fields of struct afp_server the protocol turns on: fd is -1 for none, and reconnect_in_progress is
      reconnector.Some?. The model also records who created the server, whether the creation's reference is
      still there, which threads reconnect and remove it, and how often it was freed. */
  datatype Server = Server(refcount: int, fd: int, state: ConnState, generation: nat, frees: nat,
                           creator: Tid, creation: bool, reconnector: Option<Tid>, remover: Option<Tid>)

  /** What a connect or a disconnect is part of. */
  datatype Part = Alone | OfReconnect | OfRemove

  /** Where a thread is in afp_server_connect, afp_server_reconnect, loop_disconnect or afp_server_remove. */
  datatype Phase =
    | Idle
    | Took(s: Sid, part: Part, held: int)        // exchanged the old descriptor out
    | Bumped(s: Sid, part: Part, held: int)      // started the next generation
    | Dialing(s: Sid, part: Part)                // closed the old descriptor
    | Dialed(s: Sid, part: Part, held: int)      // has a connected socket
    | Refused(s: Sid, part: Part, held: int)     // found the server destroyed
    | Probing(s: Sid)                            // began a reconnect
    | LoggingIn(s: Sid)                          // published the reconnect's descriptor
    | Ending(s: Sid)                             // about to end the reconnect
    | Leaving(s: Sid, part: Part)                // entered loop_disconnect
    | Seen(s: Sid, part: Part, gen: nat)         // read the generation
    | Taken(s: Sid, part: Part, gen: nat, held: int)
    | Closed(s: Sid, part: Part, gen: nat)
    | Removed(s: Sid)                            // about to release the creation's reference
  {
    predicate Connector() {
      Took? || Bumped? || Dialing? || Dialed?
    }

    predicate InDisconnect() {
      Leaving? || Seen? || Taken? || Closed?
    }

    predicate InReconnect() {
      Probing? || LoggingIn? || Ending? || ((Connector() || Refused? || InDisconnect()) && part == OfReconnect)
    }

    predicate InRemove() {
      Removed? || (InDisconnect() && part == OfRemove)
    }

    function Held(): int {
      if Took? || Bumped? || Dialed? || Refused? || Taken? then held else -1
    }
  }

  datatype Hold = Hold(t: Tid, s: Sid)

  /** Who a descriptor open in the process belongs to. */
  datatype Owner = OfServer(s: Sid) | OfThread(t: Tid)

  datatype State = State(servers: map<Sid, Server>, list: seq<Sid>, threads: map<Tid, Phase>,
                         holds: map<Token, Hold>, open: map<int, Owner>)

  datatype Step =
    | Create(t: Tid, s: Sid)                     // afp_server_init
    | LookupHold(t: Tid, s: Sid, tok: Token)     // find_server_by_pointer and the *_hold lookups
    | HoldMore(t: Tid, s: Sid, tok: Token)       // afp_server_hold
    | Release(t: Tid, tok: Token)                // afp_server_release
    | ConnectStart(t: Tid, s: Sid)               // afp_server_connect
    | Bump(t: Tid)
    | CloseOld(t: Tid)
    | DialFail(t: Tid)
    | DialOk(t: Tid, fd: int)
    | Publish(t: Tid)
    | CloseRefused(t: Tid)
    | ReconnectStart(t: Tid, s: Sid)             // afp_server_reconnect
    | ProbeDone(t: Tid, ok: bool)
    | LoginDone(t: Tid, ok: bool)
    | ReconnectEnd(t: Tid)
    | DisconnectStart(t: Tid, s: Sid)            // loop_disconnect
    | ReadGeneration(t: Tid)
    | TakeDescriptor(t: Tid)
    | CloseTaken(t: Tid)
    | MarkDisconnected(t: Tid)
    | RemoveStart(t: Tid, s: Sid)                // afp_server_remove
    | ReleaseCreation(t: Tid)
    | CompleteLogin(t: Tid, s: Sid)              // afp_server_complete_connection

  function PhaseOf(a: State, t: Tid): Phase {
    if t in a.threads then a.threads[t] else Idle
  }

  /** The thread has a reference of its own to the server. */
  predicate Has(a: State, t: Tid, s: Sid) {
    exists tok :: tok in a.holds && a.holds[tok] == Hold(t, s)
  }

  function Set(a: State, s: Sid, v: Server, t: Tid, p: Phase): State {
    a.(servers := a.servers[s := v], threads := a.threads[t := p])
  }

  /** A descriptor, when there is one, changes hands. */
  function Give(open: map<int, Owner>, fd: int, o: Owner): map<int, Owner> {
    if fd >= 0 then open[fd := o] else open
  }

  /** The list without a server, as the unlink of afp_server_remove leaves it. */
  function Without(list: seq<Sid>, s: Sid): (r: seq<Sid>)
    ensures forall x :: x in r ==> x in list
    ensures forall x :: x in list && x != s ==> x in r
    ensures NoDuplicates(list) ==> s !in r && NoDuplicates(r)
  {
    if list == [] then []
    else if list[0] == s then list[1..]
    else
      var r := Without(list[1..], s);
      assert forall x :: x in list <==> x == list[0] || x in list[1..];
      assert NoDuplicates(list) ==> NoDuplicates(list[1..]) && list[0] !in list[1..];
      [list[0]] + r
  }

  predicate NoDuplicates(list: seq<Sid>) {
    forall i, j :: 0 <= i < j < |list| ==> list[i] != list[j]
  }

  /** One reference fewer; the last one frees. */
  function Dropped(v: Server): Server {
    v.(refcount := v.refcount - 1, frees := if v.refcount == 1 then v.frees + 1 else v.frees)
  }

  /** What follows a connect that failed. */
  function AfterFailure(s: Sid, part: Part): Phase {
    if part == OfReconnect then Leaving(s, OfReconnect) else Idle
  }

  /** The steps the program's threads can take. A thread works on a server it holds, on one of its making that
      was never listed, or on one it is removing; anyone may try to remove. */
  predicate Enabled(a: State, step: Step) {
    var p := PhaseOf(a, step.t);
    match step
    case Create(t, s) => p.Idle? && s !in a.servers
    case LookupHold(t, s, tok) => p.Idle? && s in a.list && s in a.servers && tok !in a.holds
    case HoldMore(t, s, tok) => p.Idle? && Has(a, t, s) && s in a.servers && tok !in a.holds
    case Release(t, tok) => p.Idle? && tok in a.holds && a.holds[tok].t == t && a.holds[tok].s in a.servers
    case ConnectStart(t, s) =>
      p.Idle? && s in a.servers && a.servers[s].creator == t && s !in a.list && !a.servers[s].state.Destroyed?
    case Bump(t) => p.Took? && p.s in a.servers
    case CloseOld(t) => p.Bumped?
    case DialFail(t) => p.Dialing?
    case DialOk(t, fd) => p.Dialing? && fd >= 0 && fd !in a.open
    case Publish(t) => p.Dialed? && p.s in a.servers
    case CloseRefused(t) => p.Refused?
    case ReconnectStart(t, s) => p.Idle? && Has(a, t, s) && s in a.servers
    case ProbeDone(t, ok) => p.Probing? && p.s in a.servers
    case LoginDone(t, ok) => p.LoggingIn? && p.s in a.servers
    case ReconnectEnd(t) => p.Ending? && p.s in a.servers
    case DisconnectStart(t, s) => p.Idle? && Has(a, t, s)
    case ReadGeneration(t) => p.Leaving? && p.s in a.servers
    case TakeDescriptor(t) => p.Seen? && p.s in a.servers
    case CloseTaken(t) => p.Taken?
    case MarkDisconnected(t) => p.Closed? && p.s in a.servers
    case RemoveStart(t, s) => p.Idle? && (s in a.list ==> s in a.servers)
    case ReleaseCreation(t) => p.Removed? && p.s in a.servers
    case CompleteLogin(t, s) =>
      p.Idle? && s in a.servers && (Has(a, t, s) || a.servers[s].creator == t)
  }

  function Apply(a: State, step: Step): State
    requires Enabled(a, step)
  {
    var p := PhaseOf(a, step.t);
    match step
    case Create(t, s) =>
      a.(servers := a.servers[s := Server(1, -1, Disconnected, 0, 0, t, true, None, None)])
    case LookupHold(t, s, tok) =>
      a.(servers := a.servers[s := a.servers[s].(refcount := a.servers[s].refcount + 1)],
         holds := a.holds[tok := Hold(t, s)])
    case HoldMore(t, s, tok) =>
      a.(servers := a.servers[s := a.servers[s].(refcount := a.servers[s].refcount + 1)],
         holds := a.holds[tok := Hold(t, s)])
    case Release(t, tok) =>
      var s := a.holds[tok].s;
      a.(servers := a.servers[s := Dropped(a.servers[s])], holds := a.holds - {tok})
    case ConnectStart(t, s) =>
      Set(a, s, a.servers[s].(fd := -1), t, Took(s, Alone, a.servers[s].fd))
        .(open := Give(a.open, a.servers[s].fd, OfThread(t)))
    case Bump(t) =>
      Set(a, p.s, a.servers[p.s].(generation := a.servers[p.s].generation + 1), t, Bumped(p.s, p.part, p.held))
    case CloseOld(t) =>
      a.(threads := a.threads[t := Dialing(p.s, p.part)], open := a.open - {p.held})
    case DialFail(t) =>
      a.(threads := a.threads[t := AfterFailure(p.s, p.part)])
    case DialOk(t, fd) =>
      a.(threads := a.threads[t := Dialed(p.s, p.part, fd)], open := a.open[fd := OfThread(t)])
    case Publish(t) =>
      var v := a.servers[p.s];
      if v.state.Destroyed? then a.(threads := a.threads[t := Refused(p.s, p.part, p.held)])
      else
        Set(a, p.s, v.(fd := p.held, state := Connecting), t,
            if p.part == OfReconnect then LoggingIn(p.s) else Idle)
        .(list := if p.s in a.list then a.list else [p.s] + a.list, open := Give(a.open, p.held, OfServer(p.s)))
    case CloseRefused(t) =>
      a.(threads := a.threads[t := AfterFailure(p.s, p.part)], open := a.open - {p.held})
    case ReconnectStart(t, s) =>
      if a.servers[s].reconnector.Some? then a
      else Set(a, s, a.servers[s].(reconnector := Some(t)), t, Probing(s))
    case ProbeDone(t, ok) =>
      if ok then
        Set(a, p.s, a.servers[p.s].(fd := -1), t, Took(p.s, OfReconnect, a.servers[p.s].fd))
        .(open := Give(a.open, a.servers[p.s].fd, OfThread(t)))
      else a.(threads := a.threads[t := Leaving(p.s, OfReconnect)])
    case LoginDone(t, ok) =>
      var v := a.servers[p.s];
      if !ok || v.fd < 0 || v.state != Connecting then a.(threads := a.threads[t := Leaving(p.s, OfReconnect)])
      else Set(a, p.s, v.(state := Connected), t, Ending(p.s))
    case ReconnectEnd(t) =>
      Set(a, p.s, a.servers[p.s].(reconnector := None), t, Idle)
    case DisconnectStart(t, s) =>
      a.(threads := a.threads[t := Leaving(s, Alone)])
    case ReadGeneration(t) =>
      a.(threads := a.threads[t := Seen(p.s, p.part, a.servers[p.s].generation)])
    case TakeDescriptor(t) =>
      var v := a.servers[p.s];
      if v.generation == p.gen then
        Set(a, p.s, v.(fd := -1), t, Taken(p.s, p.part, p.gen, v.fd)).(open := Give(a.open, v.fd, OfThread(t)))
      else a.(threads := a.threads[t := Taken(p.s, p.part, p.gen, -1)])
    case CloseTaken(t) =>
      a.(threads := a.threads[t := Closed(p.s, p.part, p.gen)], open := a.open - {p.held})
    case MarkDisconnected(t) =>
      var v := a.servers[p.s];
      var next := match p.part case Alone => Idle case OfReconnect => Ending(p.s) case OfRemove => Removed(p.s);
      if v.generation == p.gen && (v.state == Connected || v.state == Connecting)
      then Set(a, p.s, v.(state := Disconnected), t, next)
      else a.(threads := a.threads[t := next])
    case RemoveStart(t, s) =>
      if s in a.list then
        Set(a, s, a.servers[s].(state := Destroyed, remover := Some(t)), t, Leaving(s, OfRemove))
        .(list := Without(a.list, s))
      else a
    case ReleaseCreation(t) =>
      Set(a, p.s, Dropped(a.servers[p.s]).(creation := false, remover := None), t, Idle)
    case CompleteLogin(t, s) =>
      var v := a.servers[s];
      if v.fd < 0 || v.state == Disconnected || v.state == Destroyed then a
      else a.(servers := a.servers[s := v.(state := Connected)])
  }

  const START := State(map[], [], map[], map[], map[])

  /** A run of the program, from no servers: each step is enabled where it is taken. */
  ghost predicate Run(steps: seq<Step>, states: seq<State>) {
    && |states| == |steps| + 1 && states[0] == START
    && forall i :: 0 <= i < |steps| ==> Enabled(states[i], steps[i]) && states[i + 1] == Apply(states[i], steps[i])
  }

  // ----- what every step keeps

  ghost function HoldsOf(holds: map<Token, Hold>, s: Sid): set<Token> {
    set tok | tok in holds && holds[tok].s == s
  }

  /** The count is the holds and the creation's reference, and a server was freed once its count reached 0. */
  ghost predicate Counted(a: State) {
    && (forall tok :: tok in a.holds ==> a.holds[tok].s in a.servers)
    && forall s :: s in a.servers ==>
         var v := a.servers[s];
         && v.refcount == |HoldsOf(a.holds, s)| + (if v.creation then 1 else 0)
         && v.frees == if v.refcount == 0 then 1 else 0
  }

  /** A listed server is alive and not destroyed; one that was never listed is its creator's alone. */
  ghost predicate ListOk(a: State) {
    && NoDuplicates(a.list)
    && (forall s :: s in a.list ==> s in a.servers && a.servers[s].creation && !a.servers[s].state.Destroyed?)
    && forall s :: s in a.servers && s !in a.list && !a.servers[s].state.Destroyed? ==>
         && a.servers[s].creation && a.servers[s].state == Disconnected && a.servers[s].fd == -1
         && a.servers[s].reconnector.None?
         && forall tok :: tok in a.holds ==> a.holds[tok].s != s
  }

  /** The threads a server names are where it says, and a destroyed server loses its descriptor and then the
      creation's reference to the thread that removes it. */
  ghost predicate ServerOk(a: State, s: Sid)
    requires s in a.servers
  {
    var v := a.servers[s];
    && v.fd >= -1
    && (v.reconnector.Some? ==> var p := PhaseOf(a, v.reconnector.value); p.InReconnect() && p.s == s)
    && (v.remover.Some? ==> var p := PhaseOf(a, v.remover.value); p.InRemove() && p.s == s)
    && (v.state.Destroyed? && v.creation ==> v.remover.Some?)
    && (!v.creation ==> v.state.Destroyed? && v.fd == -1)
  }

  /** A thread in a phase works on a server that lives until it is done. */
  ghost predicate ThreadOk(a: State, t: Tid) {
    var p := PhaseOf(a, t);
    p.Idle? ||
    (&& p.s in a.servers && Suits(a.servers[p.s], p, t)
     && (p.InReconnect() || (p.InDisconnect() && p.part == Alone) ==> Has(a, t, p.s))
     && (p.Connector() && p.part == Alone ==> p.s !in a.list))
  }

  /** What a thread in a phase can rely on about its server. */
  ghost predicate Suits(v: Server, p: Phase, t: Tid) {
    && p.Held() >= -1 && (p.Dialed? ==> p.held >= 0)
    && (p.InReconnect() ==> v.reconnector == Some(t))
    && (p.InRemove() ==> v.remover == Some(t) && v.state.Destroyed? && v.creation)
    && (p.Connector() ==> v.fd == -1 && p.part != OfRemove)
    && (p.Connector() && p.part == Alone ==> v.creator == t && !v.state.Destroyed?)
    && (p.Refused? ==> p.part == OfReconnect && v.state.Destroyed?)
    && (p.Seen? || p.Taken? || p.Closed? ==> p.gen <= v.generation)
    && (p.InReconnect() && (p.Seen? || p.Taken? || p.Closed?) ==> p.gen == v.generation)
    && (p.Seen? && p.part == OfRemove && v.fd >= 0 ==> p.gen == v.generation)
    && (p.InRemove() && !p.Leaving? && !p.Seen? ==> v.fd == -1)
  }

  /** Every open descriptor has one owner, and every descriptor someone has is open. */
  ghost predicate Owned(a: State) {
    && (forall s :: s in a.servers && a.servers[s].fd >= 0 ==>
          a.servers[s].fd in a.open && a.open[a.servers[s].fd] == OfServer(s))
    && (forall t :: PhaseOf(a, t).Held() >= 0 ==>
          PhaseOf(a, t).Held() in a.open && a.open[PhaseOf(a, t).Held()] == OfThread(t))
    && forall x :: x in a.open ==>
         && x >= 0
         && match a.open[x]
            case OfServer(s) => s in a.servers && a.servers[s].fd == x
            case OfThread(t) => PhaseOf(a, t).Held() == x
  }

  ghost predicate Inv(a: State) {
    && Counted(a) && ListOk(a) && Owned(a)
    && (forall s :: s in a.servers ==> ServerOk(a, s))
    && forall t :: ThreadOk(a, t)
  }

  // ----- counts

  lemma HoldAdded(holds: map<Token, Hold>, tok: Token, h: Hold, s: Sid)
    requires tok !in holds
    ensures |HoldsOf(holds[tok := h], s)| == |HoldsOf(holds, s)| + if h.s == s then 1 else 0
  {
    var more := HoldsOf(holds[tok := h], s);
    assert more == if h.s == s then HoldsOf(holds, s) + {tok} else HoldsOf(holds, s);
  }

  lemma HoldDropped(holds: map<Token, Hold>, tok: Token, s: Sid)
    requires tok in holds
    ensures |HoldsOf(holds - {tok}, s)| == |HoldsOf(holds, s)| - if holds[tok].s == s then 1 else 0
  {
    var fewer := HoldsOf(holds - {tok}, s);
    assert HoldsOf(holds, s) == if holds[tok].s == s then fewer + {tok} else fewer;
  }

  /** A hold of a server keeps its count up. */
  lemma HeldAlive(a: State, tok: Token)
    requires Counted(a) && tok in a.holds
    ensures a.servers[a.holds[tok].s].refcount >= 1 + if a.servers[a.holds[tok].s].creation then 1 else 0
    ensures a.servers[a.holds[tok].s].frees == 0
  {
    assert tok in HoldsOf(a.holds, a.holds[tok].s);
  }

  lemma CountStepKept(a: State, step: Step)
    requires Counted(a) && Enabled(a, step) && CountStep(step)
    requires step.LookupHold? ==> a.servers[step.s].creation
    requires step.ReleaseCreation? ==> a.servers[PhaseOf(a, step.t).s].creation
    ensures Counted(Apply(a, step))
  {
    hide Counted, Apply, Without, Give, HoldsOf;
    match step {
      case Create(t, s) => CreateCounted(a, step);
      case LookupHold(t, s, tok) => HoldCounted(a, step);
      case HoldMore(t, s, tok) => HoldCounted(a, step);
      case Release(t, tok) => ReleaseCounted(a, step);
      case ReleaseCreation(t) => ReleaseCounted(a, step);
    }
  }

  lemma CreateCounted(a: State, step: Step)
    requires Counted(a) && Enabled(a, step) && step.Create?
    ensures Counted(Apply(a, step))
  {
    hide HoldsOf;
    NoHoldsYet(a, step.s);
  }

  lemma HoldCounted(a: State, step: Step)
    requires Counted(a) && Enabled(a, step) && (step.LookupHold? || step.HoldMore?)
    requires step.LookupHold? ==> a.servers[step.s].creation
    ensures Counted(Apply(a, step))
  {
    hide HoldsOf;
    if step.HoldMore? {
      var held :| held in a.holds && a.holds[held] == Hold(step.t, step.s);
      HeldAlive(a, held);
    }
    forall x { HoldAdded(a.holds, step.tok, Hold(step.t, step.s), x); }
  }

  lemma ReleaseCounted(a: State, step: Step)
    requires Counted(a) && Enabled(a, step) && (step.Release? || step.ReleaseCreation?)
    requires step.ReleaseCreation? ==> a.servers[PhaseOf(a, step.t).s].creation
    ensures Counted(Apply(a, step))
  {
    hide HoldsOf;
    if step.Release? {
      HeldAlive(a, step.tok);
      forall x { HoldDropped(a.holds, step.tok, x); }
    }
  }

  lemma NoHoldsYet(a: State, s: Sid)
    requires Counted(a) && s !in a.servers
    ensures HoldsOf(a.holds, s) == {} && forall tok :: tok in a.holds ==> a.holds[tok].s != s
  {
  }

  // ----- a step's thread and server, and the others

  /** The server a step is about. */
  function Target(a: State, step: Step): Sid
    requires Enabled(a, step)
  {
    match step
    case Create(t, s) => s
    case LookupHold(t, s, tok) => s
    case HoldMore(t, s, tok) => s
    case Release(t, tok) => a.holds[tok].s
    case ConnectStart(t, s) => s
    case ReconnectStart(t, s) => s
    case DisconnectStart(t, s) => s
    case RemoveStart(t, s) => s
    case CompleteLogin(t, s) => s
    case _ => PhaseOf(a, step.t).s
  }

  /** A step leaves other threads' phases and other servers alone. */
  lemma Frame(a: State, step: Step)
    requires Enabled(a, step)
    ensures var b, s := Apply(a, step), Target(a, step);
      && (forall u :: u != step.t ==> PhaseOf(b, u) == PhaseOf(a, u))
      && (!PhaseOf(a, step.t).Idle? ==> PhaseOf(a, step.t).s == s)
      && (forall x :: x != s ==> (x in b.servers <==> x in a.servers))
      && (forall x :: x != s && x in a.servers ==> b.servers[x] == a.servers[x])
      && (s in a.servers ==> s in b.servers)
  {
    hide Apply, Enabled;
    FrameThreads(a, step);
    FrameServers(a, step);
  }

  lemma FrameThreads(a: State, step: Step)
    requires Enabled(a, step)
    ensures forall u :: u != step.t ==> PhaseOf(Apply(a, step), u) == PhaseOf(a, u)
    ensures !PhaseOf(a, step.t).Idle? ==> PhaseOf(a, step.t).s == Target(a, step)
  {
    hide Has, Without, Give, Dropped, AfterFailure;
  }

  lemma FrameServers(a: State, step: Step)
    requires Enabled(a, step)
    ensures var b, s := Apply(a, step), Target(a, step);
      && (forall x :: x != s ==> (x in b.servers <==> x in a.servers))
      && (forall x :: x != s && x in a.servers ==> b.servers[x] == a.servers[x])
      && (s in a.servers ==> s in b.servers)
  {
    hide Has, Without, Give, Dropped, AfterFailure;
  }

  // ----- what a step does to its server and its thread, whatever the rest of the state

  /** The thread's phase lets it take the step, about this server. */
  predicate Fits(p: Phase, step: Step, s: Sid) {
    && (p.Idle? || p.s == s)
    && match step
       case Bump(t) => p.Took?
       case CloseOld(t) => p.Bumped?
       case DialFail(t) => p.Dialing?
       case DialOk(t, fd) => p.Dialing? && fd >= 0
       case Publish(t) => p.Dialed?
       case CloseRefused(t) => p.Refused?
       case ProbeDone(t, ok) => p.Probing?
       case LoginDone(t, ok) => p.LoggingIn?
       case ReconnectEnd(t) => p.Ending?
       case ReadGeneration(t) => p.Leaving?
       case TakeDescriptor(t) => p.Seen?
       case CloseTaken(t) => p.Taken?
       case MarkDisconnected(t) => p.Closed?
       case ReleaseCreation(t) => p.Removed?
       case _ => p.Idle?
  }

  function NextServer(v: Server, p: Phase, step: Step, s: Sid, listed: bool): Server
    requires Fits(p, step, s) && !step.Create?
  {
    match step
    case LookupHold(t, x, tok) => v.(refcount := v.refcount + 1)
    case HoldMore(t, x, tok) => v.(refcount := v.refcount + 1)
    case Release(t, tok) => Dropped(v)
    case ConnectStart(t, x) => v.(fd := -1)
    case Bump(t) => v.(generation := v.generation + 1)
    case Publish(t) => if v.state.Destroyed? then v else v.(fd := p.held, state := Connecting)
    case ReconnectStart(t, x) => if v.reconnector.Some? then v else v.(reconnector := Some(t))
    case ProbeDone(t, ok) => if ok then v.(fd := -1) else v
    case LoginDone(t, ok) => if !ok || v.fd < 0 || v.state != Connecting then v else v.(state := Connected)
    case ReconnectEnd(t) => v.(reconnector := None)
    case TakeDescriptor(t) => if v.generation == p.gen then v.(fd := -1) else v
    case MarkDisconnected(t) =>
      if v.generation == p.gen && (v.state == Connected || v.state == Connecting) then v.(state := Disconnected) else v
    case RemoveStart(t, x) => if listed then v.(state := Destroyed, remover := Some(t)) else v
    case ReleaseCreation(t) => Dropped(v).(creation := false, remover := None)
    case CompleteLogin(t, x) =>
      if v.fd < 0 || v.state == Disconnected || v.state == Destroyed then v else v.(state := Connected)
    case _ => v
  }

  function NextPhase(v: Server, p: Phase, step: Step, s: Sid, listed: bool): Phase
    requires Fits(p, step, s) && !step.Create?
  {
    match step
    case ConnectStart(t, x) => Took(s, Alone, v.fd)
    case Bump(t) => Bumped(s, p.part, p.held)
    case CloseOld(t) => Dialing(s, p.part)
    case DialFail(t) => AfterFailure(s, p.part)
    case DialOk(t, fd) => Dialed(s, p.part, fd)
    case Publish(t) =>
      if v.state.Destroyed? then Refused(s, p.part, p.held) else if p.part == OfReconnect then LoggingIn(s) else Idle
    case CloseRefused(t) => AfterFailure(s, p.part)
    case ReconnectStart(t, x) => if v.reconnector.Some? then p else Probing(s)
    case ProbeDone(t, ok) => if ok then Took(s, OfReconnect, v.fd) else Leaving(s, OfReconnect)
    case LoginDone(t, ok) =>
      if !ok || v.fd < 0 || v.state != Connecting then Leaving(s, OfReconnect) else Ending(s)
    case ReconnectEnd(t) => Idle
    case DisconnectStart(t, x) => Leaving(s, Alone)
    case ReadGeneration(t) => Seen(s, p.part, v.generation)
    case TakeDescriptor(t) => Taken(s, p.part, p.gen, if v.generation == p.gen then v.fd else -1)
    case CloseTaken(t) => Closed(s, p.part, p.gen)
    case MarkDisconnected(t) => (match p.part case Alone => Idle case OfReconnect => Ending(s) case OfRemove => Removed(s))
    case RemoveStart(t, x) => if listed then Leaving(s, OfRemove) else p
    case ReleaseCreation(t) => Idle
    case _ => p
  }

  lemma StepServer(a: State, step: Step)
    requires Enabled(a, step) && !step.Create? && Target(a, step) in Apply(a, step).servers
    ensures Target(a, step) in a.servers && Fits(PhaseOf(a, step.t), step, Target(a, step))
    ensures var s := Target(a, step);
      Apply(a, step).servers[s] == NextServer(a.servers[s], PhaseOf(a, step.t), step, s, s in a.list)
  {
    hide Has, Without, Give, AfterFailure;
  }

  lemma StepPhase(a: State, step: Step)
    requires Enabled(a, step) && !step.Create? && Target(a, step) in a.servers
    ensures Fits(PhaseOf(a, step.t), step, Target(a, step))
    ensures var s := Target(a, step);
      PhaseOf(Apply(a, step), step.t) == NextPhase(a.servers[s], PhaseOf(a, step.t), step, s, s in a.list)
  {
    hide Has, Without, Give, AfterFailure, Dropped;
  }

  lemma CreateServer(a: State, step: Step)
    requires Enabled(a, step) && step.Create?
    ensures Apply(a, step).servers[step.s] == Server(1, -1, Disconnected, 0, 0, step.t, true, None, None)
  {
  }

  /** The steps that change a count or a hold. */
  predicate CountStep(step: Step) {
    step.Create? || step.LookupHold? || step.HoldMore? || step.Release? || step.ReleaseCreation?
  }

  lemma OtherCountsSame(a: State, step: Step)
    requires Enabled(a, step) && !CountStep(step)
    ensures var b, s := Apply(a, step), Target(a, step);
      && b.holds == a.holds && (s in b.servers ==> s in a.servers)
      && (s in b.servers ==>
           && b.servers[s].refcount == a.servers[s].refcount && b.servers[s].creation == a.servers[s].creation
           && b.servers[s].frees == a.servers[s].frees)
  {
    hide Apply, Enabled, Target;
    HoldsSame(a, step);
    if Target(a, step) in Apply(a, step).servers {
      StepServer(a, step);
    }
  }

  lemma HoldsSame(a: State, step: Step)
    requires Enabled(a, step) && !CountStep(step)
    ensures Apply(a, step).holds == a.holds
  {
    hide Has, Without, Give, AfterFailure, Dropped;
  }

  lemma CountedKept(a: State, step: Step)
    requires Counted(a) && Enabled(a, step)
    requires step.LookupHold? ==> a.servers[step.s].creation
    requires step.ReleaseCreation? ==> a.servers[PhaseOf(a, step.t).s].creation
    ensures Counted(Apply(a, step))
  {
    hide Apply, Enabled, HoldsOf, Target, PhaseOf;
    if CountStep(step) {
      CountStepKept(a, step);
    } else {
      Frame(a, step);
      OtherCountsSame(a, step);
    }
  }

  /** Membership of the list changes for the step's server alone, and a thread's holds are dropped by itself
      while it is idle. */
  lemma ListFrame(a: State, step: Step)
    requires Enabled(a, step)
    ensures var b, s := Apply(a, step), Target(a, step);
      && (forall x :: x != s ==> (x in b.list <==> x in a.list))
      && (NoDuplicates(a.list) ==> NoDuplicates(b.list))
      && (s in b.list && s !in a.list ==> step.Publish? && !a.servers[s].state.Destroyed?)
      && (NoDuplicates(a.list) && s in a.list && s !in b.list ==> step.RemoveStart?)
  {
    hide Has, Give, Dropped, AfterFailure;
  }

  lemma HasFrame(a: State, step: Step, u: Tid, x: Sid)
    requires Enabled(a, step) && Has(a, u, x)
    requires u != step.t || !PhaseOf(a, u).Idle?
    ensures Has(Apply(a, step), u, x)
  {
    hide Without, Give, Dropped, AfterFailure;
    var tok :| tok in a.holds && a.holds[tok] == Hold(u, x);
    var b := Apply(a, step);
    assert tok in b.holds && b.holds[tok] == a.holds[tok];
  }

  /** What a step may do to its server, as seen by the other threads: a destroyed server stays so and never gets
      a descriptor again, and what another thread's phase relies on stays. */
  ghost predicate Gentle(v: Server, w: Server, t: Tid) {
    && w.creator == v.creator && w.generation >= v.generation && w.fd >= -1
    && (v.state.Destroyed? ==> w.state.Destroyed? && (w.fd == v.fd || w.fd == -1))
    && (v.reconnector.Some? && v.reconnector != Some(t) ==> w.reconnector == v.reconnector && w.generation == v.generation)
    && (v.reconnector.None? ==> w.reconnector.None? || w.reconnector == Some(t))
    && (v.remover.Some? && v.remover != Some(t) ==> w.remover == v.remover && w.creation == v.creation)
    && (w.generation != v.generation ==> v.fd == -1 && w.fd == -1)
    && (w.state.Destroyed? && !v.state.Destroyed? ==> w.fd == v.fd && w.generation == v.generation)
  }

  ghost predicate StepGentle(a: State, step: Step)
    requires Enabled(a, step)
  {
    var b, s := Apply(a, step), Target(a, step);
    s in a.servers ==> s in b.servers && Gentle(a.servers[s], b.servers[s], step.t)
  }

  lemma TargetGentle(a: State, step: Step)
    requires Enabled(a, step) && Target(a, step) in a.servers
    requires ThreadOk(a, step.t) && ServerOk(a, Target(a, step))
    requires step.RemoveStart? && step.s in a.list ==> a.servers[step.s].remover.None?
    requires step.Bump? && PhaseOf(a, step.t).part == Alone ==> a.servers[Target(a, step)].reconnector.None?
    ensures StepGentle(a, step)
  {
    hide Apply, Enabled, NextServer, NextPhase, Fits, Gentle, Has;
    Frame(a, step);
    NotCreate(a, step);
    StepServer(a, step);
    var s := Target(a, step);
    GentleNext(a.servers[s], PhaseOf(a, step.t), step, s, s in a.list);
  }

  lemma NotCreate(a: State, step: Step)
    requires Enabled(a, step) && Target(a, step) in a.servers
    ensures !step.Create?
  {
  }

  lemma GentleNext(v: Server, p: Phase, step: Step, s: Sid, listed: bool)
    requires Fits(p, step, s) && !step.Create? && v.fd >= -1 && p.Held() >= -1
    requires p.InReconnect() ==> v.reconnector == Some(step.t)
    requires p.InRemove() ==> v.remover == Some(step.t)
    requires p.Connector() ==> v.fd == -1 && p.part != OfRemove
    requires step.RemoveStart? && listed ==> v.remover.None?
    requires step.Bump? && p.part == Alone ==> v.reconnector.None?
    ensures Gentle(v, NextServer(v, p, step, s, listed), step.t)
  {
  }

  /** The step leaves its server without a descriptor, and one being connected for the first time off the list. */
  ghost predicate Unpublished(a: State, step: Step, part: Part)
    requires Enabled(a, step)
  {
    var b, s := Apply(a, step), Target(a, step);
    s in b.servers && b.servers[s].fd == -1 && (part == Alone ==> s !in b.list && !b.servers[s].state.Destroyed?)
  }

  /** A thread that does not step is still where it may be. */
  lemma OtherThreadKept(a: State, step: Step, u: Tid)
    requires Enabled(a, step) && u != step.t && ThreadOk(a, u)
    requires StepGentle(a, step)
    requires PhaseOf(a, u).Connector() && PhaseOf(a, u).s == Target(a, step) ==> Unpublished(a, step, PhaseOf(a, u).part)
    ensures ThreadOk(Apply(a, step), u)
  {
    hide Apply, Enabled, Target, Has, Suits, Gentle;
    Frame(a, step);
    ListFrame(a, step);
    var p := PhaseOf(a, u);
    if !p.Idle? {
      if Has(a, u, p.s) {
        HasFrame(a, step, u, p.s);
      }
      if p.s == Target(a, step) {
        SuitsGentle(a.servers[p.s], Apply(a, step).servers[p.s], p, step.t, u);
      }
    }
  }

  lemma SuitsGentle(v: Server, w: Server, p: Phase, t: Tid, u: Tid)
    requires Suits(v, p, u) && Gentle(v, w, t) && u != t
    requires p.Connector() ==> w.fd == -1 && (p.part == Alone ==> !w.state.Destroyed?)
    ensures Suits(w, p, u)
  {
  }

  /** Two threads never connect the same server at once. */
  lemma OneConnector(a: State, t: Tid, u: Tid)
    requires ListOk(a) && ThreadOk(a, t) && ThreadOk(a, u) && t != u
    requires PhaseOf(a, t).Connector() && PhaseOf(a, u).Connector()
    ensures PhaseOf(a, t).s != PhaseOf(a, u).s
  {
  }

  /** While a thread connects a server, no other thread's step publishes a descriptor for it, nor lists or
      destroys one it created. */
  lemma ConnectorKept(a: State, step: Step, u: Tid)
    requires Enabled(a, step) && u != step.t && ListOk(a) && ThreadOk(a, u) && ThreadOk(a, step.t)
    requires PhaseOf(a, u).Connector() && PhaseOf(a, u).s == Target(a, step)
    ensures Unpublished(a, step, PhaseOf(a, u).part)
  {
    hide Has, Give, Without;
    if step.Publish? {
      OneConnector(a, step.t, u);
    }
  }

  predicate TakeOldStep(step: Step) {
    step.ConnectStart? || step.ProbeDone?
  }

  predicate DialStep(step: Step) {
    step.Bump? || step.CloseOld?
  }

  predicate LandStep(step: Step) {
    step.DialFail? || step.DialOk? || step.Publish? || step.CloseRefused?
  }

  /** The thread that steps is where it may be afterwards. */
  lemma StepperKept(a: State, step: Step)
    requires Enabled(a, step) && Counted(a) && ListOk(a) && ThreadOk(a, step.t)
    requires Target(a, step) in a.servers ==> ServerOk(a, Target(a, step))
    ensures ThreadOk(Apply(a, step), step.t)
  {
    hide Apply, Enabled, Target, Has, Counted, Suits, Fits, NextServer, NextPhase;
    var b, s, p := Apply(a, step), Target(a, step), PhaseOf(a, step.t);
    Frame(a, step);
    if s !in a.servers {
      StaysIdle(a, step);
    } else {
      NotCreate(a, step);
      StepServer(a, step);
      StepPhase(a, step);
      MayConnect(a, step);
      var v, listed := a.servers[s], s in a.list;
      PhaseMoves(v, p, step, s, listed);
      SuitsNext(v, p, step, s, listed);
      ListFrame(a, step);
      if step.DisconnectStart? || step.ReconnectStart? {
        StillHas(a, step);
      } else if !p.Idle? && Has(a, step.t, s) {
        HasFrame(a, step, step.t, s);
      }
    }
  }

  lemma MayConnect(a: State, step: Step)
    requires Enabled(a, step)
    ensures step.ConnectStart? ==>
      step.s in a.servers && a.servers[step.s].creator == step.t && step.s !in a.list && !a.servers[step.s].state.Destroyed?
    ensures step.ConnectStart? || step.DisconnectStart? || step.ReconnectStart? ==> Target(a, step) == step.s
  {
  }

  lemma StaysIdle(a: State, step: Step)
    requires Enabled(a, step) && Counted(a) && ThreadOk(a, step.t) && Target(a, step) !in a.servers
    ensures PhaseOf(Apply(a, step), step.t).Idle?
  {
    hide Give, Without, HoldsOf;
  }

  /** Which phases a step leads to that need a hold or an unlisted server. */
  lemma PhaseMoves(v: Server, p: Phase, step: Step, s: Sid, listed: bool)
    requires Fits(p, step, s) && !step.Create?
    ensures var q := NextPhase(v, p, step, s, listed);
      && (!q.Idle? ==> q.s == s)
      && (q.Connector() && q.part == Alone ==> !step.Publish? && (step.ConnectStart? || (p.Connector() && p.part == Alone)))
      && (q.InReconnect() || (q.InDisconnect() && q.part == Alone) ==>
            step.DisconnectStart? || step.ReconnectStart? || p.InReconnect() || (p.InDisconnect() && p.part == Alone))
  {
  }

  lemma SuitsNext(v: Server, p: Phase, step: Step, s: Sid, listed: bool)
    requires Fits(p, step, s) && !step.Create? && v.fd >= -1 && (p.Idle? || Suits(v, p, step.t))
    requires step.ConnectStart? ==> v.creator == step.t && !v.state.Destroyed?
    requires listed ==> v.creation
    ensures var w, q := NextServer(v, p, step, s, listed), NextPhase(v, p, step, s, listed);
      q.Idle? || Suits(w, q, step.t)
  {
  }

  lemma StillHas(a: State, step: Step)
    requires Enabled(a, step) && Counted(a) && (step.DisconnectStart? || step.ReconnectStart?)
    ensures step.s in a.servers && Has(Apply(a, step), step.t, step.s)
  {
    var tok :| tok in a.holds && a.holds[tok] == Hold(step.t, step.s);
  }

  // ----- servers and the list

  lemma OtherServerKept(a: State, step: Step, x: Sid)
    requires Enabled(a, step) && x in a.servers && x != Target(a, step) && ServerOk(a, x)
    ensures ServerOk(Apply(a, step), x)
  {
    hide Apply, Enabled, Target;
    Frame(a, step);
  }

  /** A server names its reconnecting thread exactly while the thread is in a reconnect of it. */
  lemma ReconnectorKept(a: State, step: Step)
    requires Enabled(a, step) && ThreadOk(a, step.t) && Target(a, step) in Apply(a, step).servers
    requires Target(a, step) in a.servers ==> ServerOk(a, Target(a, step))
    ensures var b, s := Apply(a, step), Target(a, step); var w := b.servers[s];
      && (w.reconnector == Some(step.t) ==> PhaseOf(b, step.t).InReconnect() && PhaseOf(b, step.t).s == s)
      && (w.reconnector.Some? && w.reconnector != Some(step.t) ==>
            s in a.servers && a.servers[s].reconnector == w.reconnector)
  {
    hide Apply, Enabled, Target, NextServer, NextPhase, Fits, ThreadOk;
    if step.Create? {
      CreateServer(a, step);
      CreateTarget(a, step);
    } else {
      StepServer(a, step);
      StepPhase(a, step);
      var s := Target(a, step);
      ReconnectorNext(a.servers[s], PhaseOf(a, step.t), step, s, s in a.list);
    }
  }

  lemma ReconnectorNext(v: Server, p: Phase, step: Step, s: Sid, listed: bool)
    requires Fits(p, step, s) && !step.Create?
    requires v.reconnector == Some(step.t) ==> p.InReconnect() && p.s == s
    ensures var w, q := NextServer(v, p, step, s, listed), NextPhase(v, p, step, s, listed);
      && (w.reconnector == Some(step.t) ==> q.InReconnect() && q.s == s)
      && (w.reconnector.Some? && w.reconnector != Some(step.t) ==> v.reconnector == w.reconnector)
  {
  }

  lemma RemoverKept(a: State, step: Step)
    requires Enabled(a, step) && ThreadOk(a, step.t) && Target(a, step) in Apply(a, step).servers
    requires Target(a, step) in a.servers ==> ServerOk(a, Target(a, step))
    ensures var b, s := Apply(a, step), Target(a, step); var w := b.servers[s];
      && (w.remover == Some(step.t) ==> PhaseOf(b, step.t).InRemove() && PhaseOf(b, step.t).s == s)
      && (w.remover.Some? && w.remover != Some(step.t) ==> s in a.servers && a.servers[s].remover == w.remover)
  {
    hide Apply, Enabled, Target, NextServer, NextPhase, Fits, ThreadOk;
    if step.Create? {
      CreateServer(a, step);
      CreateTarget(a, step);
    } else {
      StepServer(a, step);
      StepPhase(a, step);
      var s := Target(a, step);
      RemoverNext(a.servers[s], PhaseOf(a, step.t), step, s, s in a.list);
    }
  }

  lemma RemoverNext(v: Server, p: Phase, step: Step, s: Sid, listed: bool)
    requires Fits(p, step, s) && !step.Create?
    requires v.remover == Some(step.t) ==> p.InRemove() && p.s == s
    ensures var w, q := NextServer(v, p, step, s, listed), NextPhase(v, p, step, s, listed);
      && (w.remover == Some(step.t) ==> q.InRemove() && q.s == s)
      && (w.remover.Some? && w.remover != Some(step.t) ==> v.remover == w.remover)
  {
  }

  lemma DestroyedKept(a: State, step: Step)
    requires Enabled(a, step) && ListOk(a) && ThreadOk(a, step.t) && Target(a, step) in Apply(a, step).servers
    requires Target(a, step) in a.servers ==> ServerOk(a, Target(a, step))
    ensures var w := Apply(a, step).servers[Target(a, step)];
      && w.fd >= -1
      && (w.state.Destroyed? && w.creation ==> w.remover.Some?)
      && (!w.creation ==> w.state.Destroyed? && w.fd == -1)
  {
    hide Apply, Enabled, Target, NextServer, NextPhase;
    if step.Create? {
      CreateServer(a, step);
      CreateTarget(a, step);
    } else {
      StepServer(a, step);
      var s := Target(a, step);
      DestroyedNext(a.servers[s], PhaseOf(a, step.t), step, s, s in a.list);
    }
  }

  lemma DestroyedNext(v: Server, p: Phase, step: Step, s: Sid, listed: bool)
    requires Fits(p, step, s) && !step.Create? && p.Held() >= -1
    requires v.fd >= -1 && (v.state.Destroyed? && v.creation ==> v.remover.Some?)
    requires !v.creation ==> v.state.Destroyed? && v.fd == -1
    requires listed ==> v.creation
    requires p.InRemove() ==> v.state.Destroyed?
    requires p.InRemove() && !p.Leaving? && !p.Seen? ==> v.fd == -1
    ensures var w := NextServer(v, p, step, s, listed);
      && w.fd >= -1
      && (w.state.Destroyed? && w.creation ==> w.remover.Some?)
      && (!w.creation ==> w.state.Destroyed? && w.fd == -1)
  {
  }

  lemma CreateTarget(a: State, step: Step)
    requires Enabled(a, step) && step.Create?
    ensures Target(a, step) == step.s && step.s !in a.servers
  {
  }

  lemma TargetServerKept(a: State, step: Step)
    requires Enabled(a, step) && ListOk(a) && ThreadOk(a, step.t) && Target(a, step) in Apply(a, step).servers
    requires Target(a, step) in a.servers ==> ServerOk(a, Target(a, step))
    ensures ServerOk(Apply(a, step), Target(a, step))
  {
    hide Apply, Enabled, Target, ThreadOk, ListOk;
    Frame(a, step);
    ReconnectorKept(a, step);
    RemoverKept(a, step);
    DestroyedKept(a, step);
  }

  lemma OtherListKept(a: State, step: Step)
    requires Enabled(a, step) && ListOk(a)
    ensures var b, s := Apply(a, step), Target(a, step);
      && NoDuplicates(b.list)
      && (forall x :: x != s && x in b.list ==> x in b.servers && b.servers[x].creation && !b.servers[x].state.Destroyed?)
      && forall x :: x != s && x in b.servers && x !in b.list && !b.servers[x].state.Destroyed? ==>
           && b.servers[x].creation && b.servers[x].state == Disconnected && b.servers[x].fd == -1
           && b.servers[x].reconnector.None?
           && forall tok :: tok in b.holds ==> b.holds[tok].s != x
  {
    hide Apply, Enabled, Target;
    Frame(a, step);
    ListFrame(a, step);
    HoldsFrame(a, step);
  }

  lemma HoldsFrame(a: State, step: Step)
    requires Enabled(a, step)
    ensures var b := Apply(a, step);
      forall tok :: tok in b.holds ==> (tok in a.holds && a.holds[tok] == b.holds[tok]) || b.holds[tok].s == Target(a, step)
  {
    hide Has, Give, Without, AfterFailure, Dropped;
  }

  ghost predicate TargetListed(b: State, s: Sid) {
    && (s in b.list ==> s in b.servers && b.servers[s].creation && !b.servers[s].state.Destroyed?)
    && (s in b.servers && s !in b.list && !b.servers[s].state.Destroyed? ==>
         && b.servers[s].creation && b.servers[s].state == Disconnected && b.servers[s].fd == -1
         && b.servers[s].reconnector.None?
         && forall tok :: tok in b.holds ==> b.holds[tok].s != s)
  }

  lemma TargetListKept(a: State, step: Step)
    requires Enabled(a, step) && Counted(a) && ListOk(a) && ThreadOk(a, step.t)
    ensures TargetListed(Apply(a, step), Target(a, step))
  {
    hide Apply, Enabled, Target, ListOk, Counted, ThreadOk, TargetListed;
    if TakeOldStep(step) || DialStep(step) || LandStep(step) {
      ConnectListed(a, step);
    } else {
      WorkListed(a, step);
    }
  }

  lemma ConnectListed(a: State, step: Step)
    requires Enabled(a, step) && ListOk(a) && ThreadOk(a, step.t)
    requires TakeOldStep(step) || DialStep(step) || LandStep(step)
    ensures TargetListed(Apply(a, step), Target(a, step))
  {
    hide Give, HoldsOf, Without, AfterFailure;
  }

  lemma WorkListed(a: State, step: Step)
    requires Enabled(a, step) && Counted(a) && ListOk(a) && ThreadOk(a, step.t)
    requires !(TakeOldStep(step) || DialStep(step) || LandStep(step))
    ensures TargetListed(Apply(a, step), Target(a, step))
  {
    hide Give, HoldsOf, AfterFailure, Counted;
    if step.Create? {
      NoHoldsYet(a, step.s);
    }
  }

  // ----- descriptors

  /** The servers and threads but two are as they were. */
  ghost predicate Apart(a: State, b: State, s: Sid, t: Tid) {
    && (forall u :: u != t ==> PhaseOf(b, u) == PhaseOf(a, u))
    && (forall x :: x != s ==> (x in b.servers <==> x in a.servers))
    && (forall x :: x != s && x in a.servers ==> b.servers[x] == a.servers[x])
  }

  function FdOf(a: State, s: Sid): int {
    if s in a.servers then a.servers[s].fd else -1
  }

  /** What a step does to the descriptors of its server and its thread. */
  ghost predicate Quiet(a: State, b: State, s: Sid, t: Tid) {
    FdOf(b, s) == FdOf(a, s) && PhaseOf(b, t).Held() == PhaseOf(a, t).Held() && b.open == a.open
  }

  ghost predicate ToThread(a: State, b: State, s: Sid, t: Tid) {
    && PhaseOf(a, t).Held() == -1 && FdOf(b, s) == -1 && PhaseOf(b, t).Held() == FdOf(a, s)
    && b.open == Give(a.open, FdOf(a, s), OfThread(t))
  }

  ghost predicate ToServer(a: State, b: State, s: Sid, t: Tid) {
    && FdOf(a, s) == -1 && PhaseOf(b, t).Held() == -1 && FdOf(b, s) == PhaseOf(a, t).Held()
    && s in b.servers && b.open == Give(a.open, PhaseOf(a, t).Held(), OfServer(s))
  }

  ghost predicate Opens(a: State, b: State, s: Sid, t: Tid) {
    && PhaseOf(a, t).Held() == -1 && FdOf(b, s) == FdOf(a, s) && PhaseOf(b, t).Held() >= 0
    && PhaseOf(b, t).Held() !in a.open && b.open == a.open[PhaseOf(b, t).Held() := OfThread(t)]
  }

  ghost predicate Closes(a: State, b: State, s: Sid, t: Tid) {
    && PhaseOf(b, t).Held() == -1 && FdOf(b, s) == FdOf(a, s) && b.open == a.open - {PhaseOf(a, t).Held()}
  }

  lemma HandedToThread(a: State, b: State, s: Sid, t: Tid)
    requires Owned(a) && Apart(a, b, s, t) && ToThread(a, b, s, t) && FdOf(a, s) >= -1
    ensures Owned(b)
  {
    hide PhaseOf;
  }

  lemma HandedToServer(a: State, b: State, s: Sid, t: Tid)
    requires Owned(a) && Apart(a, b, s, t) && ToServer(a, b, s, t) && PhaseOf(a, t).Held() >= -1
    ensures Owned(b)
  {
    hide PhaseOf;
  }

  lemma OpenedOrClosed(a: State, b: State, s: Sid, t: Tid)
    requires Owned(a) && Apart(a, b, s, t) && (Quiet(a, b, s, t) || Opens(a, b, s, t) || Closes(a, b, s, t))
    ensures Owned(b)
  {
    hide PhaseOf;
  }

  lemma Moves(a: State, step: Step)
    requires Enabled(a, step) && ListOk(a) && ThreadOk(a, step.t)
    requires Target(a, step) in a.servers ==> ServerOk(a, Target(a, step))
    requires TakeOldStep(step) || step.Publish? || step.TakeDescriptor?
    ensures var b, s := Apply(a, step), Target(a, step);
      ToThread(a, b, s, step.t) || ToServer(a, b, s, step.t) || Quiet(a, b, s, step.t)
  {
    hide Has, Without, Give;
  }

  lemma OpensOrCloses(a: State, step: Step)
    requires Enabled(a, step) && !(TakeOldStep(step) || step.Publish? || step.TakeDescriptor?)
    ensures var b, s := Apply(a, step), Target(a, step);
      Quiet(a, b, s, step.t) || Opens(a, b, s, step.t) || Closes(a, b, s, step.t)
  {
    hide Has, Without, Give;
  }

  lemma OwnedKept(a: State, step: Step)
    requires Enabled(a, step) && ListOk(a) && ThreadOk(a, step.t) && Owned(a)
    requires Target(a, step) in a.servers ==> ServerOk(a, Target(a, step))
    ensures Owned(Apply(a, step))
  {
    hide Apply, Enabled, Target, ListOk, Owned, PhaseOf, Quiet, ToThread, ToServer, Opens, Closes;
    var b, s := Apply(a, step), Target(a, step);
    Frame(a, step);
    if TakeOldStep(step) || step.Publish? || step.TakeDescriptor? {
      Moves(a, step);
    } else {
      OpensOrCloses(a, step);
    }
    if ToThread(a, b, s, step.t) {
      HandedToThread(a, b, s, step.t);
    } else if ToServer(a, b, s, step.t) {
      HandedToServer(a, b, s, step.t);
    } else {
      OpenedOrClosed(a, b, s, step.t);
    }
  }

  // ----- every run

  /** Every step keeps the invariant. */
  lemma InvKept(a: State, step: Step)
    requires Inv(a) && Enabled(a, step)
    ensures Inv(Apply(a, step))
  {
    hide Apply, Enabled, Target, Counted, ListOk, Owned, ThreadOk, ServerOk, PhaseOf;
    InvParts(a, step);
    OwnedKept(a, step);
    var b := Apply(a, step);
    forall u ensures ThreadOk(b, u) {
      EveryThreadKept(a, step, u);
    }
    forall x | x in b.servers ensures ServerOk(b, x) {
      EveryServerKept(a, step, x);
    }
  }

  lemma InvParts(a: State, step: Step)
    requires Inv(a) && Enabled(a, step)
    ensures Counted(Apply(a, step)) && ListOk(Apply(a, step))
  {
    hide Apply, Target, Counted, Owned, ServerOk;
    assert ThreadOk(a, step.t);
    CountedKept(a, step);
    OtherListKept(a, step);
    TargetListKept(a, step);
  }

  lemma EveryServerKept(a: State, step: Step, x: Sid)
    requires Inv(a) && Enabled(a, step) && x in Apply(a, step).servers
    ensures ServerOk(Apply(a, step), x)
  {
    hide Apply, Enabled, Target, Counted, ListOk, Owned, ThreadOk, ServerOk, PhaseOf;
    if x == Target(a, step) {
      TargetServerKept(a, step);
    } else {
      Frame(a, step);
      OtherServerKept(a, step, x);
    }
  }

  lemma EveryThreadKept(a: State, step: Step, u: Tid)
    requires Inv(a) && Enabled(a, step)
    ensures ThreadOk(Apply(a, step), u)
  {
    hide Apply, Enabled, Target, Counted, Owned, ThreadOk, ServerOk, StepGentle, Unpublished;
    if u == step.t {
      StepperKept(a, step);
    } else {
      GentleStep(a, step);
      if PhaseOf(a, u).Connector() && PhaseOf(a, u).s == Target(a, step) {
        ConnectorKept(a, step, u);
      }
      OtherThreadKept(a, step, u);
    }
  }

  lemma GentleStep(a: State, step: Step)
    requires Inv(a) && Enabled(a, step)
    ensures StepGentle(a, step)
  {
    hide Apply, Counted, Owned, Gentle;
    if Target(a, step) in a.servers {
      var v := a.servers[Target(a, step)];
      assert v.remover.Some? ==> ThreadOk(a, v.remover.value);
      assert ThreadOk(a, step.t) && ServerOk(a, Target(a, step));
      TargetGentle(a, step);
    }
  }
}
