/** The picker's loop over discovery events: drain_events of cmdline/discover.c on top of afpc_discovery_next, and
    what the picker shows once nothing is left to drain. */
module Draining {
  import opened Bytes
  import opened Discovery
  import opened Picker

  /** One turn of a browsing backend: the reports it makes, and a negative value when it fails. */
  datatype Turn = Turn(reports: seq<Report>, outcome: int)

  const EIO_NUMBER := 5

  class Backend {
    var turns: seq<Turn>

    constructor (turns: seq<Turn>)
      ensures this.turns == turns
    {
      this.turns := turns;
    }

    /** The iterate operation. A backend with no turn left reports nothing. */
    method Iterate(d: Table) returns (outcome: int)
      requires d.Valid()
      modifies this, d
      ensures d.Valid() && d.taken == old(d.taken)
      ensures old(d.announced) <= d.announced && old(d.reports) <= d.reports
      ensures old(turns) == [] ==> outcome == 0 && turns == [] && d.events == old(d.events)
      ensures old(turns) == [] ==> d.entries == old(d.entries) && d.announced == old(d.announced)
      ensures old(turns) == [] ==> d.reports == old(d.reports)
      ensures old(turns) != [] ==> turns == old(turns)[1..]
    {
      if turns == [] {
        return 0;
      }
      var turn := turns[0];
      turns := turns[1..];
      for i := 0 to |turn.reports|
        invariant d.Valid() && d.taken == old(d.taken) && turns == old(turns)[1..]
        invariant old(d.announced) <= d.announced && old(d.reports) <= d.reports
      {
        var _ := d.Emit(turn.reports[i]);
      }
      return turn.outcome;
    }
  }

  /** afpc_discovery_next with no time to wait. */
  method Next(d: Table, b: Backend) returns (outcome: int, e: Option<Event>)
    requires d.Valid()
    modifies d, b
    ensures d.Valid() && old(d.announced) <= d.announced && old(d.reports) <= d.reports
    ensures outcome > 0 ==> e.Some? && d.taken == old(d.taken) + 1 && e.value == Queued(d.announced[old(d.taken)])
    ensures outcome <= 0 ==> d.taken == old(d.taken)
    ensures outcome == 0 ==> d.events == []
    ensures outcome > 0 ==> |b.turns| < |old(b.turns)| || (b.turns == old(b.turns) && |d.events| < |old(d.events)|)
    ensures old(b.turns) == [] ==> d.announced == old(d.announced) && d.reports == old(d.reports)
    ensures old(b.turns) == [] ==> d.entries == old(d.entries) && b.turns == [] && outcome >= 0
  {
    hide Kept, Agree, Alternates, Announces, Named, Stream, Cleaned, Sanitised;
    e := d.PopEvent();
    if e.Some? {
      return 1, e;
    }
    outcome := b.Iterate(d);
    if outcome < 0 {
      return;
    }
    e := d.PopEvent();
    outcome := if e.Some? then 1 else 0;
  }

  /** The AFP events of a stream, the ones the picker is given. */
  ghost function AfpEvents(events: seq<Event>): seq<Event> {
    if events == [] then [] else
      var n := |events| - 1;
      AfpEvents(events[..n]) + if events[n].kind != ERROR && IsAfp(events[n].service.kind) then [events[n]] else []
  }

  lemma AfpEventsSnoc(events: seq<Event>, e: Event)
    ensures AfpEvents(events + [e])
      == AfpEvents(events) + if e.kind != ERROR && IsAfp(e.service.kind) then [e] else []
  {
    assert (events + [e])[..|events|] == events;
  }

  lemma {:induction false} AfpEventsShow(events: seq<Event>, v: Service)
    requires IsAfp(v.kind)
    ensures Shown(AfpEvents(events), v) <==> Shown(events, v)
  {
    hide IsAfp;
    if events != [] {
      var n := |events| - 1;
      AfpEventsShow(events[..n], v);
      assert events == events[..n] + [events[n]];
      AfpEventsSnoc(events[..n], events[n]);
      ShownSnoc(events[..n], events[n], v);
      ShownSnoc(AfpEvents(events[..n]), events[n], v);
      assert AfpEvents(events[..n]) + [] == AfpEvents(events[..n]);
    }
  }

  lemma {:induction false} AfpEventsOnly(events: seq<Event>, v: Service)
    ensures Shown(AfpEvents(events), v) ==> IsAfp(v.kind)
  {
    hide IsAfp;
    if events != [] {
      var n := |events| - 1;
      AfpEventsOnly(events[..n], v);
      assert events == events[..n] + [events[n]];
      AfpEventsSnoc(events[..n], events[n]);
      ShownSnoc(AfpEvents(events[..n]), events[n], v);
      assert AfpEvents(events[..n]) + [] == AfpEvents(events[..n]);
    }
  }

  /** The picker shows no service of another type, drained or not. */
  lemma OnlyAfp(d: Table, p: PickerState, v: Service)
    requires p.Valid() && InStep(d, p)
    ensures Active(p.groups, v) ==> IsAfp(v.kind)
  {
    hide IsAfp, Active, GroupsOk, AllQueued, Shown, AfpEvents;
    AfpEventsOnly(AllQueued(d.announced[..d.taken]), v);
  }

  /** The picker has been given the AFP events of those taken from the queue. */
  ghost predicate InStep(d: Table, p: PickerState)
    reads d, p
  {
    d.taken <= |d.announced| && p.seen == AfpEvents(AllQueued(d.announced[..d.taken]))
  }

  lemma TakeOne(announced: seq<Event>, n: nat)
    requires n < |announced|
    ensures AllQueued(announced[..n + 1]) == AllQueued(announced[..n]) + [Queued(announced[n])]
  {
  }

  /** drain_events: a negative outcome is an error, and changed asks for the list to be drawn again. */
  method Drain(d: Table, p: PickerState, b: Backend) returns (outcome: int, changed: bool)
    requires d.Valid() && p.Valid() && InStep(d, p)
    modifies d, p, b
    ensures d.Valid() && p.Valid() && InStep(d, p)
    ensures outcome <= 0 && (outcome == 0 ==> d.events == [])
    ensures Stays(old(p.groups), p.groups) && old(d.reports) <= d.reports
    ensures !changed ==> forall v :: Active(p.groups, v) <==> old(Active(p.groups, v))
    ensures old(b.turns) == [] ==> d.announced == old(d.announced) && d.reports == old(d.reports)
    ensures old(b.turns) == [] ==> d.entries == old(d.entries)
    ensures old(b.turns) == [] && outcome < 0 ==>
      exists i :: old(d.taken) <= i < |d.announced| && d.announced[i].kind == ERROR
  {
    hide Kept, Agree, Alternates, Announces, Named, Stream, GroupsOk, Follows, AfpEvents, IsAfp, Active, Stays, Sets;
    changed := false;
    StayStill(p.groups, NO_SERVICE);
    while true
      invariant d.Valid() && p.Valid() && InStep(d, p) && old(d.taken) <= d.taken
      invariant Stays(old(p.groups), p.groups) && old(d.reports) <= d.reports
      invariant !changed ==> forall v :: Active(p.groups, v) <==> old(Active(p.groups, v))
      invariant old(b.turns) == [] ==> d.announced == old(d.announced) && d.reports == old(d.reports)
      invariant old(b.turns) == [] ==> d.entries == old(d.entries) && b.turns == []
      decreases |b.turns|, |d.events|
    {
      ghost var at, announced := d.taken, d.announced;
      var got, event := Next(d, b);
      assert d.announced[..at] == announced[..at];
      if got <= 0 {
        return got, changed;
      }
      var e := event.value;
      TakeOne(d.announced, at);
      AfpEventsSnoc(AllQueued(d.announced[..at]), e);
      if e.kind == ERROR {
        return if e.error == 0 then -EIO_NUMBER else if e.error > 0 then -e.error else e.error, changed;
      }
      if IsAfp(e.service.kind) {
        ghost var groups := p.groups;
        var redraw := p.Update(e);
        SetsNothing(groups, p.groups, e.service, e.kind != REMOVE);
        StaysOn(old(p.groups), groups, p.groups);
        changed := changed || redraw;
      }
    }
    assert false;
  }

  lemma StaysOn(a: seq<Group>, b: seq<Group>, c: seq<Group>)
    requires Stays(a, b) && Stays(b, c)
    ensures Stays(a, c)
  {
  }

  // ---- what the picker shows

  /** No report about an AFP service has a type that ends in two dots. */
  ghost predicate Plain(reports: seq<Report>) {
    forall i :: 0 <= i < |reports| && reports[i].kind != ERROR && IsAfp(Cleaned(Cleaned(reports[i].service)).kind) ==>
      !TwoDots(reports[i].service.kind)
  }

  /** The picker's active members are the table's AFP entries. */
  ghost predicate Agrees(groups: seq<Group>, entries: seq<Entry>) {
    forall v: Service :: IsAfp(v.kind) ==> (Active(groups, v) <==> Has(entries, v))
  }

  /** The service that is queued under another's name: the same with a dot after its type. */
  function Twin(v: Service): Service {
    v.(kind := v.kind + ".")
  }

  predicate About(e: Event, v: Service) {
    e.kind != ERROR && (e.service == v || e.service == Twin(v))
  }

  /** The last event about a service or its twin. */
  ghost function LastAbout(events: seq<Event>, v: Service): Option<Event> {
    if events == [] then None else
      var n := |events| - 1;
      if About(events[n], v) then Some(events[n]) else LastAbout(events[..n], v)
  }

  /** The last event about an AFP service or its twin is about the twin, and says of the service what the reports do
      not. */
  ghost predicate Misheard(reports: seq<Report>, v: Service) {
    var e := LastAbout(Stream(reports), v);
    e.Some? && e.value.service == Twin(v) && (e.value.kind == REMOVE <==> Live(reports, v))
  }

  /** The services of the events are as the table names them. */
  ghost predicate AllPrintable(events: seq<Event>) {
    forall i :: 0 <= i < |events| && events[i].kind != ERROR ==> Printable(events[i].service)
  }

  lemma NamedPrintable(announced: seq<Event>, reports: seq<Report>)
    requires Named(announced, reports)
    ensures AllPrintable(announced)
  {
    hide Cleaned, Printable;
    forall i | 0 <= i < |announced| && announced[i].kind != ERROR ensures Printable(announced[i].service) {
      var j :| 0 <= j < |reports| && Names(reports[j], announced[i].service);
      CopiedTwice(reports[j].service);
    }
  }

  /** An AFP name is what the queue makes of itself and of its twin. */
  lemma QueuedAs(e: Event, v: Service)
    requires IsAfp(v.kind) && e.kind != ERROR && Printable(e.service)
    ensures Queued(e).service == v <==> About(e, v)
  {
    AfpUndotted(v);
    hide IsAfp, Sanitised;
    var s := e.service;
    assert Cleaned(s) == s.(kind := Undotted(s.kind));
    if s == Twin(v) {
      assert Undotted(s.kind) == v.kind;
    }
    if Undotted(s.kind) == v.kind && s.kind != v.kind {
      assert s.kind == s.kind[..|s.kind| - 1] + ".";
    }
  }

  lemma AfpUndotted(v: Service)
    requires IsAfp(v.kind)
    ensures |v.kind| == 16 && v.kind[15] != '.'
  {
    assert AFP[15] == 'p' && Lower('.') == '.';
  }

  lemma {:induction false} QueuedShows(announced: seq<Event>, v: Service)
    requires IsAfp(v.kind) && AllPrintable(announced)
    ensures var e := LastAbout(announced, v);
      Shown(AllQueued(announced), v) <==> e.Some? && e.value.kind != REMOVE
  {
    hide IsAfp, Printable, Queued, About, AllQueued;
    if announced == [] {
      NothingShown(v);
    } else {
      var n := |announced| - 1;
      assert announced == announced[..n] + [announced[n]];
      QueuedShows(announced[..n], v);
      QueuedSnoc(announced[..n], announced[n]);
      ShownSnoc(AllQueued(announced[..n]), Queued(announced[n]), v);
      QueuedKind(announced[n], v);
      if announced[n].kind != ERROR {
        QueuedAs(announced[n], v);
      }
    }
  }

  lemma NothingShown(v: Service)
    ensures AllQueued([]) == [] && !Shown([], v)
  {
  }

  lemma QueuedSnoc(events: seq<Event>, e: Event)
    ensures AllQueued(events + [e]) == AllQueued(events) + [Queued(e)]
  {
  }

  lemma QueuedKind(e: Event, v: Service)
    ensures Queued(e).kind == e.kind && (e.kind == ERROR ==> !About(e, v))
  {
  }

  /** What the table's names show of a service, by the last event about it or its twin. */
  lemma {:induction false} TableShows(announced: seq<Event>, v: Service)
    ensures var e := LastAbout(announced, v);
      && (e.None? ==> !Shown(announced, v))
      && (e.Some? ==> e.value.service == v || e.value.service == Twin(v))
      && (e.Some? && e.value.service == v ==> (Shown(announced, v) <==> e.value.kind != REMOVE))
  {
    if announced != [] {
      TableShows(announced[..|announced| - 1], v);
    }
  }

  /** Once the queue is drained, what the picker shows of AFP services is what the queued events announce. */
  lemma DrainedShows(d: Table, p: PickerState, v: Service)
    requires d.Valid() && p.Valid() && InStep(d, p) && d.events == [] && IsAfp(v.kind)
    ensures Active(p.groups, v) <==> Shown(AllQueued(d.announced), v)
  {
    hide IsAfp, Active, Shown, GroupsOk, Kept, Agree, Alternates, Announces, Named, Stream;
    assert d.announced[..d.taken] == d.announced;
    AfpEventsShow(AllQueued(d.announced), v);
  }

  /** The picker and the table agree on one AFP service exactly when it is not misheard. */
  lemma AgreesAt(d: Table, p: PickerState, v: Service)
    requires d.Valid() && p.Valid() && InStep(d, p) && d.events == [] && IsAfp(v.kind)
    ensures (Active(p.groups, v) <==> Has(d.entries, v)) <==> !Misheard(d.reports, v)
  {
    DrainedShows(d, p, v);
    NamedPrintable(d.announced, d.reports);
    QueuedShows(d.announced, v);
    TableShows(d.announced, v);
    HasLive(d.entries, d.reports, v);
    hide IsAfp, Active, Shown, GroupsOk, Kept, Agree, Alternates, Named, Stream, Has, Live, LastAbout, Follows, AllQueued;
    assert Shown(d.announced, v) <==> Has(d.entries, v);
    TwinsDiffer(v);
  }

  lemma TwinsDiffer(v: Service)
    ensures Twin(v) != v
  {
    assert |v.kind + "."| != |v.kind|;
  }

  /** After any drained history, the picker's active members are the AFP entries of the table if and only if no AFP
      service is misheard. */
  lemma DrainedExactly(d: Table, p: PickerState)
    requires d.Valid() && p.Valid() && InStep(d, p) && d.events == []
    ensures Agrees(p.groups, d.entries) <==> forall v: Service :: IsAfp(v.kind) ==> !Misheard(d.reports, v)
  {
    hide IsAfp, Active, GroupsOk, Kept, Agree, Alternates, Announces, Named, Stream, Has, Misheard, Follows, AllQueued;
    forall v: Service | IsAfp(v.kind)
      ensures (Active(p.groups, v) <==> Has(d.entries, v)) <==> !Misheard(d.reports, v)
    {
      AgreesAt(d, p, v);
    }
  }

  // ---- histories without a twin

  /** Each AFP service's events alternate between ADD and REMOVE, with UPDATE only between an ADD and a REMOVE. */
  ghost predicate AfpAlternates(events: seq<Event>) {
    forall i :: 0 <= i < |events| && events[i].kind != ERROR && IsAfp(events[i].service.kind) ==>
      (events[i].kind == ADD <==> !Shown(events[..i], events[i].service))
  }

  /** No event of a plain history is about a twin of an AFP service. */
  lemma NoTwins(announced: seq<Event>, reports: seq<Report>, v: Service)
    requires Named(announced, reports) && Plain(reports) && IsAfp(v.kind)
    ensures forall i :: 0 <= i < |announced| && announced[i].kind != ERROR ==> announced[i].service != Twin(v)
  {
    hide IsAfp, Cleaned, TwoDots;
    NamedPrintable(announced, reports);
    forall i | 0 <= i < |announced| && announced[i].kind != ERROR ensures announced[i].service != Twin(v) {
      var j :| 0 <= j < |reports| && Names(reports[j], announced[i].service);
      CopiedTwice(reports[j].service);
      QueuedAs(announced[i], v);
      TwinsDiffer(v);
    }
  }

  lemma {:induction false} NoTwinLast(events: seq<Event>, v: Service)
    requires forall i :: 0 <= i < |events| && events[i].kind != ERROR ==> events[i].service != Twin(v)
    ensures var e := LastAbout(events, v); e.Some? ==> e.value.service == v
  {
    if events != [] {
      NoTwinLast(events[..|events| - 1], v);
    }
  }

  /** After any drained history in which no report about an AFP service has a type that ends in two dots, the picker's
      active members are exactly the AFP entries of the table, and each AFP service's queued events alternate. */
  lemma DrainedAgrees(d: Table, p: PickerState)
    requires d.Valid() && p.Valid() && InStep(d, p) && d.events == [] && Plain(d.reports)
    ensures Agrees(p.groups, d.entries) && AfpAlternates(AllQueued(d.announced))
  {
    hide IsAfp, Active, GroupsOk, Kept, Agree, Announces, Named, Stream, Has, Live, Follows, LastAbout, Plain;
    forall v: Service | IsAfp(v.kind) ensures !Misheard(d.reports, v) {
      NoTwins(d.announced, d.reports, v);
      NoTwinLast(d.announced, v);
      TwinsDiffer(v);
    }
    DrainedExactly(d, p);
    PlainAlternates(d.announced, d.reports);
  }

  lemma PlainAlternates(announced: seq<Event>, reports: seq<Report>)
    requires Named(announced, reports) && Plain(reports) && Alternates(announced)
    ensures AfpAlternates(AllQueued(announced))
  {
    hide IsAfp, Named, Plain, Shown, LastAbout, Printable, Cleaned;
    var q := AllQueued(announced);
    NamedPrintable(announced, reports);
    forall i | 0 <= i < |q| && q[i].kind != ERROR && IsAfp(q[i].service.kind)
      ensures q[i].kind == ADD <==> !Shown(q[..i], q[i].service)
    {
      var v := q[i].service;
      NoTwins(announced, reports, v);
      QueuedAs(announced[i], v);
      assert q[..i] == AllQueued(announced[..i]);
      QueuedShows(announced[..i], v);
      TableShows(announced[..i], v);
      NoTwinLast(announced[..i], v);
    }
  }

  // ---- a history with one

  /** Any AFP type will do, advertised once with two dots. */
  lemma MisheardExample(kind: string)
    requires IsAfp(kind) && forall i :: 0 <= i < |kind| ==> !Control(kind[i])
    ensures Misheard([Report(ADD, Service("", kind + "..", "", 2), {1}, 0, "")], Service("", kind, "", 2))
  {
    var r, v := Report(ADD, Service("", kind + "..", "", 2), {1}, 0, ""), Service("", kind, "", 2);
    TwoDotted(kind);
    TwinsDiffer(v);
    hide IsAfp, Control, Cleaned, Fits;
    assert [r][..0] == [];
    assert Held([r], Twin(v), 1) && Live([r], Twin(v)) && !Live([], Twin(v));
    assert forall bit :: !Held([r], v, bit);
    assert Stream([]) == [] && Stream([r]) == [Event(ADD, Twin(v), 0, "")];
    assert LastAbout(Stream([r]), v) == Some(Event(ADD, Twin(v), 0, ""));
  }

  /** Such a report is emitted and drained, and the picker and the table disagree. */
  method MisheardDrains(kind: string) returns (d: Table, p: PickerState)
    requires IsAfp(kind) && forall i :: 0 <= i < |kind| ==> !Control(kind[i])
    ensures fresh(d) && fresh(p) && d.Valid() && p.Valid() && InStep(d, p) && d.events == []
    ensures !Agrees(p.groups, d.entries)
  {
    hide *;
    MisheardExample(kind);
    d, p := DrainOne(Report(ADD, Service("", kind + "..", "", 2), {1}, 0, ""));
    Disagree(d, p, Service("", kind, "", 2));
  }

  lemma Disagree(d: Table, p: PickerState, v: Service)
    requires d.Valid() && p.Valid() && InStep(d, p) && d.events == [] && IsAfp(v.kind) && Misheard(d.reports, v)
    ensures !Agrees(p.groups, d.entries)
  {
    hide *;
    DrainedExactly(d, p);
  }

  /** One report, from an empty table to an empty picker. */
  method DrainOne(r: Report) returns (d: Table, p: PickerState)
    requires r.kind == ADD
    ensures fresh(d) && fresh(p) && d.Valid() && p.Valid() && InStep(d, p) && d.events == [] && d.reports == [r]
  {
    hide IsAfp, Active, GroupsOk, Kept, Agree, Alternates, Announces, Named, Stream, Has, Follows, Fits, Cleaned;
    hide AllQueued, Stays, AfpEvents;
    d := new Table();
    p := new PickerState();
    NothingQueued();
    var _ := d.Emit(r);
    var b := new Backend([]);
    var outcome, _ := Drain(d, p, b);
  }

  lemma NothingQueued()
    ensures AfpEvents(AllQueued([])) == []
  {
  }

  lemma TwoDotted(kind: string)
    requires IsAfp(kind) && forall i :: 0 <= i < |kind| ==> !Control(kind[i])
    ensures var s := Service("", kind + "..", "", 2);
      Fits(s) && Cleaned(s) == Twin(Service("", kind, "", 2))
  {
    AfpUndotted(Service("", kind, "", 2));
    hide IsAfp;
    var once, raw := kind + ".", kind + "..";
    Dots();
    assert Sanitised(raw) == raw && raw[..|raw| - 1] == once;
  }

  lemma Dots()
    ensures !Control('.')
  {
  }
}
