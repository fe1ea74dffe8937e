/** The table of advertised services behind discovery/discovery.c: raw reports from a browsing backend, one per
    address family, become one stream of ADD, UPDATE and REMOVE events. */
module Discovery {
  import opened Bytes

  const INSTANCE_LEN := 64
  const TYPE_LEN := 64
  const DOMAIN_LEN := 256
  const ERROR_LEN := 256

  /** A service as advertised on one interface. Each character is one byte. */
  datatype Service = Service(instance: string, kind: string, domain: string, iface: nat)

  datatype Kind = ADD | UPDATE | REMOVE | ERROR

  /** What a backend reports. The sources are the positions of the bits set in the report's mask. */
  datatype Report = Report(kind: Kind, service: Service, sources: set<nat>, error: int, message: string)

  datatype Event = Event(kind: Kind, service: Service, error: int, message: string)

  /** The bit of AFPC_DISCOVERY_SOURCE_UNSPEC. */
  const UNSPEC := 0
  const NO_SERVICE := Service("", "", "", 0)

  datatype Entry = Entry(service: Service, sources: set<nat>)

  // ---- names from the network

  predicate Control(c: char) {
    c as int < 0x20 || c as int == 0x7f
  }

  function Sanitised(s: string): (t: string)
    ensures |t| == |s| && forall i :: 0 <= i < |t| ==> !Control(t[i])
    ensures (forall i :: 0 <= i < |s| ==> !Control(s[i])) ==> t == s
  {
    seq(|s|, i requires 0 <= i < |s| => if Control(s[i]) then '?' else s[i])
  }

  /** copy_network_text: the text with its control characters replaced, when it fits the destination. */
  method CopyNetworkText(size: nat, source: string) returns (r: Result<string>)
    requires size > 0
    ensures r == if |source| >= size then Err(ENAMETOOLONG) else Ok(Sanitised(source))
    ensures r.Ok? ==> |r.value| == |source|
    ensures r.Ok? ==> forall i :: 0 <= i < |source| ==> r.value[i] == if Control(source[i]) then '?' else source[i]
  {
    if |source| >= size {
      return Err(ENAMETOOLONG);
    }
    var destination := "";
    for i := 0 to |source|
      invariant destination == Sanitised(source)[..i]
    {
      destination := destination + [if Control(source[i]) then '?' else source[i]];
    }
    assert destination == Sanitised(source);
    return Ok(destination);
  }

  function Undotted(kind: string): string {
    if kind != "" && kind[|kind| - 1] == '.' then kind[..|kind| - 1] else kind
  }

  predicate Fits(s: Service) {
    |s.instance| < INSTANCE_LEN && |s.kind| < TYPE_LEN && |s.domain| < DOMAIN_LEN
  }

  /** The service under the name the table keeps it by. */
  function Cleaned(s: Service): Service {
    Service(Sanitised(s.instance), Undotted(Sanitised(s.kind)), Sanitised(s.domain), s.iface)
  }

  predicate Printable(s: Service) {
    Sanitised(s.instance) == s.instance && Sanitised(s.kind) == s.kind && Sanitised(s.domain) == s.domain
  }

  /** copy_service. */
  method CopyService(s: Service) returns (r: Result<Service>)
    ensures r == if Fits(s) then Ok(Cleaned(s)) else Err(ENAMETOOLONG)
  {
    var instance :- CopyNetworkText(INSTANCE_LEN, s.instance);
    var kind :- CopyNetworkText(TYPE_LEN, s.kind);
    if |kind| > 0 && kind[|kind| - 1] == '.' {
      kind := kind[..|kind| - 1];
    }
    var domain :- CopyNetworkText(DOMAIN_LEN, s.domain);
    return Ok(Service(instance, kind, domain, s.iface));
  }

  predicate TwoDots(kind: string) {
    |kind| >= 2 && kind[|kind| - 1] == '.' && kind[|kind| - 2] == '.'
  }

  /** A service is copied again on its way into the queue. The second copy is the first exactly when the advertised
      type did not end in two dots. */
  lemma CopiedTwice(s: Service)
    ensures Cleaned(Cleaned(s)) == Cleaned(s) <==> !TwoDots(s.kind)
    ensures Printable(Cleaned(s)) && (Fits(s) ==> Fits(Cleaned(s)))
  {
    var once := Undotted(Sanitised(s.kind));
    assert Sanitised(once) == once;
    assert |s.kind| >= 1 ==> (s.kind[|s.kind| - 1] == '.' <==> Sanitised(s.kind)[|s.kind| - 1] == '.');
    assert |s.kind| >= 2 ==> (s.kind[|s.kind| - 2] == '.' <==> Sanitised(s.kind)[|s.kind| - 2] == '.');
    assert Undotted(once) == once <==> !TwoDots(s.kind);
  }

  // ---- what a history of reports means

  function Sources(r: Report): set<nat> {
    if r.sources == {} then {UNSPEC} else r.sources
  }

  /** The report adds or removes this bit of this service. */
  predicate Touches(r: Report, key: Service, bit: nat) {
    (r.kind == ADD || r.kind == REMOVE) && Fits(r.service) && Cleaned(r.service) == key && bit in Sources(r)
  }

  /** The last report that touches the bit added it. */
  ghost predicate Held(reports: seq<Report>, key: Service, bit: nat) {
    var n := |reports| - 1;
    n >= 0 && if Touches(reports[n], key, bit) then reports[n].kind == ADD else Held(reports[..n], key, bit)
  }

  /** The last event about the service announces it. */
  ghost predicate Shown(events: seq<Event>, v: Service) {
    var n := |events| - 1;
    n >= 0 && if events[n].kind != ERROR && events[n].service == v then events[n].kind != REMOVE
              else Shown(events[..n], v)
  }

  /** Each service's events alternate between ADD and REMOVE, with UPDATE only between an ADD and a REMOVE. */
  ghost predicate Alternates(events: seq<Event>) {
    forall i :: 0 <= i < |events| && events[i].kind != ERROR ==>
      (events[i].kind == ADD <==> !Shown(events[..i], events[i].service))
  }

  lemma ShownSnoc(events: seq<Event>, e: Event, v: Service)
    ensures Shown(events + [e], v)
      == if e.kind != ERROR && e.service == v then e.kind != REMOVE else Shown(events, v)
  {
    assert (events + [e])[..|events|] == events;
  }

  lemma HeldSnoc(reports: seq<Report>, r: Report, key: Service, bit: nat)
    ensures Held(reports + [r], key, bit) == if Touches(r, key, bit) then r.kind == ADD else Held(reports, key, bit)
  {
    assert (reports + [r])[..|reports|] == reports;
  }

  /** An ADD gives a service its bits, a REMOVE takes its own and no others, and nothing else changes any. */
  lemma HeldMeans(reports: seq<Report>, r: Report, key: Service, bit: nat)
    ensures r.kind == ADD && Fits(r.service) && Cleaned(r.service) == key && bit in r.sources ==>
      Held(reports + [r], key, bit)
    ensures r.kind == REMOVE && Fits(r.service) && Cleaned(r.service) == key && bit in r.sources ==>
      !Held(reports + [r], key, bit)
    ensures r.kind in {UPDATE, ERROR} || !Fits(r.service) || Cleaned(r.service) != key
            || (r.sources != {} && bit !in r.sources) || (r.sources == {} && bit != 0) ==>
      (Held(reports + [r], key, bit) <==> Held(reports, key, bit))
  {
    hide Held, Cleaned, Fits;
    HeldSnoc(reports, r, key, bit);
  }

  lemma AlternatesSnoc(events: seq<Event>, e: Event)
    requires Alternates(events) && (e.kind != ERROR ==> (e.kind == ADD <==> !Shown(events, e.service)))
    ensures Alternates(events + [e])
  {
    var all := events + [e];
    forall i | 0 <= i < |all| && all[i].kind != ERROR
      ensures all[i].kind == ADD <==> !Shown(all[..i], all[i].service)
    {
      assert i < |events| ==> all[..i] == events[..i];
      assert i == |events| ==> all[..i] == events;
    }
  }

  // ---- the table

  ghost predicate Has(entries: seq<Entry>, key: Service) {
    exists i :: 0 <= i < |entries| && entries[i].service == key
  }

  ghost predicate Distinct(entries: seq<Entry>) {
    forall i, j :: 0 <= i < j < |entries| ==> entries[i].service != entries[j].service
  }

  /** The table holds a bit of a service exactly when the history of reports does. */
  ghost predicate Agree(entries: seq<Entry>, reports: seq<Report>) {
    && (forall i, bit :: 0 <= i < |entries| ==>
          (bit in entries[i].sources <==> Held(reports, entries[i].service, bit)))
    && (forall key, bit :: Held(reports, key, bit) ==> Has(entries, key))
  }

  ghost predicate Announces(entries: seq<Entry>, events: seq<Event>) {
    forall key :: Shown(events, key) <==> Has(entries, key)
  }

  ghost predicate Kept(entries: seq<Entry>) {
    && Distinct(entries)
    && forall i :: 0 <= i < |entries| ==>
         entries[i].sources != {} && Fits(entries[i].service) && Printable(entries[i].service)
  }

  /** The services of the table after a report about one of them. */
  ghost predicate Changes(before: seq<Entry>, after: seq<Entry>, key: Service, present: bool) {
    forall k :: Has(after, k) <==> if k == key then present else Has(before, k)
  }

  lemma ChangesAt(before: seq<Entry>, after: seq<Entry>, key: Service, present: bool)
    requires Changes(before, after, key, present)
    ensures Has(after, key) == present
  {
  }

  lemma Unchanged(entries: seq<Entry>, key: Service)
    ensures Changes(entries, entries, key, Has(entries, key))
  {
  }

  /** An event as it is queued: its service copied once more. */
  function Queued(e: Event): Event {
    if e.kind == ERROR then e else e.(service := Cleaned(e.service))
  }

  function AllQueued(events: seq<Event>): (q: seq<Event>)
    ensures |q| == |events| && forall i :: 0 <= i < |q| ==> q[i] == Queued(events[i])
  {
    seq(|events|, i requires 0 <= i < |events| => Queued(events[i]))
  }

  /** Every event is about a service some report named. */
  ghost predicate Named(announced: seq<Event>, reports: seq<Report>) {
    forall i :: 0 <= i < |announced| && announced[i].kind != ERROR ==>
      exists j :: 0 <= j < |reports| && Names(reports[j], announced[i].service)
  }

  predicate Names(r: Report, key: Service) {
    r.kind != ERROR && Cleaned(r.service) == key
  }

  lemma NamedSnoc(announced: seq<Event>, reports: seq<Report>, r: Report, more: seq<Event>)
    requires Named(announced, reports)
    requires forall e :: e in more && e.kind != ERROR ==> Names(r, e.service)
    ensures Named(announced + more, reports + [r])
  {
    hide Names;
    var all, known := announced + more, reports + [r];
    forall i | 0 <= i < |all| && all[i].kind != ERROR
      ensures exists j :: 0 <= j < |known| && Names(known[j], all[i].service)
    {
      if i < |announced| {
        var j :| 0 <= j < |reports| && Names(reports[j], announced[i].service);
        assert Names(known[j], all[i].service);
      } else {
        assert all[i] in more && known[|reports|] == r;
      }
    }
  }

  /** What a report announces, given whether the table had its service before and has it after. */
  ghost function Announced(r: Report, before: bool, after: bool): seq<Event> {
    match r.kind
    case ERROR => if |r.message| < ERROR_LEN then [Event(ERROR, NO_SERVICE, r.error, Sanitised(r.message))] else []
    case ADD => if before then [] else [Event(ADD, Cleaned(r.service), 0, "")]
    case UPDATE => if before then [Event(UPDATE, Cleaned(r.service), 0, "")] else []
    case REMOVE => if before && !after then [Event(REMOVE, Cleaned(r.service), 0, "")] else []
  }

  /** Some source's last word on the service was to add it. */
  ghost predicate Live(reports: seq<Report>, key: Service) {
    exists bit :: Held(reports, key, bit)
  }

  /** The events a history of reports announces, under the table's names. */
  ghost function Stream(reports: seq<Report>): seq<Event> {
    if reports == [] then [] else
      var n := |reports| - 1;
      var r := reports[n];
      Stream(reports[..n])
      + if r.kind == ERROR || Fits(r.service) then
          Announced(r, Live(reports[..n], Cleaned(r.service)), Live(reports, Cleaned(r.service)))
        else []
  }

  lemma StreamSnoc(reports: seq<Report>, r: Report)
    ensures Stream(reports + [r]) == Stream(reports)
      + if r.kind == ERROR || Fits(r.service) then
          Announced(r, Live(reports, Cleaned(r.service)), Live(reports + [r], Cleaned(r.service)))
        else []
  {
    assert (reports + [r])[..|reports|] == reports;
  }

  lemma HasLive(entries: seq<Entry>, reports: seq<Report>, key: Service)
    requires Kept(entries) && Agree(entries, reports)
    ensures Has(entries, key) <==> Live(reports, key)
  {
    hide Held, Fits, Printable;
    if Has(entries, key) {
      var i :| 0 <= i < |entries| && entries[i].service == key;
      var bit :| bit in entries[i].sources;
      assert Held(reports, key, bit);
    }
  }

  lemma ReportAdds(entries: seq<Entry>, reports: seq<Report>, r: Report, i: nat)
    requires Kept(entries) && Agree(entries, reports) && r.kind == ADD && Fits(r.service)
    requires i < |entries| && entries[i].service == Cleaned(r.service)
    ensures var after := entries[i := Entry(entries[i].service, entries[i].sources + Sources(r))];
      Kept(after) && Agree(after, reports + [r]) && Changes(entries, after, Cleaned(r.service), true)
  {
    hide Held, Fits, Printable, Cleaned;
    var after := entries[i := Entry(entries[i].service, entries[i].sources + Sources(r))];
    SameKeys(entries, after);
    forall j, bit | 0 <= j < |after| ensures bit in after[j].sources <==> Held(reports + [r], after[j].service, bit) {
      HeldSnoc(reports, r, after[j].service, bit);
      assert after[j].service == entries[j].service;
    }
    forall key, bit | Held(reports + [r], key, bit) ensures Has(after, key) {
      HeldSnoc(reports, r, key, bit);
    }
  }

  lemma SameKeys(entries: seq<Entry>, after: seq<Entry>)
    requires |after| == |entries| && forall i :: 0 <= i < |entries| ==> after[i].service == entries[i].service
    ensures forall key :: Has(after, key) <==> Has(entries, key)
    ensures Distinct(entries) ==> Distinct(after)
  {
    forall key ensures Has(after, key) <==> Has(entries, key) {
      if Has(after, key) {
        var i :| 0 <= i < |after| && after[i].service == key;
        assert entries[i].service == key;
      }
      if Has(entries, key) {
        var i :| 0 <= i < |entries| && entries[i].service == key;
        assert after[i].service == key;
      }
    }
    if Distinct(entries) {
      forall i, j | 0 <= i < j < |after| ensures after[i].service != after[j].service {
        assert entries[i].service != entries[j].service;
      }
    }
  }

  lemma ReportAppears(entries: seq<Entry>, reports: seq<Report>, r: Report)
    requires Kept(entries) && Agree(entries, reports) && r.kind == ADD && Fits(r.service)
    requires !Has(entries, Cleaned(r.service))
    ensures var after := entries + [Entry(Cleaned(r.service), Sources(r))];
      Kept(after) && Agree(after, reports + [r])
      && Changes(entries, after, Cleaned(r.service), true)
  {
    CopiedTwice(r.service);
    hide Held, Fits, Printable, Cleaned;
    var added := Entry(Cleaned(r.service), Sources(r));
    var after := entries + [added];
    forall key ensures Has(after, key) <==> key == added.service || Has(entries, key) {
      HasConcat(entries, [added], key);
      assert [added][0] == added;
    }
    forall j, bit | 0 <= j < |after| ensures bit in after[j].sources <==> Held(reports + [r], after[j].service, bit) {
      HeldSnoc(reports, r, after[j].service, bit);
    }
    forall key, bit | Held(reports + [r], key, bit) ensures Has(after, key) {
      HeldSnoc(reports, r, key, bit);
    }
  }

  lemma HasConcat(left: seq<Entry>, right: seq<Entry>, key: Service)
    ensures Has(left + right, key) <==> Has(left, key) || Has(right, key)
  {
    var all := left + right;
    if Has(all, key) {
      var i :| 0 <= i < |all| && all[i].service == key;
      assert i < |left| ==> left[i].service == key;
      assert i >= |left| ==> right[i - |left|].service == key;
    }
    if Has(left, key) {
      var i :| 0 <= i < |left| && left[i].service == key;
      assert all[i].service == key;
    }
    if Has(right, key) {
      var i :| 0 <= i < |right| && right[i].service == key;
      assert all[|left| + i].service == key;
    }
  }

  lemma ReportRemoves(entries: seq<Entry>, reports: seq<Report>, r: Report, i: nat)
    requires Kept(entries) && Agree(entries, reports) && r.kind == REMOVE && Fits(r.service)
    requires i < |entries| && entries[i].service == Cleaned(r.service) && entries[i].sources - Sources(r) != {}
    ensures var after := entries[i := Entry(entries[i].service, entries[i].sources - Sources(r))];
      Kept(after) && Agree(after, reports + [r]) && Changes(entries, after, Cleaned(r.service), true)
  {
    hide Held, Fits, Printable, Cleaned;
    var after := entries[i := Entry(entries[i].service, entries[i].sources - Sources(r))];
    SameKeys(entries, after);
    forall j, bit | 0 <= j < |after| ensures bit in after[j].sources <==> Held(reports + [r], after[j].service, bit) {
      HeldSnoc(reports, r, after[j].service, bit);
      assert after[j].service == entries[j].service;
    }
    forall key, bit | Held(reports + [r], key, bit) ensures Has(after, key) {
      HeldSnoc(reports, r, key, bit);
    }
  }

  lemma ReportVanishes(entries: seq<Entry>, reports: seq<Report>, r: Report, i: nat)
    requires Kept(entries) && Agree(entries, reports) && r.kind == REMOVE && Fits(r.service)
    requires i < |entries| && entries[i].service == Cleaned(r.service) && entries[i].sources - Sources(r) == {}
    ensures var after := entries[..i] + entries[i + 1..];
      Kept(after) && Agree(after, reports + [r])
      && Changes(entries, after, Cleaned(r.service), false)
  {
    hide Held, Fits, Printable, Cleaned;
    var after, gone := entries[..i] + entries[i + 1..], entries[i].service;
    var left := entries[i].sources - Sources(r);
    forall key ensures Has(after, key) <==> key != gone && Has(entries, key) {
      HasConcat(entries[..i], entries[i + 1..], key);
      HasConcat(entries[..i], entries[i..], key);
      HasConcat([entries[i]], entries[i + 1..], key);
      assert entries[..i] + entries[i..] == entries && [entries[i]] + entries[i + 1..] == entries[i..];
      assert [entries[i]][0].service == gone;
    }
    forall j, bit | 0 <= j < |after| ensures bit in after[j].sources <==> Held(reports + [r], after[j].service, bit) {
      HeldSnoc(reports, r, after[j].service, bit);
      assert after[j] == entries[if j < i then j else j + 1];
    }
    forall key, bit | Held(reports + [r], key, bit) ensures Has(after, key) {
      HeldSnoc(reports, r, key, bit);
      assert bit !in left;
    }
  }

  lemma ReportIgnored(entries: seq<Entry>, reports: seq<Report>, r: Report)
    requires Agree(entries, reports)
    requires r.kind == ADD ==> !Fits(r.service)
    requires r.kind == REMOVE && Fits(r.service) ==> !Has(entries, Cleaned(r.service))
    ensures Agree(entries, reports + [r])
  {
    hide Held, Fits, Cleaned;
    forall j, bit | 0 <= j < |entries| ensures bit in entries[j].sources <==> Held(reports + [r], entries[j].service, bit) {
      HeldSnoc(reports, r, entries[j].service, bit);
      assert Has(entries, entries[j].service);
    }
    forall key, bit | Held(reports + [r], key, bit) ensures Has(entries, key) {
      HeldSnoc(reports, r, key, bit);
    }
  }

  /** Announcing a change of the table, and an update of a service in it, keep the stream in step with the table. */
  lemma AnnounceKeeps(before: seq<Entry>, after: seq<Entry>, events: seq<Event>, e: Event)
    requires Alternates(events) && Announces(before, events) && e.kind != ERROR
    requires e.kind == ADD <==> !Has(before, e.service)
    requires Changes(before, after, e.service, e.kind != REMOVE)
    ensures Alternates(events + [e]) && Announces(after, events + [e])
  {
    hide Shown, Has;
    AlternatesSnoc(events, e);
    forall key ensures Shown(events + [e], key) <==> Has(after, key) {
      ShownSnoc(events, e, key);
    }
  }

  lemma SameShown(before: seq<Entry>, after: seq<Entry>, events: seq<Event>, key: Service)
    requires Announces(before, events) && Changes(before, after, key, true) && Has(before, key)
    ensures Announces(after, events)
  {
  }

  lemma AnnounceError(entries: seq<Entry>, events: seq<Event>, e: Event)
    requires Alternates(events) && Announces(entries, events) && e.kind == ERROR
    ensures Alternates(events + [e]) && Announces(entries, events + [e])
  {
    hide Shown, Has;
    AlternatesSnoc(events, e);
    forall key ensures Shown(events + [e], key) <==> Has(entries, key) {
      ShownSnoc(events, e, key);
    }
  }

  lemma QueueGrows(announced: seq<Event>, taken: nat, e: Event)
    requires taken <= |announced|
    ensures AllQueued(announced + [e])[taken..] == AllQueued(announced)[taken..] + [Queued(e)]
  {
    assert AllQueued(announced + [e]) == AllQueued(announced) + [Queued(e)];
  }

  class Table {
    var entries: seq<Entry>
    var events: seq<Event>
    /** Every report so far, every event announced so far under its table name, and how many were taken. */
    ghost var reports: seq<Report>
    ghost var announced: seq<Event>
    ghost var taken: nat

    ghost predicate Valid()
      reads this
    {
      Sound() && announced == Stream(reports)
    }

    ghost predicate Sound()
      reads this
    {
      && Kept(entries) && Agree(entries, reports)
      && Alternates(announced) && Announces(entries, announced)
      && Named(announced, reports)
      && taken <= |announced| && events == AllQueued(announced)[taken..]
    }

    constructor ()
      ensures Valid() && entries == [] && events == [] && reports == [] && announced == []
    {
      entries, events := [], [];
      reports, announced, taken := [], [], 0;
    }

    /** find_entry. */
    method FindEntry(key: Service) returns (r: Option<nat>)
      ensures r.None? <==> !Has(entries, key)
      ensures r.Some? ==> r.value < |entries| && entries[r.value].service == key
    {
      for i := 0 to |entries|
        invariant forall j :: 0 <= j < i ==> entries[j].service != key
      {
        if entries[i].service == key {
          return Some(i);
        }
      }
      return None;
    }

    /** queue_event, for an event that names a service. */
    method QueueEvent(kind: Kind, service: Service) returns (r: Option<Errno>)
      requires taken <= |announced| && events == AllQueued(announced)[taken..]
      requires kind != ERROR && Fits(service)
      modifies this`events, this`announced
      ensures r == None && announced == old(announced) + [Event(kind, service, 0, "")]
      ensures events == AllQueued(announced)[taken..]
    {
      var copied := CopyService(service);
      match copied
      case Err(error) => return Some(error);
      case Ok(copy) =>
        QueueGrows(announced, taken, Event(kind, service, 0, ""));
        events := events + [Event(kind, copy, 0, "")];
        announced := announced + [Event(kind, service, 0, "")];
        return None;
    }

    /** queue_event, for an error. */
    method QueueError(error: int, message: string) returns (r: Option<Errno>)
      requires Sound()
      modifies this`events, this`announced
      ensures Sound()
      ensures announced == old(announced)
        + if r.None? then [Event(ERROR, NO_SERVICE, error, Sanitised(message))] else []
      ensures r == if |message| < ERROR_LEN then None else Some(ENAMETOOLONG)
    {
      var copied := CopyNetworkText(ERROR_LEN, message);
      match copied
      case Err(e) => return Some(e);
      case Ok(copy) =>
        ghost var e := Event(ERROR, NO_SERVICE, error, copy);
        QueueGrows(announced, taken, e);
        AnnounceError(entries, announced, e);
        events := events + [Event(ERROR, NO_SERVICE, error, copy)];
        announced := announced + [e];
        return None;
    }

    /** The body of afpc_discovery_backend_emit. */
    method Process(r: Report) returns (outcome: Option<Errno>)
      requires Sound()
      modifies this
      ensures Sound() && reports == old(reports) + [r] && taken == old(taken)
      ensures announced == old(announced)
        + if r.kind == ERROR || Fits(r.service) then
            Announced(r, old(Has(entries, Cleaned(r.service))), Has(entries, Cleaned(r.service)))
          else []
      ensures r.kind == ADD && Fits(r.service) ==> Has(entries, Cleaned(r.service))
      ensures outcome == if r.kind == ERROR then (if |r.message| < ERROR_LEN then None else Some(ENAMETOOLONG))
                         else if !Fits(r.service) then Some(ENAMETOOLONG)
                         else if r.kind == UPDATE && !old(Has(entries, Cleaned(r.service))) then Some(ENOENT)
                         else None
    {
      hide Agree, Alternates, Announces, Kept, Named, Changes, Has, Cleaned, Sanitised, AllQueued, Queued, Fits, Printable;
      CopiedTwice(r.service);
      ghost var was := entries;
      NamedSnoc(announced, reports, r, []);
      assert announced + [] == announced;
      if r.kind != ERROR {
        NamedSnoc(announced, reports, r, [Event(r.kind, Cleaned(r.service), 0, "")]);
      }
      reports := reports + [r];
      if r.kind == ERROR {
        ReportIgnored(entries, old(reports), r);
        outcome := QueueError(r.error, r.message);
        return;
      }
      var copied := CopyService(r.service);
      if copied.Err? {
        ReportIgnored(entries, old(reports), r);
        return Some(copied.error);
      }
      var service, source := copied.value, if r.sources == {} then {UNSPEC} else r.sources;
      var index := FindEntry(service);
      if r.kind == ADD {
        if index.Some? {
          ReportAdds(entries, old(reports), r, index.value);
          entries := entries[index.value := Entry(entries[index.value].service, entries[index.value].sources + source)];
          SameShown(was, entries, announced, service);
          ChangesAt(was, entries, service, true);
          return None;
        }
        ReportAppears(entries, old(reports), r);
        AnnounceKeeps(was, entries + [Entry(service, source)], announced, Event(ADD, service, 0, ""));
        entries := entries + [Entry(service, source)];
        ChangesAt(was, entries, service, true);
        outcome := QueueEvent(ADD, service);
        return;
      }
      if r.kind == UPDATE {
        ReportIgnored(entries, old(reports), r);
        if index.None? {
          return Some(ENOENT);
        }
        Unchanged(was, service);
        AnnounceKeeps(was, was, announced, Event(UPDATE, service, 0, ""));
        outcome := QueueEvent(UPDATE, service);
        return;
      }
      if index.None? {
        ReportIgnored(entries, old(reports), r);
        return None;
      }
      var i := index.value;
      if entries[i].sources - source != {} {
        ReportRemoves(entries, old(reports), r, i);
        entries := entries[i := Entry(entries[i].service, entries[i].sources - source)];
        SameShown(was, entries, announced, service);
        ChangesAt(was, entries, service, true);
        return None;
      }
      ReportVanishes(entries, old(reports), r, i);
      AnnounceKeeps(was, entries[..i] + entries[i + 1..], announced, Event(REMOVE, service, 0, ""));
      outcome := QueueEvent(REMOVE, entries[i].service);
      if outcome.Some? {
        return;
      }
      entries := entries[..i] + entries[i + 1..];
      ChangesAt(was, entries, service, false);
    }

    /** afpc_discovery_backend_emit. */
    method Emit(r: Report) returns (outcome: Option<Errno>)
      requires Valid()
      modifies this
      ensures Valid() && reports == old(reports) + [r] && taken == old(taken)
      ensures announced == old(announced)
        + if r.kind == ERROR || Fits(r.service) then
            Announced(r, old(Has(entries, Cleaned(r.service))), Has(entries, Cleaned(r.service)))
          else []
      ensures r.kind == ADD && Fits(r.service) ==> Has(entries, Cleaned(r.service))
      ensures outcome == if r.kind == ERROR then (if |r.message| < ERROR_LEN then None else Some(ENAMETOOLONG))
                         else if !Fits(r.service) then Some(ENAMETOOLONG)
                         else if r.kind == UPDATE && !old(Has(entries, Cleaned(r.service))) then Some(ENOENT)
                         else None
    {
      hide Kept, Agree, Alternates, Announces, Named, Has, Live, Stream, Cleaned, Fits, AllQueued, Sanitised;
      HasLive(entries, reports, Cleaned(r.service));
      StreamSnoc(reports, r);
      outcome := Process(r);
      HasLive(entries, reports, Cleaned(r.service));
    }

    /** pop_event. */
    method PopEvent() returns (e: Option<Event>)
      requires Valid()
      modifies this`events, this`taken
      ensures Valid()
      ensures old(events) == [] <==> e.None?
      ensures e.None? ==> events == old(events) && taken == old(taken)
      ensures e.Some? ==> old(events) == [e.value] + events && taken == old(taken) + 1
    {
      hide Kept, Agree, Alternates, Announces, Named, Stream;
      if events == [] {
        return None;
      }
      e := Some(events[0]);
      events, taken := events[1..], taken + 1;
    }
  }
}
