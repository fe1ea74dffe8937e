/** What the events of the discovery table say, told from the history of reports alone. */
module DiscoveryEvents {
  import opened Bytes
  import opened Discovery

  /** A report that changes the table's services, updates one, or brings an error whose message fits. */
  ghost predicate Speaks(reports: seq<Report>, j: nat)
    requires j < |reports|
  {
    var r := reports[j];
    var before, after := Live(reports[..j], Cleaned(r.service)), Live(reports[..j + 1], Cleaned(r.service));
    match r.kind
    case ERROR => |r.message| < ERROR_LEN
    case ADD => Fits(r.service) && !before
    case UPDATE => Fits(r.service) && before
    case REMOVE => Fits(r.service) && before && !after
  }

  /** An event says what a report does: an error its number and message, and any other the service. */
  ghost predicate Tells(e: Event, r: Report) {
    && e.kind == r.kind
    && if r.kind == ERROR then e.error == r.error && e.message == Sanitised(r.message) else e.service == Cleaned(r.service)
  }

  ghost predicate Increasing(from: seq<nat>) {
    forall i, j :: 0 <= i < j < |from| ==> from[i] < from[j]
  }

  /** Each event comes from a report that speaks, in the order of the reports, and each such report has its event. */
  ghost predicate Accounts(events: seq<Event>, reports: seq<Report>, from: seq<nat>) {
    && |from| == |events| && Increasing(from)
    && (forall i :: 0 <= i < |from| ==>
          from[i] < |reports| && Speaks(reports, from[i]) && Tells(events[i], reports[from[i]]))
    && forall j :: 0 <= j < |reports| && Speaks(reports, j) ==> j in from
  }

  lemma SpeaksBefore(reports: seq<Report>, n: nat, j: nat)
    requires j < n <= |reports|
    ensures Speaks(reports[..n], j) <==> Speaks(reports, j)
  {
    hide Live, Cleaned, Fits;
    assert reports[..n][..j] == reports[..j] && reports[..n][..j + 1] == reports[..j + 1];
  }

  /** What the last report adds to the events. */
  lemma StreamNext(reports: seq<Report>)
    requires reports != []
    ensures var n := |reports| - 1;
      if Speaks(reports, n) then
        exists e :: Stream(reports) == Stream(reports[..n]) + [e] && Tells(e, reports[n])
      else Stream(reports) == Stream(reports[..n])
  {
    hide Live, Cleaned, Fits, Sanitised;
    var n := |reports| - 1;
    var r := reports[n];
    assert reports[..n + 1] == reports;
    var more := if r.kind == ERROR || Fits(r.service) then
        Announced(r, Live(reports[..n], Cleaned(r.service)), Live(reports, Cleaned(r.service)))
      else [];
    assert Stream(reports) == Stream(reports[..n]) + more;
    if Speaks(reports, n) {
      assert |more| == 1 && more == [more[0]] && Tells(more[0], r);
    } else {
      assert more == [] && Stream(reports[..n]) + [] == Stream(reports[..n]);
    }
  }

  /** The events of every history account for its reports. */
  lemma {:induction false} StreamAccounts(reports: seq<Report>) returns (from: seq<nat>)
    ensures Accounts(Stream(reports), reports, from)
  {
    hide Speaks, Tells, Stream;
    if reports == [] {
      from := [];
      NoEvents();
    } else {
      var n := |reports| - 1;
      from := StreamAccounts(reports[..n]);
      StreamNext(reports);
      forall j | 0 <= j < n ensures Speaks(reports[..n], j) <==> Speaks(reports, j) {
        SpeaksBefore(reports, n, j);
      }
      if Speaks(reports, n) {
        from := from + [n];
      }
    }
  }

  lemma NoEvents()
    ensures Stream([]) == []
  {
  }

  /** The table's events do so too: nothing is announced that no report said, and nothing that one said is left out. */
  lemma EventsAccount(d: Table)
    requires d.Valid()
    ensures exists from :: Accounts(d.announced, d.reports, from)
  {
    hide Accounts, Stream, Kept, Agree, Alternates, Announces, Named, AllQueued;
    var from := StreamAccounts(d.reports);
  }

  // ----- updates and errors

  /** How many events update a service. */
  ghost function Updates(events: seq<Event>, key: Service): nat {
    if events == [] then 0 else
      var e := events[|events| - 1];
      Updates(events[..|events| - 1], key) + if e.kind == UPDATE && e.service == key then 1 else 0
  }

  /** How many reports do, made while some source holds it. */
  ghost function UpdatesAsked(reports: seq<Report>, key: Service): nat {
    if reports == [] then 0 else
      var n := |reports| - 1;
      UpdatesAsked(reports[..n], key)
      + if reports[n].kind == UPDATE && Fits(reports[n].service) && Cleaned(reports[n].service) == key
           && Live(reports[..n], key) then 1 else 0
  }

  lemma UpdatesSnoc(events: seq<Event>, e: Event, key: Service)
    ensures Updates(events + [e], key) == Updates(events, key) + if e.kind == UPDATE && e.service == key then 1 else 0
  {
    assert (events + [e])[..|events|] == events;
  }

  lemma UpdateSpeaks(reports: seq<Report>, n: nat)
    requires n < |reports| && reports[n].kind == UPDATE
    ensures Speaks(reports, n) <==> Fits(reports[n].service) && Live(reports[..n], Cleaned(reports[n].service))
  {
    hide Live, Cleaned, Fits;
  }

  /** Each of them has its event. */
  lemma {:induction false} UpdatesTold(reports: seq<Report>, key: Service)
    ensures Updates(Stream(reports), key) == UpdatesAsked(reports, key)
  {
    hide Live, Cleaned, Fits, Stream, Tells, Speaks, Updates;
    if reports == [] {
      NoEvents();
      NoUpdates(key);
    } else {
      var n := |reports| - 1;
      UpdatesTold(reports[..n], key);
      StreamNext(reports);
      if reports[n].kind == UPDATE {
        UpdateSpeaks(reports, n);
      }
      if Speaks(reports, n) {
        var e :| Stream(reports) == Stream(reports[..n]) + [e] && Tells(e, reports[n]);
        TellsMeans(e, reports[n]);
        UpdatesSnoc(Stream(reports[..n]), e, key);
      }
    }
  }

  lemma NoUpdates(key: Service)
    ensures Updates([], key) == 0
  {
  }

  lemma TellsMeans(e: Event, r: Report)
    requires Tells(e, r)
    ensures e.kind == r.kind && (r.kind != ERROR ==> e.service == Cleaned(r.service))
    ensures r.kind == ERROR ==> e.error == r.error && e.message == Sanitised(r.message)
  {
  }

  datatype Fault = Fault(error: int, message: string)

  /** The errors among some events, and among some reports, in order. */
  ghost function Errors(events: seq<Event>): seq<Fault> {
    if events == [] then [] else
      var e := events[|events| - 1];
      Errors(events[..|events| - 1]) + if e.kind == ERROR then [Fault(e.error, e.message)] else []
  }

  ghost function ErrorsReported(reports: seq<Report>): seq<Fault> {
    if reports == [] then [] else
      var r := reports[|reports| - 1];
      ErrorsReported(reports[..|reports| - 1])
      + if r.kind == ERROR && |r.message| < ERROR_LEN then [Fault(r.error, Sanitised(r.message))] else []
  }

  lemma ErrorsSnoc(events: seq<Event>, e: Event)
    ensures Errors(events + [e]) == Errors(events) + if e.kind == ERROR then [Fault(e.error, e.message)] else []
  {
    assert (events + [e])[..|events|] == events;
  }

  lemma ErrorSpeaks(reports: seq<Report>, n: nat)
    requires n < |reports| && reports[n].kind == ERROR
    ensures Speaks(reports, n) <==> |reports[n].message| < ERROR_LEN
  {
    hide Live, Cleaned, Fits;
  }

  /** The error events are the error reports whose message fits. */
  lemma {:induction false} ErrorsTold(reports: seq<Report>)
    ensures Errors(Stream(reports)) == ErrorsReported(reports)
  {
    hide Live, Cleaned, Fits, Stream, Tells, Sanitised, Speaks;
    if reports == [] {
      NoEvents();
    } else {
      var n := |reports| - 1;
      ErrorsTold(reports[..n]);
      StreamNext(reports);
      if reports[n].kind == ERROR {
        ErrorSpeaks(reports, n);
      }
      if Speaks(reports, n) {
        var e :| Stream(reports) == Stream(reports[..n]) + [e] && Tells(e, reports[n]);
        TellsMeans(e, reports[n]);
        ErrorsSnoc(Stream(reports[..n]), e);
      }
    }
  }
}
