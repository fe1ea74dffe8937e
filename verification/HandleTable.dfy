/** The commands of afpsld that issue, look up and clear file handles. */
module HandleTable {
  import opened Bytes
  import opened Handles

  /** The server numbers open forks from 1: ml_close takes fork 0 of a data fork for no fork at all. */
  predicate Numbered(r: Record) {
    r.resource == DATA ==> r.forkid != 0
  }

  /** Some records may have been freed, and the others are as they were. */
  ghost predicate Fewer(before: map<Address, Record>, after: map<Address, Record>) {
    forall fp :: fp in after ==> fp in before && after[fp] == before[fp]
  }

  /** What the server answers to the opening of a volume: a failure, or a volume that has fixed directory IDs or not. */
  datatype VolumeAnswer = REFUSED | UNFIXED | FIXED

  /** The volumes once one has been connected. */
  function Connected(volumes: map<VolumeId, Volume>, v: VolumeId, answer: VolumeAnswer): map<VolumeId, Volume>
    requires v in volumes
  {
    match answer
    case REFUSED => volumes
    case UNFIXED => volumes[v := Volume(false, [])]
    case FIXED => volumes[v := Volume(true, volumes[v].forks)]
  }

  class Daemon {
    const table: array<Option<Handle>>
    /** The allocated records by address, and the volumes of the connected servers. */
    var records: map<Address, Record>
    var volumes: map<VolumeId, Volume>
    /** The handles issued, closed and released. */
    ghost var history: seq<Step>

    ghost predicate Sized()
      reads this, table
    {
      table.Length == MAX_OPEN_FILES && table[0] == None
    }

    ghost predicate Sound()
      reads this, table
    {
      SlotsOk(table[..], records, volumes) && ListsOk(table[..], records, volumes)
    }

    /** Each slot holds what the history says its handle names. */
    ghost predicate Told()
      reads this, table
    {
      forall i :: 0 <= i < table.Length ==> table[i] == Names(history, i)
    }

    ghost predicate Valid()
      reads this, table
    {
      Sized() && Sound() && Told()
    }

    constructor ()
      ensures Valid() && fresh(table) && records == map[] && volumes == map[] && history == []
    {
      table := new Option<Handle>[MAX_OPEN_FILES](_ => None);
      records, volumes, history := map[], map[], [];
    }

    /** A server connects: its volumes appear, none attached. */
    method Connect(vs: set<VolumeId>)
      requires Valid() && vs !! volumes.Keys
      modifies this`volumes
      ensures Valid() && volumes == old(volumes) + map v | v in vs :: Volume(false, [])
    {
      volumes := volumes + map v | v in vs :: Volume(false, []);
    }

    /** free. The record is allocated when it is freed. */
    method Free(fp: Address)
      requires fp in records
      modifies this`records
      ensures records == old(records) - {fp}
    {
      records := records - {fp};
    }

    /** register_file_handle: the lowest free slot, or 0. */
    method RegisterFileHandle(fp: Address, v: VolumeId) returns (id: nat)
      requires Sized()
      modifies table
      ensures id < MAX_OPEN_FILES
      ensures id == 0 ==> table[..] == old(table[..]) && forall j :: 0 < j < MAX_OPEN_FILES ==> table[j].Some?
      ensures id != 0 ==> old(table[id]) == None && forall j :: 0 < j < id ==> old(table[j]).Some?
      ensures id != 0 ==> table[..] == old(table[..])[id := Some(Handle(fp, v))]
    {
      for i := 1 to MAX_OPEN_FILES
        invariant table[..] == old(table[..])
        invariant forall j :: 0 < j < i ==> table[j].Some?
      {
        if table[i].None? {
          table[i] := Some(Handle(fp, v));
          return i;
        }
      }
      return 0;
    }

    /** fork_is_listed. */
    method ForkIsListed(v: VolumeId, fp: Address) returns (listed: bool)
      requires v in volumes
      ensures listed <==> fp in volumes[v].forks
    {
      var forks := volumes[v].forks;
      for i := 0 to |forks|
        invariant fp !in forks[..i]
      {
        if forks[i] == fp {
          return true;
        }
      }
      assert forks[..|forks|] == forks;
      return false;
    }

    /** get_file_handle: the record whose open issued the handle on this volume, or nothing. */
    method GetFileHandle(id: int, v: VolumeId, take: bool) returns (r: Option<Address>)
      requires Valid() && v in volumes
      modifies table, this`history
      ensures r.Some? <==> 0 < id < MAX_OPEN_FILES && exists fp :: Names(old(history), id) == Some(Handle(fp, v))
      ensures r.Some? ==> old(table[id]) == Names(old(history), id) == Some(Handle(r.value, v)) && r.value in records
      ensures r.None? || !take ==> Valid() && table[..] == old(table[..]) && history == old(history)
      ensures r.Some? && take ==> table[..] == old(table[..])[id := None] && history == old(history) + [Closed(id)]
    {
      hide ListsOk, Names;
      if id <= 0 || id >= MAX_OPEN_FILES || table[id].None? {
        return None;
      }
      var h := table[id].value;
      assert table[..][id] == table[id];
      var usable := h.volume == v;
      if usable && !Pseudo(records[h.fp]) {
        usable := ForkIsListed(v, h.fp);
      }
      if !usable {
        return None;
      }
      if take {
        table[id] := None;
        history := history + [Closed(id)];
      }
      return Some(h.fp);
    }

    /** remove_replyfork. */
    method RemoveOpenedFork(v: VolumeId, fp: Address)
      requires v in volumes && Unique(volumes[v].forks)
      modifies this`volumes
      ensures volumes.Keys == old(volumes.Keys) && volumes == old(volumes)[v := volumes[v]]
      ensures volumes[v].attached == old(volumes)[v].attached && Unique(volumes[v].forks)
      ensures forall x :: x in volumes[v].forks <==> x in old(volumes)[v].forks && x != fp
    {
      var forks := volumes[v].forks;
      for i := 0 to |forks|
        invariant volumes == old(volumes) && fp !in forks[..i]
      {
        if forks[i] == fp {
          Spliced(forks, i);
          volumes := volumes[v := volumes[v].(forks := forks[..i] + forks[i + 1..])];
          return;
        }
      }
      assert forks[..|forks|] == forks;
      assert volumes == volumes[v := volumes[v]];
    }

    /** ml_close, for what it does to the list of forks. */
    method MlClose(v: VolumeId, fp: Address)
      requires v in volumes && fp in records && Unique(volumes[v].forks)
      requires Pseudo(records[fp]) ==> fp !in volumes[v].forks
      modifies this`volumes
      ensures volumes.Keys == old(volumes.Keys) && volumes == old(volumes)[v := volumes[v]]
      ensures volumes[v].attached == old(volumes)[v].attached && Unique(volumes[v].forks)
      ensures forall x :: x in volumes[v].forks <==>
        x in old(volumes)[v].forks && (x != fp || !Numbered(records[fp]))
    {
      assert volumes == volumes[v := volumes[v]];
      match records[fp].resource
      case RESOURCE => RemoveOpenedFork(v, fp);
      case PSEUDO =>
      case DATA =>
        if records[fp].forkid != 0 {
          RemoveOpenedFork(v, fp);
        }
    }

    ghost predicate AllOwned()
      reads this, table
    {
      Owned(table[..], records)
    }

    /** process_open. The server's answer is the record it opens at a newly allocated address, or a failure. */
    method ProcessOpen(v: VolumeId, connected: bool, fp: Address, answer: Option<Record>)
      returns (outcome: Outcome, id: nat)
      requires Valid() && fp !in records
      modifies this, table
      ensures outcome == if v !in old(volumes) then NOTATTACHED else if !connected then NOTCONNECTED
                         else if answer.None? then FAILED
                         else if forall j :: 0 < j < MAX_OPEN_FILES ==> old(table[j]).Some? then ERROR else OK
      ensures outcome == OK ==> Valid() && 0 < id < MAX_OPEN_FILES && old(table[id]) == None
      ensures outcome == OK ==> history == old(history) + [Opened(id, Handle(fp, v))] && table[id] == Some(Handle(fp, v))
      ensures outcome == OK ==> records == old(records)[fp := answer.value]
      ensures outcome == OK ==>
        volumes == if Pseudo(answer.value) then old(volumes)
                   else old(volumes)[v := Volume(old(volumes)[v].attached, [fp] + old(volumes)[v].forks)]
      ensures outcome != OK ==> history == old(history) && records == old(records) && table[..] == old(table[..])
      ensures outcome != OK ==> (Valid() <==> outcome == ERROR ==> Numbered(answer.value))
      ensures outcome != OK && outcome != ERROR ==> volumes == old(volumes)
      ensures outcome == ERROR ==>
        && v in volumes && volumes == old(volumes)[v := volumes[v]]
        && volumes[v].attached == old(volumes)[v].attached
        && forall x :: x in volumes[v].forks <==> x in old(volumes)[v].forks || (x == fp && !Numbered(answer.value))
      ensures old(AllOwned()) ==> AllOwned()
    {
      hide SlotsOk, ListsOk, Owned, Names;
      id := 0;
      if v !in volumes {
        return NOTATTACHED, 0;
      }
      if !connected {
        return NOTCONNECTED, 0;
      }
      match answer {
        case None =>
          return FAILED, 0;
        case Some(r) =>
          records := records[fp := r];
          if !Pseudo(r) {
            volumes := volumes[v := volumes[v].(forks := [fp] + volumes[v].forks)];
          }
          id := RegisterFileHandle(fp, v);
          if id == 0 {
            NotListed(table[..], old(records), old(volumes), v, fp);
            MlClose(v, fp);
            Free(fp);
            assert records == old(records);
            OpenUndone(table[..], records, old(volumes), volumes, v, fp, r);
            return ERROR, 0;
          }
          OpenKeeps(old(table[..]), old(records), old(volumes), id, fp, v, r);
          if old(AllOwned()) {
            OpenOwns(old(table[..]), old(records), id, Handle(fp, v), r);
          }
          history := history + [Opened(id, Handle(fp, v))];
          ToldAfter(old(table[..]), table[..], old(history), Opened(id, Handle(fp, v)));
          outcome := OK;
      }
    }

    /** process_close. The server's answer becomes the outcome once a record is found. */
    method ProcessClose(id: int, v: VolumeId, connected: bool, answer: Outcome) returns (outcome: Outcome)
      requires Valid()
      modifies this, table
      ensures outcome == if v !in old(volumes) then NOTATTACHED else if !connected then NOTCONNECTED
                         else if !old(Issued(id, v)) then ERROR else answer
      ensures v !in old(volumes) || !connected || !old(Issued(id, v)) ==>
        && Valid() && history == old(history) && records == old(records) && table[..] == old(table[..])
        && volumes == old(volumes)
      ensures v in old(volumes) && connected && old(Issued(id, v)) ==>
        && v in volumes && volumes == old(volumes)[v := volumes[v]] && volumes[v].attached == old(volumes)[v].attached
        && (forall x :: x in volumes[v].forks <==>
              x in old(volumes)[v].forks
              && (x != old(table[id]).value.fp || !Numbered(old(records)[old(table[id]).value.fp])))
        && history == old(history) + [Closed(id)] && table[..] == old(table[..])[id := None]
        && records == old(records) - {old(table[id]).value.fp}
        && (Valid() <==> Numbered(old(records)[old(table[id]).value.fp]))
      ensures old(AllOwned()) ==> AllOwned()
    {
      hide SlotsOk, ListsOk, Owned, Names;
      if v !in volumes {
        return NOTATTACHED;
      }
      if !connected {
        return NOTCONNECTED;
      }
      IssuedMeans(id, v);
      var r := GetFileHandle(id, v, true);
      match r {
        case None =>
          return ERROR;
        case Some(fp) =>
          SlotFacts(old(table[..]), records, volumes, id);
          MlClose(v, fp);
          Free(fp);
          CloseSound(old(table[..]), old(records), old(volumes), volumes, id);
          if old(AllOwned()) {
            CloseOwns(old(table[..]), old(records), id);
          }
          ToldAfter(old(table[..]), table[..], old(history), Closed(id));
          return answer;
      }
    }

    /** The handle was issued on this volume, and neither closed nor released since. */
    ghost predicate Issued(id: int, v: VolumeId)
      reads this, table
    {
      0 < id < MAX_OPEN_FILES && Names(history, id).Some? && Names(history, id).value.volume == v
    }

    lemma IssuedMeans(id: int, v: VolumeId)
      requires Valid()
      ensures Issued(id, v) <==> 0 < id < MAX_OPEN_FILES && exists fp :: Names(history, id) == Some(Handle(fp, v))
      ensures Issued(id, v) ==> table[id].Some? && table[id].value.volume == v && table[id].value.fp in records
    {
      hide Names, ListsOk;
      if Issued(id, v) {
        assert Names(history, id) == Some(Handle(Names(history, id).value.fp, v));
        assert table[..][id] == table[id];
      }
    }

    /** release_volume_handles. */
    method ReleaseVolumeHandles(v: VolumeId)
      requires Sized() && SlotsLive(table[..], records)
      modifies table, this`records, this`history
      ensures table[..] == Cleared(old(table[..]), {v}) && records == old(records) - PseudoOf(old(table[..]), old(records), {v})
      ensures history == old(history) + [Released(v)]
      ensures SlotsLive(table[..], records)
    {
      hide Cleared, PseudoOf, SlotsLive;
      ghost var t, before := table[..], records;
      ClearedStart(t, before, v);
      for i := 1 to MAX_OPEN_FILES
        invariant table[..] == ClearedTo(t, v, i) && history == old(history)
        invariant records == before - PseudoOf(t[..i], before, {v})
      {
        ClearedStep(t, v, i);
        assert table[i] == table[..][i] == t[i];
        SlotsLiveAt(t, before, v, i);
        if table[i].Some? && table[i].value.volume == v {
          if Pseudo(records[table[i].value.fp]) {
            Free(table[i].value.fp);
          }
          table[i] := None;
        }
        assert table[..] == ClearedTo(t, v, i + 1);
      }
      ClearedEnd(t, v);
      SlotsLiveCleared(t, before, v);
      history := history + [Released(v)];
    }

    /** remove_fork_list: each listed fork's record is freed. */
    method RemoveForkList(v: VolumeId)
      requires v in volumes && Unique(volumes[v].forks) && Elements(volumes[v].forks) <= records.Keys
      modifies this`records, this`volumes
      ensures records == old(records) - Elements(old(volumes)[v].forks)
      ensures volumes == old(volumes)[v := Volume(old(volumes)[v].attached, [])]
    {
      ghost var forks, before := volumes[v].forks, records;
      ghost var n := 0;
      while volumes[v].forks != []
        invariant 0 <= n <= |forks| && v in volumes && volumes[v].forks == forks[n..]
        invariant volumes == old(volumes)[v := Volume(old(volumes)[v].attached, forks[n..])]
        invariant records == before - Elements(forks[..n])
        decreases |forks| - n
      {
        var fp := volumes[v].forks[0];
        assert fp == forks[n] && fp !in forks[..n];
        assert Elements(forks[..n + 1]) == Elements(forks[..n]) + {fp};
        volumes := volumes[v := volumes[v].(forks := volumes[v].forks[1..])];
        Free(fp);
        n := n + 1;
      }
      assert forks[..n] == forks;
    }

    /** afp_connect_volume. A volume without fixed directory IDs is detached again: its forks' records are freed, and
        the slots that name them stay. */
    method ConnectVolume(v: VolumeId, answer: VolumeAnswer)
      requires Valid() && v in volumes
      modifies this`records, this`volumes
      ensures Valid() <==> answer == UNFIXED ==> old(volumes)[v].forks == []
      ensures volumes == Connected(old(volumes), v, answer)
      ensures answer == FIXED ==> volumes[v].attached && volumes[v].forks == old(volumes)[v].forks
      ensures answer == UNFIXED ==> !volumes[v].attached && volumes[v].forks == []
      ensures answer == REFUSED ==> volumes == old(volumes)
      ensures records == if answer == UNFIXED then old(records) - Elements(old(volumes)[v].forks) else old(records)
      ensures old(AllOwned()) ==> AllOwned()
    {
      hide SlotsOk, ListsOk, Names;
      match answer {
        case REFUSED =>
          assert volumes == volumes[v := volumes[v]];
        case UNFIXED =>
          ListedLive(table[..], records, volumes, {}, v);
          RemoveForkList(v);
          volumes := volumes[v := volumes[v].(attached := false)];
          Dangling(table[..], old(records), old(volumes), v, volumes);
        case FIXED =>
          volumes := volumes[v := volumes[v].(attached := true)];
          Flagged(table[..], records, old(volumes), v, volumes);
      }
    }

    /** process_attach: a volume that is attached stays as it is. */
    method Attach(v: VolumeId, answer: VolumeAnswer) returns (outcome: Outcome)
      requires Valid()
      modifies this`records, this`volumes
      ensures outcome == if v !in old(volumes) then ERROR else if old(volumes)[v].attached || answer == FIXED then OK
                         else ERROR
      ensures v in old(volumes) && !old(volumes)[v].attached ==>
        && (Valid() <==> answer == UNFIXED ==> old(volumes)[v].forks == [])
        && volumes == Connected(old(volumes), v, answer)
        && records == if answer == UNFIXED then old(records) - Elements(old(volumes)[v].forks) else old(records)
      ensures v !in old(volumes) || old(volumes)[v].attached ==>
        Valid() && volumes == old(volumes) && records == old(records)
      ensures old(AllOwned()) ==> AllOwned()
    {
      hide SlotsOk, ListsOk, Owned, Names;
      if v !in volumes {
        return ERROR;
      }
      if volumes[v].attached {
        return OK;
      }
      ConnectVolume(v, answer);
      outcome := if answer == FIXED then OK else ERROR;
    }

    /** process_detach. */
    method ProcessDetach(v: VolumeId) returns (outcome: Outcome)
      requires Valid()
      modifies this, table
      ensures Valid()
      ensures outcome == if v in old(volumes) && old(volumes)[v].attached then OK else ERROR
      ensures outcome != OK ==> history == old(history) && records == old(records) && volumes == old(volumes)
      ensures outcome == OK ==> history == old(history) + [Released(v)] && volumes == old(volumes)[v := Volume(false, [])]
      ensures outcome == OK ==> forall id :: !Issued(id, v)
      ensures Fewer(old(records), records)
      ensures old(AllOwned()) ==> AllOwned()
    {
      hide SlotsOk, ListsOk, Owned, Names, Cleared, PseudoOf, SlotsLive;
      if v !in volumes || !volumes[v].attached {
        return ERROR;
      }
      ghost var t, before, vols := table[..], records, volumes;
      SlotsAreLive(t, before, vols);
      ReleaseVolumeHandles(v);
      ListedLive(t, before, vols, {v}, v);
      RemoveForkList(v);
      volumes := volumes[v := volumes[v].(attached := false)];
      Detached(t, before, vols, v, records, volumes);
      ToldAfter(t, table[..], old(history), Released(v));
      ClearedNone(t, table[..], old(history), v);
      outcome := OK;
    }

    /** process_disconnect, for the volumes of one server, which leave with it. Every record of the server is freed
        exactly when no volume that was not attached has an open fork. */
    method ProcessDisconnect(vs: seq<VolumeId>)
      requires Valid() && forall i :: 0 <= i < |vs| ==> vs[i] in volumes
      requires forall i, j :: 0 <= i < j < |vs| ==> vs[i] != vs[j]
      modifies this, table
      ensures Valid() && volumes == old(volumes) - VolumeSet(vs)
      ensures forall id, v :: v in vs ==> !Issued(id, v)
      ensures Fewer(old(records), records)
      ensures old(AllOwned()) ==>
        (AllOwned() <==> forall v :: v in VolumeSet(vs) && !old(volumes)[v].attached ==> old(volumes)[v].forks == [])
    {
      hide SlotsOk, ListsOk, Owned, Names, Cleared, PseudoOf, SlotsLive, ForksOf;
      ghost var t, before, vols := table[..], records, volumes;
      SlotsAreLive(t, before, vols);
      ReleaseNone(t, before);
      for i := 0 to |vs|
        invariant Sized() && Told() && volumes == vols && SlotsLive(table[..], records)
        invariant table[..] == Cleared(t, VolumeSet(vs[..i])) && records == before - PseudoOf(t, before, VolumeSet(vs[..i]))
      {
        ghost var told := history;
        ghost var slots := table[..];
        ReleaseMore(t, before, VolumeSet(vs[..i]), vs[i]);
        VolumeSetSnoc(vs, i);
        ReleaseVolumeHandles(vs[i]);
        ToldAfter(slots, table[..], told, Released(vs[i]));
      }
      assert vs[..|vs|] == vs;
      ghost var all, left := VolumeSet(vs), records;
      ForksOfNone(vols, vs);
      for i := 0 to |vs|
        invariant Sized() && Told() && table[..] == Cleared(t, all)
        invariant records == left - ForksOf(vols, AttachedIn(vols, vs[..i]))
        invariant volumes.Keys == vols.Keys
        invariant forall j :: i <= j < |vs| ==> volumes[vs[j]] == vols[vs[j]]
        invariant forall v :: v in vols && v !in all ==> volumes[v] == vols[v]
      {
        var v := vs[i];
        if volumes[v].attached {
          ForksApart(t, before, vols, all, vs, i);
          RemoveForkList(v);
          volumes := volumes[v := volumes[v].(attached := false)];
        }
        ForksOfSnoc(vols, vs, i);
      }
      volumes := map v | v in volumes && v !in vs :: volumes[v];
      assert vs[..|vs|] == vs;
      Disconnected(t, before, vols, vs, records, volumes);
      NoneIssued(vs);
    }

    lemma NoneIssued(vs: seq<VolumeId>)
      requires Valid() && volumes.Keys !! VolumeSet(vs)
      ensures forall id, v :: v in vs ==> !Issued(id, v)
    {
      hide Names, ListsOk;
      assert forall v :: v in vs ==> v in VolumeSet(vs);
      assert forall i :: 0 <= i < table.Length && table[..][i].Some? ==> table[i].value.volume in volumes;
    }
  }

  /** Freeing the records of a list alone leaves a sound table exactly when the list is empty. */
  lemma Dangling(t: seq<Option<Handle>>, records: map<Address, Record>, before: map<VolumeId, Volume>, v: VolumeId,
                 after: map<VolumeId, Volume>)
    requires SlotsOk(t, records, before) && ListsOk(t, records, before) && v in before
    requires after == before[v := Volume(false, [])]
    ensures var left := records - Elements(before[v].forks);
      (SlotsOk(t, left, after) && ListsOk(t, left, after)) <==> before[v].forks == []
    ensures Owned(t, records) ==> Owned(t, records - Elements(before[v].forks))
  {
    if before[v].forks != [] {
      var fp := before[v].forks[0];
      assert fp in before[v].forks;
      var i :| 0 <= i < |t| && t[i] == Some(Handle(fp, v));
      assert fp !in records - Elements(before[v].forks);
    } else {
      assert records - Elements(before[v].forks) == records;
      Flagged(t, records, before, v, after);
    }
  }

  /** A volume's flag has no part in a sound table. */
  lemma Flagged(t: seq<Option<Handle>>, records: map<Address, Record>, before: map<VolumeId, Volume>, v: VolumeId,
                after: map<VolumeId, Volume>)
    requires SlotsOk(t, records, before) && ListsOk(t, records, before) && v in before
    requires v in after && after == before[v := after[v]] && after[v].forks == before[v].forks
    ensures SlotsOk(t, records, after) && ListsOk(t, records, after)
  {
    forall w | w in after
      ensures Unique(after[w].forks)
      ensures forall x :: x in after[w].forks ==> x in records && !Pseudo(records[x]) && SlotOf(t, x, w)
    {
      assert after[w].forks == before[w].forks;
    }
  }

  lemma NotListed(t: seq<Option<Handle>>, records: map<Address, Record>, volumes: map<VolumeId, Volume>,
                  v: VolumeId, fp: Address)
    requires ListsOk(t, records, volumes) && v in volumes && fp !in records
    ensures fp !in volumes[v].forks && Unique(volumes[v].forks) && Unique([fp] + volumes[v].forks)
  {
    var forks := volumes[v].forks;
    assert forall i :: 0 <= i < |forks| ==> forks[i] in forks;
  }

  /** A record that finds no slot and is freed again leaves the lists as they were, unless it stays listed. */
  lemma OpenUndone(t: seq<Option<Handle>>, records: map<Address, Record>, before: map<VolumeId, Volume>,
                   after: map<VolumeId, Volume>, v: VolumeId, fp: Address, r: Record)
    requires SlotsOk(t, records, before) && ListsOk(t, records, before) && fp !in records
    requires v in before && v in after && after == before[v := after[v]] && Unique(after[v].forks)
    requires forall x :: x in after[v].forks <==> x in before[v].forks || (x == fp && !Numbered(r))
    ensures (SlotsOk(t, records, after) && ListsOk(t, records, after)) <==> Numbered(r)
  {
    assert fp !in before[v].forks;
    if !Numbered(r) {
      assert fp in after[v].forks;
      assert !ListsOk(t, records, after);
    } else {
      forall w | w in after
        ensures Unique(after[w].forks)
        ensures forall x :: x in after[w].forks ==> x in records && !Pseudo(records[x]) && SlotOf(t, x, w)
      {
        assert Unique(before[w].forks);
      }
    }
  }

  /** The table follows the history through one step. */
  lemma ToldAfter(before: seq<Option<Handle>>, after: seq<Option<Handle>>, history: seq<Step>, s: Step)
    requires |after| == |before| && forall i :: 0 <= i < |before| ==> before[i] == Names(history, i)
    requires match s
      case Opened(id, h) => 0 <= id < |before| && after == before[id := Some(h)]
      case Closed(id) => 0 <= id < |before| && after == before[id := None]
      case Released(v) => after == Cleared(before, {v})
    ensures forall i :: 0 <= i < |after| ==> after[i] == Names(history + [s], i)
  {
    hide Names;
    forall i | 0 <= i < |after| ensures after[i] == Names(history + [s], i) {
      NamesSnoc(history, s, i);
    }
  }

  lemma SlotFacts(t: seq<Option<Handle>>, records: map<Address, Record>, volumes: map<VolumeId, Volume>, i: nat)
    requires SlotsOk(t, records, volumes) && ListsOk(t, records, volumes) && i < |t| && t[i].Some?
    ensures t[i].value.fp in records && t[i].value.volume in volumes && Unique(volumes[t[i].value.volume].forks)
    ensures Pseudo(records[t[i].value.fp]) <==> t[i].value.fp !in volumes[t[i].value.volume].forks
  {
  }

  lemma CloseSound(t: seq<Option<Handle>>, records: map<Address, Record>, before: map<VolumeId, Volume>,
                   after: map<VolumeId, Volume>, i: nat)
    requires SlotsOk(t, records, before) && ListsOk(t, records, before) && i < |t| && t[i].Some?
    requires t[i].value.volume in before && t[i].value.fp in records
    requires var v, fp := t[i].value.volume, t[i].value.fp;
      && v in after && after == before[v := before[v].(forks := after[v].forks)] && Unique(after[v].forks)
      && forall x :: x in after[v].forks <==> x in before[v].forks && (x != fp || !Numbered(records[fp]))
    ensures (SlotsOk(t[i := None], records - {t[i].value.fp}, after) && ListsOk(t[i := None], records - {t[i].value.fp}, after))
      <==> Numbered(records[t[i].value.fp])
  {
    var v, fp := t[i].value.volume, t[i].value.fp;
    SlotFacts(t, records, before, i);
    if Numbered(records[fp]) {
      CloseKeeps(t, records, before, i, after[v].forks);
    } else {
      assert fp in after[v].forks;
      assert !ListsOk(t[i := None], records - {fp}, after);
    }
  }

  /** Each occupied slot names its own live record. */
  ghost predicate SlotsLive(t: seq<Option<Handle>>, records: map<Address, Record>) {
    && (forall i, j :: 0 <= i < j < |t| && t[i].Some? && t[j].Some? ==> t[i].value.fp != t[j].value.fp)
    && forall i :: 0 <= i < |t| && t[i].Some? ==> t[i].value.fp in records
  }

  /** The slots with those of a volume cleared up to a place. */
  ghost function ClearedTo(t: seq<Option<Handle>>, v: VolumeId, i: nat): seq<Option<Handle>>
    requires i <= |t|
  {
    Cleared(t[..i], {v}) + t[i..]
  }

  lemma ClearedStart(t: seq<Option<Handle>>, records: map<Address, Record>, v: VolumeId)
    requires |t| > 0 && t[0] == None
    ensures ClearedTo(t, v, 1) == t && records == records - PseudoOf(t[..1], records, {v})
  {
    assert PseudoOf(t[..1], records, {v}) == {};
  }

  lemma ClearedStep(t: seq<Option<Handle>>, v: VolumeId, i: nat)
    requires i < |t|
    ensures ClearedTo(t, v, i)[i] == t[i]
    ensures ClearedTo(t, v, i + 1)
      == if t[i].Some? && t[i].value.volume == v then ClearedTo(t, v, i)[i := None] else ClearedTo(t, v, i)
  {
  }

  lemma ClearedEnd(t: seq<Option<Handle>>, v: VolumeId)
    ensures ClearedTo(t, v, |t|) == Cleared(t, {v}) && t[..|t|] == t
  {
    assert t[..|t|] == t;
  }

  lemma SlotsLiveAt(t: seq<Option<Handle>>, records: map<Address, Record>, v: VolumeId, i: nat)
    requires SlotsLive(t, records) && i < |t|
    ensures t[i].Some? ==> t[i].value.fp in records && t[i].value.fp !in PseudoOf(t[..i], records, {v})
    ensures PseudoOf(t[..i + 1], records, {v}) == PseudoOf(t[..i], records, {v})
      + if t[i].Some? && t[i].value.volume == v && Pseudo(records[t[i].value.fp]) then {t[i].value.fp} else {}
  {
  }

  lemma SlotsLiveCleared(t: seq<Option<Handle>>, records: map<Address, Record>, v: VolumeId)
    requires SlotsLive(t, records)
    ensures SlotsLive(Cleared(t, {v}), records - PseudoOf(t, records, {v}))
  {
  }

  lemma SlotsAreLive(t: seq<Option<Handle>>, records: map<Address, Record>, volumes: map<VolumeId, Volume>)
    requires SlotsOk(t, records, volumes)
    ensures SlotsLive(t, records)
  {
  }

  /** A list's records are still live when the pseudo-files' records are gone. */
  lemma ListedLive(t: seq<Option<Handle>>, records: map<Address, Record>, volumes: map<VolumeId, Volume>,
                   vs: set<VolumeId>, v: VolumeId)
    requires ListsOk(t, records, volumes) && v in volumes
    ensures Unique(volumes[v].forks) && Elements(volumes[v].forks) <= (records - PseudoOf(t, records, vs)).Keys
  {
  }

  lemma Detached(t: seq<Option<Handle>>, records: map<Address, Record>, volumes: map<VolumeId, Volume>, v: VolumeId,
                 records': map<Address, Record>, volumes': map<VolumeId, Volume>)
    requires SlotsOk(t, records, volumes) && ListsOk(t, records, volumes) && v in volumes
    requires records' == records - PseudoOf(t, records, {v}) - Elements(volumes[v].forks)
    requires volumes' == volumes[v := Volume(false, [])]
    ensures SlotsOk(Cleared(t, {v}), records', volumes') && ListsOk(Cleared(t, {v}), records', volumes')
    ensures Owned(t, records) ==> Owned(Cleared(t, {v}), records')
  {
    hide SlotsOk, ListsOk, Owned, Cleared, PseudoOf;
    ReleaseOwns(t, records, volumes, {v}, {v}, records');
    ReleaseKeeps(t, records, volumes, {v}, records', volumes');
  }

  lemma ClearedNone(t: seq<Option<Handle>>, cleared: seq<Option<Handle>>, history: seq<Step>, v: VolumeId)
    requires |t| == MAX_OPEN_FILES && cleared == Cleared(t, {v})
    requires forall i :: 0 <= i < |cleared| ==> cleared[i] == Names(history + [Released(v)], i)
    ensures forall id :: 0 < id < MAX_OPEN_FILES && Names(history + [Released(v)], id).Some? ==>
      Names(history + [Released(v)], id).value.volume != v
  {
    hide Names;
    assert forall i :: 0 <= i < |cleared| && cleared[i].Some? ==> cleared[i].value.volume != v;
  }

  // ---- a server's volumes

  ghost function VolumeSet(vs: seq<VolumeId>): set<VolumeId> {
    set v | v in vs
  }

  ghost function AttachedIn(volumes: map<VolumeId, Volume>, vs: seq<VolumeId>): set<VolumeId> {
    set v | v in vs && v in volumes && volumes[v].attached
  }

  ghost function ForksOf(volumes: map<VolumeId, Volume>, vs: set<VolumeId>): set<Address> {
    set v, fp | v in vs && v in volumes && fp in volumes[v].forks :: fp
  }

  lemma ReleaseNone(t: seq<Option<Handle>>, records: map<Address, Record>)
    ensures t == Cleared(t, {}) && records == records - PseudoOf(t, records, {}) && VolumeSet([]) == {}
  {
    assert PseudoOf(t, records, {}) == {};
  }

  lemma VolumeSetSnoc(vs: seq<VolumeId>, i: nat)
    requires i < |vs|
    ensures VolumeSet(vs[..i + 1]) == VolumeSet(vs[..i]) + {vs[i]}
  {
  }

  lemma ReleaseMore(t: seq<Option<Handle>>, records: map<Address, Record>, vs: set<VolumeId>, v: VolumeId)
    requires SlotsLive(t, records)
    ensures Cleared(Cleared(t, vs), {v}) == Cleared(t, vs + {v})
    ensures var left := records - PseudoOf(t, records, vs);
      left - PseudoOf(Cleared(t, vs), left, {v}) == records - PseudoOf(t, records, vs + {v})
  {
    var left := records - PseudoOf(t, records, vs);
    var more := PseudoOf(Cleared(t, vs), left, {v});
    forall fp | fp in PseudoOf(t, records, vs + {v}) ensures fp in PseudoOf(t, records, vs) + more {
      var i :| 0 <= i < |t| && t[i].Some? && t[i].value.volume in vs + {v} && t[i].value.fp == fp && fp in records
               && Pseudo(records[fp]);
      if t[i].value.volume !in vs {
        assert fp !in PseudoOf(t, records, vs);
        assert Cleared(t, vs)[i] == t[i];
      }
    }
    assert PseudoOf(t, records, vs + {v}) == PseudoOf(t, records, vs) + more;
  }

  lemma ForksOfNone(volumes: map<VolumeId, Volume>, vs: seq<VolumeId>)
    ensures ForksOf(volumes, AttachedIn(volumes, vs[..0])) == {}
  {
  }

  lemma ForksOfSnoc(volumes: map<VolumeId, Volume>, vs: seq<VolumeId>, i: nat)
    requires i < |vs| && vs[i] in volumes
    ensures ForksOf(volumes, AttachedIn(volumes, vs[..i + 1])) == ForksOf(volumes, AttachedIn(volumes, vs[..i]))
      + if volumes[vs[i]].attached then Elements(volumes[vs[i]].forks) else {}
  {
    assert AttachedIn(volumes, vs[..i + 1]) == AttachedIn(volumes, vs[..i])
      + if volumes[vs[i]].attached then {vs[i]} else {};
  }

  /** One volume's forks are still live when those of others are freed. */
  lemma ForksApart(t: seq<Option<Handle>>, records: map<Address, Record>, volumes: map<VolumeId, Volume>,
                   all: set<VolumeId>, vs: seq<VolumeId>, i: nat)
    requires SlotsOk(t, records, volumes) && ListsOk(t, records, volumes) && i < |vs| && vs[i] in volumes
    requires forall j, k :: 0 <= j < k < |vs| ==> vs[j] != vs[k]
    ensures Unique(volumes[vs[i]].forks)
    ensures Elements(volumes[vs[i]].forks)
      <= (records - PseudoOf(t, records, all) - ForksOf(volumes, AttachedIn(volumes, vs[..i]))).Keys
  {
    ListedLive(t, records, volumes, all, vs[i]);
    forall fp | fp in volumes[vs[i]].forks ensures fp !in ForksOf(volumes, AttachedIn(volumes, vs[..i])) {
      if w :| w in AttachedIn(volumes, vs[..i]) && fp in volumes[w].forks {
        SharedFork(t, records, volumes, vs[i], w, fp);
      }
    }
  }

  lemma SharedFork(t: seq<Option<Handle>>, records: map<Address, Record>, volumes: map<VolumeId, Volume>,
                   v: VolumeId, w: VolumeId, fp: Address)
    requires SlotsOk(t, records, volumes) && ListsOk(t, records, volumes) && v in volumes && w in volumes
    requires fp in volumes[v].forks && fp in volumes[w].forks
    ensures v == w
  {
    var i :| 0 <= i < |t| && t[i] == Some(Handle(fp, v));
    OneSlot(t, records, volumes, i, w);
  }

  lemma Disconnected(t: seq<Option<Handle>>, records: map<Address, Record>, volumes: map<VolumeId, Volume>,
                     vs: seq<VolumeId>, records': map<Address, Record>, volumes': map<VolumeId, Volume>)
    requires SlotsOk(t, records, volumes) && ListsOk(t, records, volumes) && VolumeSet(vs) <= volumes.Keys
    requires records' == records - PseudoOf(t, records, VolumeSet(vs)) - ForksOf(volumes, AttachedIn(volumes, vs))
    requires volumes' == volumes - VolumeSet(vs)
    ensures SlotsOk(Cleared(t, VolumeSet(vs)), records', volumes') && ListsOk(Cleared(t, VolumeSet(vs)), records', volumes')
    ensures Owned(t, records) ==>
      (Owned(Cleared(t, VolumeSet(vs)), records')
       <==> forall v :: v in VolumeSet(vs) && !volumes[v].attached ==> volumes[v].forks == [])
  {
    hide SlotsOk, ListsOk, Owned, Cleared, PseudoOf;
    var all, freed := VolumeSet(vs), AttachedIn(volumes, vs);
    forall x ensures x in records' <==>
      x in records && x !in PseudoOf(t, records, all) && !exists v :: v in freed && x in volumes[v].forks
    {
    }
    ReleaseOwns(t, records, volumes, all, freed, records');
    ReleaseKeeps(t, records, volumes, all, records', volumes');
    assert forall v :: v in all - freed <==> v in all && !volumes[v].attached;
  }

  // ---- whole runs

  /** A command, with the server's answer and the address the allocator gives a new record. A reconnect resumes each
      attached volume. */
  datatype Command =
    | Connect(vs: set<VolumeId>)
    | Attach(v: VolumeId, answer: VolumeAnswer)
    | Resume(v: VolumeId, answer: VolumeAnswer)
    | Open(v: VolumeId, connected: bool, fp: Address, reply: Option<Record>)
    | Look(id: int, v: VolumeId)
    | Close(id: int, v: VolumeId, connected: bool, closed: Outcome)
    | Detach(v: VolumeId)
    | Disconnect(volumes: seq<VolumeId>)

  /** The server numbers the data fork it opens. */
  predicate Fair(c: Command) {
    c.Open? && c.reply.Some? ==> Numbered(c.reply.value)
  }

  ghost predicate AllNumbered(records: map<Address, Record>) {
    forall fp :: fp in records ==> Numbered(records[fp])
  }

  /** A disconnect leaves a record behind exactly when a volume that is not attached has an open fork. */
  predicate Leaves(c: Command, volumes: map<VolumeId, Volume>) {
    && c.Disconnect? && OfServer(c.volumes, volumes)
    && exists v :: v in c.volumes && v in volumes && !volumes[v].attached && volumes[v].forks != []
  }

  /** A command that connects a volume: an attach one that is not attached, and a reconnect one that is. */
  predicate Connects(c: Command, volumes: map<VolumeId, Volume>) {
    || (c.Attach? && c.v in volumes && !volumes[c.v].attached)
    || (c.Resume? && c.v in volumes && volumes[c.v].attached)
  }

  /** The server opens a volume that has open forks, and it has no fixed directory IDs. */
  predicate Breaks(c: Command, volumes: map<VolumeId, Volume>) {
    Connects(c, volumes) && c.answer == UNFIXED && volumes[c.v].forks != []
  }

  /** The volumes are those of a connected server, each once. */
  predicate OfServer(vs: seq<VolumeId>, volumes: map<VolumeId, Volume>) {
    (forall i :: 0 <= i < |vs| ==> vs[i] in volumes) && forall i, j :: 0 <= i < j < |vs| ==> vs[i] != vs[j]
  }

  /** One volume's list changes, and nothing else does. */
  ghost predicate Relisted(before: map<VolumeId, Volume>, after: map<VolumeId, Volume>, v: VolumeId) {
    v in before && v in after && after == before[v := after[v]] && after[v].attached == before[v].attached
  }

  /** What a command makes of the volumes: an open lists its fork or nothing, and a close takes at most its own away. */
  ghost predicate Next(c: Command, before: map<VolumeId, Volume>, after: map<VolumeId, Volume>) {
    match c
    case Connect(vs) => after == if vs !! before.Keys then before + map v | v in vs :: Volume(false, []) else before
    case Attach(v, answer) => after == if Connects(c, before) then Connected(before, v, answer) else before
    case Resume(v, answer) => after == if Connects(c, before) then Connected(before, v, answer) else before
    case Open(v, connected, fp, reply) =>
      || after == before
      || (Relisted(before, after, v) && reply.Some? && after[v].forks == [fp] + before[v].forks)
      || (Relisted(before, after, v) && forall x :: x in after[v].forks <==> x in before[v].forks)
    case Look(id, v) => after == before
    case Close(id, v, connected, closed) =>
      || after == before
      || (Relisted(before, after, v) && exists fp :: Without(before[v].forks, after[v].forks, fp))
    case Detach(v) =>
      after == if v in before && before[v].attached then before[v := Volume(false, [])] else before
    case Disconnect(vs) => after == if OfServer(vs, before) then before - VolumeSet(vs) else before
  }

  ghost predicate Without(before: seq<Address>, after: seq<Address>, fp: Address) {
    forall x :: x in after <==> x in before && x != fp
  }

  /** One command. The allocator gives no address in use, a server's volumes are new when it connects, and a command
      for a volume or a server the daemon does not have is refused. The table stays sound, unless the command breaks
      it. */
  method Perform(d: Daemon, c: Command) returns (leaves: bool)
    requires d.Valid() && AllNumbered(d.records) && Fair(c)
    modifies d, d.table
    ensures d.Valid() <==> !Breaks(c, old(d.volumes))
    ensures AllNumbered(d.records) && Next(c, old(d.volumes), d.volumes)
    ensures leaves <==> Leaves(c, old(d.volumes))
    ensures old(d.AllOwned()) ==> (d.AllOwned() <==> !leaves)
  {
    hide SlotsOk, ListsOk, Owned, Names, Unique;
    leaves := false;
    match c {
      case Connect(vs) =>
        if vs !! d.volumes.Keys {
          d.Connect(vs);
        }
      case Attach(v, answer) =>
        var _ := d.Attach(v, answer);
      case Resume(v, answer) =>
        if v in d.volumes && d.volumes[v].attached {
          d.ConnectVolume(v, answer);
        }
      case Open(v, connected, fp, answer) =>
        if fp !in d.records {
          var _, _ := d.ProcessOpen(v, connected, fp, answer);
        }
      case Look(id, v) =>
        if v in d.volumes {
          var _ := d.GetFileHandle(id, v, false);
        }
      case Close(id, v, connected, answer) =>
        PerformClose(d, id, v, connected, answer);
      case Detach(v) =>
        var _ := d.ProcessDetach(v);
      case Disconnect(vs) =>
        if OfServer(vs, d.volumes) {
          leaves := Leaves(c, d.volumes);
          d.ProcessDisconnect(vs);
        }
    }
  }

  method PerformClose(d: Daemon, id: int, v: VolumeId, connected: bool, answer: Outcome)
    requires d.Valid() && AllNumbered(d.records)
    modifies d, d.table
    ensures d.Valid() && AllNumbered(d.records) && Next(Close(id, v, connected, answer), old(d.volumes), d.volumes)
    ensures old(d.AllOwned()) ==> d.AllOwned()
  {
    hide SlotsOk, ListsOk, Owned, Names, Unique;
    if d.Issued(id, v) {
      d.IssuedMeans(id, v);
    }
    var _ := d.ProcessClose(id, v, connected, answer);
    if v in old(d.volumes) && connected && old(d.Issued(id, v)) {
      assert Without(old(d.volumes)[v].forks, d.volumes[v].forks, old(d.table[id]).value.fp);
    }
  }

  /** A run: the volumes before each command and after the last. */
  ghost predicate Traced(commands: seq<Command>, trace: seq<map<VolumeId, Volume>>) {
    && |trace| == |commands| + 1 && trace[0] == map[]
    && forall i :: 0 <= i < |commands| ==> Next(commands[i], trace[i], trace[i + 1])
  }

  /** Every run, up to the first command that breaks the table, keeps it sound and in agreement with the history of
      handles. It leaves a record without a slot exactly when a disconnect finds an open fork on a volume that is not
      attached. */
  method Run(commands: seq<Command>) returns (d: Daemon, done: nat, left: bool, ghost trace: seq<map<VolumeId, Volume>>)
    requires forall i :: 0 <= i < |commands| ==> Fair(commands[i])
    ensures fresh(d) && done <= |commands| && Traced(commands[..done], trace) && trace[done] == d.volumes
    ensures d.Valid() ==> done == |commands|
    ensures d.Valid() <==> forall i :: 0 <= i < done ==> !Breaks(commands[i], trace[i])
    ensures forall i :: 0 <= i < done - 1 ==> !Breaks(commands[i], trace[i])
    ensures left <==> exists i :: 0 <= i < done && Leaves(commands[i], trace[i])
    ensures !left ==> d.AllOwned()
  {
    hide Next, Breaks, Leaves;
    d := new Daemon();
    done, left, trace := 0, false, [map[]];
    var sound := true;
    while sound && done < |commands|
      invariant fresh(d) && fresh(d.table) && done <= |commands| && AllNumbered(d.records)
      invariant Traced(commands[..done], trace) && trace[done] == d.volumes
      invariant d.Valid() <==> sound
      invariant sound <==> forall i :: 0 <= i < done ==> !Breaks(commands[i], trace[i])
      invariant forall i :: 0 <= i < done - 1 ==> !Breaks(commands[i], trace[i])
      invariant left <==> exists i :: 0 <= i < done && Leaves(commands[i], trace[i])
      invariant !left ==> d.AllOwned()
      decreases |commands| - done
    {
      ghost var before := trace;
      sound := !Breaks(commands[done], d.volumes);
      var leaves := Perform(d, commands[done]);
      trace := trace + [d.volumes];
      TraceSnoc(commands, before, done, d.volumes);
      left, done := left || leaves, done + 1;
    }
  }

  lemma TraceSnoc(commands: seq<Command>, trace: seq<map<VolumeId, Volume>>, n: nat, volumes: map<VolumeId, Volume>)
    requires n < |commands| && Traced(commands[..n], trace) && Next(commands[n], trace[n], volumes)
    ensures Traced(commands[..n + 1], trace + [volumes])
    ensures forall i :: 0 <= i <= n ==> (trace + [volumes])[i] == trace[i]
  {
    hide Next;
    var next := trace + [volumes];
    forall i | 0 <= i < n + 1 ensures Next(commands[..n + 1][i], next[i], next[i + 1]) {
      assert i < n ==> commands[..n][i] == commands[i] && next[i] == trace[i] && next[i + 1] == trace[i + 1];
    }
  }

  // ---- three runs that break a promise

  /** A data fork that the server numbers 0 is freed by its close and stays on its volume's list. */
  method ForkZero() returns (d: Daemon)
    ensures fresh(d) && !d.Valid()
  {
    hide SlotsOk, ListsOk, Owned;
    d := new Daemon();
    d.Connect({1});
    var _ := d.Attach(1, FIXED);
    assert d.table[1] == Names([], 1) == None;
    var _, id := d.ProcessOpen(1, true, 10, Some(Record(DATA, 0)));
    assert Names(d.history, id) == Some(Handle(10, 1));
    var _ := d.ProcessClose(id, 1, true, OK);
  }

  /** A fork on a volume that was never attached is left behind when its server is disconnected. */
  method ForkLeft() returns (d: Daemon)
    ensures fresh(d) && d.Valid() && !d.AllOwned()
  {
    hide SlotsOk, ListsOk, Names;
    d := new Daemon();
    d.Connect({1});
    assert d.AllOwned();
    EmptyTable(d);
    var _, _ := d.ProcessOpen(1, true, 10, Some(Record(DATA, 1)));
    assert 1 in VolumeSet([1]) && d.volumes[1].forks == [10];
    d.ProcessDisconnect([1]);
  }

  /** A volume without fixed directory IDs is attached twice in vain, and a fork is opened in between: its handle goes
      on naming a record that was freed. */
  method ForkDangles() returns (d: Daemon, id: nat)
    ensures fresh(d) && !d.Valid()
    ensures 0 < id < d.table.Length && d.table[id] == Some(Handle(10, 1)) && 10 !in d.records
  {
    hide SlotsOk, ListsOk, Owned, Names;
    var outcome;
    d := new Daemon();
    d.Connect({1});
    outcome := d.Attach(1, UNFIXED);
    EmptyTable(d);
    outcome, id := d.ProcessOpen(1, true, 10, Some(Record(DATA, 1)));
    assert d.volumes[1].forks == [10] && 10 in Elements([10]);
    outcome := d.Attach(1, UNFIXED);
  }

  lemma EmptyTable(d: Daemon)
    requires d.Valid() && d.history == []
    ensures d.table[1] == None
  {
    hide SlotsOk, ListsOk;
  }
}
