/** The open-file handles of afpsld, daemon/commands.c: a table of slots that name open records, beside each volume's
    own list of open forks (lib/forklist.c). Commands run one at a time, under server_op_mutex. */
module Handles {
  import opened Bytes

  const MAX_OPEN_FILES := 1024

  /** What a record is open on: a data fork, a resource fork, or a pseudo-file that no list of forks holds. */
  datatype Resource = DATA | RESOURCE | PSEUDO

  datatype Record = Record(resource: Resource, forkid: nat)

  /** A record's address, and a volume's. */
  type Address = nat
  type VolumeId = nat

  datatype Handle = Handle(fp: Address, volume: VolumeId)

  datatype Volume = Volume(attached: bool, forks: seq<Address>)

  datatype Outcome = OK | ERROR | NOTATTACHED | NOTCONNECTED | FAILED

  // ---- which record a handle names, by the history of commands

  datatype Step = Opened(id: int, handle: Handle) | Closed(id: int) | Released(volume: VolumeId)

  ghost function Names(history: seq<Step>, id: int): Option<Handle> {
    if history == [] then None else
      var before := Names(history[..|history| - 1], id);
      match history[|history| - 1]
      case Opened(i, handle) => if i == id then Some(handle) else before
      case Closed(i) => if i == id then None else before
      case Released(v) => if before.Some? && before.value.volume == v then None else before
  }

  lemma NamesSnoc(history: seq<Step>, s: Step, id: int)
    ensures Names(history + [s], id) ==
      var before := Names(history, id);
      match s
      case Opened(i, handle) => if i == id then Some(handle) else before
      case Closed(i) => if i == id then None else before
      case Released(v) => if before.Some? && before.value.volume == v then None else before
  {
    assert (history + [s])[..|history|] == history;
  }

  /** Once closed, or released with its volume, a handle names nothing until an open issues it again. */
  lemma {:induction false} DeadUntilReissued(before: seq<Step>, s: Step, after: seq<Step>, id: int)
    requires s == Closed(id) || (s.Released? && (Names(before, id).Some? ==> Names(before, id).value.volume == s.volume))
    requires forall i :: 0 <= i < |after| && after[i].Opened? ==> after[i].id != id
    ensures Names(before + [s] + after, id) == None
  {
    if after == [] {
      assert before + [s] + after == before + [s];
      NamesSnoc(before, s, id);
    } else {
      var n := |after| - 1;
      DeadUntilReissued(before, s, after[..n], id);
      assert before + [s] + after == (before + [s] + after[..n]) + [after[n]];
      NamesSnoc(before + [s] + after[..n], after[n], id);
    }
  }

  // ---- the table, the records and the lists

  predicate Pseudo(r: Record) {
    r.resource == PSEUDO
  }

  ghost predicate SlotOf(t: seq<Option<Handle>>, fp: Address, v: VolumeId) {
    exists i :: 0 <= i < |t| && t[i] == Some(Handle(fp, v))
  }

  ghost predicate Unique(forks: seq<Address>) {
    forall i, j :: 0 <= i < j < |forks| ==> forks[i] != forks[j]
  }

  /** Each occupied slot names its own live record, on the list of its volume unless it is a pseudo-file's. */
  ghost predicate SlotsOk(t: seq<Option<Handle>>, records: map<Address, Record>, volumes: map<VolumeId, Volume>) {
    && (forall i, j :: 0 <= i < j < |t| && t[i].Some? && t[j].Some? ==> t[i].value.fp != t[j].value.fp)
    && forall i :: 0 <= i < |t| && t[i].Some? ==>
         && t[i].value.fp in records && t[i].value.volume in volumes
         && (!Pseudo(records[t[i].value.fp]) ==> t[i].value.fp in volumes[t[i].value.volume].forks)
  }

  /** Each listed record is a live fork with a slot of that volume. */
  ghost predicate ListsOk(t: seq<Option<Handle>>, records: map<Address, Record>, volumes: map<VolumeId, Volume>) {
    forall v :: v in volumes ==>
      && Unique(volumes[v].forks)
      && forall fp :: fp in volumes[v].forks ==> fp in records && !Pseudo(records[fp]) && SlotOf(t, fp, v)
  }

  /** Every live record has a slot. */
  ghost predicate Owned(t: seq<Option<Handle>>, records: map<Address, Record>) {
    forall fp :: fp in records ==> exists i :: 0 <= i < |t| && t[i].Some? && t[i].value.fp == fp
  }

  /** The slots with those of some volumes cleared. */
  ghost function Cleared(t: seq<Option<Handle>>, vs: set<VolumeId>): (c: seq<Option<Handle>>)
    ensures |c| == |t|
    ensures forall i :: 0 <= i < |t| ==> c[i] == if t[i].Some? && t[i].value.volume in vs then None else t[i]
  {
    seq(|t|, i requires 0 <= i < |t| => if t[i].Some? && t[i].value.volume in vs then None else t[i])
  }

  /** The pseudo-files' records that slots of some volumes name. */
  ghost function PseudoOf(t: seq<Option<Handle>>, records: map<Address, Record>, vs: set<VolumeId>): set<Address> {
    set i | 0 <= i < |t| && t[i].Some? && t[i].value.volume in vs && t[i].value.fp in records
            && Pseudo(records[t[i].value.fp]) :: t[i].value.fp
  }

  ghost function Elements(forks: seq<Address>): set<Address> {
    set fp | fp in forks
  }

  lemma Spliced(forks: seq<Address>, i: nat)
    requires Unique(forks) && i < |forks|
    ensures var r := forks[..i] + forks[i + 1..];
      Unique(r) && forall x :: x in r <==> x in forks && x != forks[i]
  {
    var r := forks[..i] + forks[i + 1..];
    forall x ensures x in r <==> x in forks && x != forks[i] {
      if x in forks && x != forks[i] {
        var k :| 0 <= k < |forks| && forks[k] == x;
        assert r[if k < i then k else k - 1] == x;
      }
      if x in r {
        var k :| 0 <= k < |r| && r[k] == x;
        assert forks[if k < i then k else k + 1] == x;
      }
    }
  }

  // ---- what each command does to them

  /** A new record takes a free slot. */
  lemma OpenKeeps(t: seq<Option<Handle>>, records: map<Address, Record>, volumes: map<VolumeId, Volume>,
                  i: nat, fp: Address, v: VolumeId, r: Record)
    requires SlotsOk(t, records, volumes) && ListsOk(t, records, volumes)
    requires i < |t| && t[i].None? && v in volumes && fp !in records
    ensures var t', records' := t[i := Some(Handle(fp, v))], records[fp := r];
      var volumes' := if Pseudo(r) then volumes else volumes[v := volumes[v].(forks := [fp] + volumes[v].forks)];
      SlotsOk(t', records', volumes') && ListsOk(t', records', volumes')
  {
    var t', records' := t[i := Some(Handle(fp, v))], records[fp := r];
    var volumes' := if Pseudo(r) then volumes else volumes[v := volumes[v].(forks := [fp] + volumes[v].forks)];
    forall x, w | SlotOf(t, x, w) ensures SlotOf(t', x, w) {
      var k :| 0 <= k < |t| && t[k] == Some(Handle(x, w));
      assert t'[k] == Some(Handle(x, w));
    }
    assert t'[i] == Some(Handle(fp, v));
    forall w | w in volumes'
      ensures Unique(volumes'[w].forks)
      ensures forall x :: x in volumes'[w].forks ==> x in records' && !Pseudo(records'[x]) && SlotOf(t', x, w)
    {
      assert Unique(volumes[w].forks);
    }
  }

  lemma OpenOwns(t: seq<Option<Handle>>, records: map<Address, Record>, i: nat, h: Handle, r: Record)
    requires i < |t| && t[i].None? && Owned(t, records)
    ensures Owned(t[i := Some(h)], records[h.fp := r])
  {
    var t', records' := t[i := Some(h)], records[h.fp := r];
    forall x | x in records' ensures exists k :: 0 <= k < |t'| && t'[k].Some? && t'[k].value.fp == x {
      if x == h.fp {
        assert t'[i].value.fp == x;
      } else {
        var k :| 0 <= k < |t| && t[k].Some? && t[k].value.fp == x;
        assert t'[k].value.fp == x;
      }
    }
  }

  /** A slot and its record go, and the record leaves its list. */
  lemma CloseKeeps(t: seq<Option<Handle>>, records: map<Address, Record>, volumes: map<VolumeId, Volume>,
                   i: nat, forks: seq<Address>)
    requires SlotsOk(t, records, volumes) && ListsOk(t, records, volumes)
    requires i < |t| && t[i].Some?
    requires Unique(forks)
    requires forall x :: x in forks <==> x in volumes[t[i].value.volume].forks && x != t[i].value.fp
    ensures var t', records' := t[i := None], records - {t[i].value.fp};
      var volumes' := volumes[t[i].value.volume := volumes[t[i].value.volume].(forks := forks)];
      SlotsOk(t', records', volumes') && ListsOk(t', records', volumes')
  {
    var fp, v := t[i].value.fp, t[i].value.volume;
    var t', records' := t[i := None], records - {fp};
    var volumes' := volumes[v := volumes[v].(forks := forks)];
    forall w, x | w in volumes' && x in volumes'[w].forks
      ensures x in records' && !Pseudo(records'[x]) && SlotOf(t', x, w)
    {
      assert x in volumes[w].forks;
      var k :| 0 <= k < |t| && t[k] == Some(Handle(x, w));
      assert k != i;
      assert t'[k] == Some(Handle(x, w));
    }
    forall w | w in volumes' ensures Unique(volumes'[w].forks) {
      assert w != v ==> Unique(volumes[w].forks);
    }
  }

  lemma CloseOwns(t: seq<Option<Handle>>, records: map<Address, Record>, i: nat)
    requires i < |t| && t[i].Some? && Owned(t, records)
    ensures Owned(t[i := None], records - {t[i].value.fp})
  {
    var t', records' := t[i := None], records - {t[i].value.fp};
    forall x | x in records' ensures exists k :: 0 <= k < |t'| && t'[k].Some? && t'[k].value.fp == x {
      var k :| 0 <= k < |t| && t[k].Some? && t[k].value.fp == x;
      assert t'[k].value.fp == x;
    }
  }

  /** The slots of some volumes go, with the lists of those volumes. */
  lemma ReleaseKeeps(t: seq<Option<Handle>>, records: map<Address, Record>, volumes: map<VolumeId, Volume>,
                     vs: set<VolumeId>, records': map<Address, Record>, volumes': map<VolumeId, Volume>)
    requires SlotsOk(t, records, volumes) && ListsOk(t, records, volumes)
    requires forall i :: 0 <= i < |t| && t[i].Some? && t[i].value.volume !in vs ==>
      t[i].value.fp in records' && records'[t[i].value.fp] == records[t[i].value.fp]
    requires forall v :: v in volumes' && v in vs ==> volumes'[v].forks == []
    requires forall v :: v !in vs ==> (v in volumes' <==> v in volumes)
    requires forall v :: v in volumes' && v !in vs ==> volumes'[v] == volumes[v]
    ensures SlotsOk(Cleared(t, vs), records', volumes') && ListsOk(Cleared(t, vs), records', volumes')
  {
    var t' := Cleared(t, vs);
    forall v, x | v in volumes' && x in volumes'[v].forks
      ensures x in records' && !Pseudo(records'[x]) && SlotOf(t', x, v)
    {
      var i :| 0 <= i < |t| && t[i] == Some(Handle(x, v));
      assert t'[i] == Some(Handle(x, v));
    }
    forall v | v in volumes' ensures Unique(volumes'[v].forks) {
      assert v !in vs ==> Unique(volumes[v].forks);
    }
  }

  /** Which records go when the slots of some volumes do: those slots' pseudo-files and the forks freed with them. */
  lemma ReleaseOwns(t: seq<Option<Handle>>, records: map<Address, Record>, volumes: map<VolumeId, Volume>,
                    vs: set<VolumeId>, freed: set<VolumeId>, records': map<Address, Record>)
    requires SlotsOk(t, records, volumes) && ListsOk(t, records, volumes)
    requires freed <= vs && freed <= volumes.Keys && vs <= volumes.Keys
    requires forall x :: x in records' <==>
      x in records && x !in PseudoOf(t, records, vs) && !exists v :: v in freed && x in volumes[v].forks
    ensures forall i :: 0 <= i < |t| && t[i].Some? && t[i].value.volume !in vs ==> t[i].value.fp in records'
    ensures Owned(t, records) ==>
      (Owned(Cleared(t, vs), records') <==> forall v :: v in vs - freed ==> volumes[v].forks == [])
  {
    var t' := Cleared(t, vs);
    forall i | 0 <= i < |t| && t[i].Some? && t[i].value.volume !in vs ensures t[i].value.fp in records' {
      OtherVolume(t, records, volumes, vs, i);
    }
    if Owned(t, records) {
      if forall v :: v in vs - freed ==> volumes[v].forks == [] {
        forall x | x in records' ensures exists k :: 0 <= k < |t'| && t'[k].Some? && t'[k].value.fp == x {
          var k :| 0 <= k < |t| && t[k].Some? && t[k].value.fp == x;
          assert t[k].value.volume !in vs;
          assert t'[k].Some? && t'[k].value.fp == x;
        }
      } else {
        var v :| v in vs - freed && volumes[v].forks != [];
        LeftBehind(t, records, volumes, vs, freed, records', v);
      }
    }
  }

  lemma OneSlot(t: seq<Option<Handle>>, records: map<Address, Record>, volumes: map<VolumeId, Volume>, i: nat, v: VolumeId)
    requires SlotsOk(t, records, volumes) && i < |t| && t[i].Some?
    ensures SlotOf(t, t[i].value.fp, v) ==> t[i].value.volume == v
  {
  }

  /** A slot of another volume names neither a pseudo-file's record nor a fork of these. */
  lemma OtherVolume(t: seq<Option<Handle>>, records: map<Address, Record>, volumes: map<VolumeId, Volume>,
                    vs: set<VolumeId>, i: nat)
    requires SlotsOk(t, records, volumes) && ListsOk(t, records, volumes)
    requires i < |t| && t[i].Some? && t[i].value.volume !in vs
    ensures t[i].value.fp !in PseudoOf(t, records, vs)
    ensures forall v :: v in vs && v in volumes ==> t[i].value.fp !in volumes[v].forks
  {
    var x := t[i].value.fp;
    forall v | v in vs && v in volumes ensures x !in volumes[v].forks {
      OneSlot(t, records, volumes, i, v);
    }
  }

  /** A fork listed on a volume whose list is not freed stays live without a slot. */
  lemma LeftBehind(t: seq<Option<Handle>>, records: map<Address, Record>, volumes: map<VolumeId, Volume>,
                   vs: set<VolumeId>, freed: set<VolumeId>, records': map<Address, Record>, v: VolumeId)
    requires SlotsOk(t, records, volumes) && ListsOk(t, records, volumes)
    requires freed <= vs && freed <= volumes.Keys && vs <= volumes.Keys
    requires forall x :: x in records' <==>
      x in records && x !in PseudoOf(t, records, vs) && !exists w :: w in freed && x in volumes[w].forks
    requires v in vs - freed && volumes[v].forks != []
    ensures !Owned(Cleared(t, vs), records')
  {
    var x, t' := volumes[v].forks[0], Cleared(t, vs);
    assert x in volumes[v].forks;
    var i :| 0 <= i < |t| && t[i] == Some(Handle(x, v));
    forall w | w in freed ensures x !in volumes[w].forks {
      OneSlot(t, records, volumes, i, w);
    }
    assert x in records';
    forall k | 0 <= k < |t'| && t'[k].Some? ensures t'[k].value.fp != x {
      assert t'[k] == t[k] && k != i;
    }
  }
}
