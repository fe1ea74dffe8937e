/** The copy of a remote file's metadata to a local file in Netatalk mode: afp_metadata_clear_local and
    afp_sl_metadata_copy_remote_to_local of daemon/metadata.c. */
module Transfer {
  import opened Bytes
  import opened EaHeader
  import opened NameList
  import opened MetadataNames
  import opened Attributes
  import opened RemoteCalls
  import AppleDouble
  import Sidecar
  import ForkOnTable

  datatype Warning = Unsupported | ListTooLarge | ValueTooLarge

  /** transfer_metadata_result: an absent item is no failure, and an unsupported one only warns. */
  function Outcome(r: Result<()>): (o: (Result<()>, set<Warning>)) {
    if r.Ok? || r.error == ENOATTR then (Ok(()), {})
    else if r.error == ENOTSUP then (Ok(()), {Unsupported})
    else (r, {})
  }

  // ----- the local files

  ghost predicate SameAt(before: map<Path, File>, after: map<Path, File>, p: Path) {
    (p in after <==> p in before) && (p in after ==> after[p] == before[p])
  }

  /** A change of the sidecar leaves the attributes as they were. */
  lemma SidecarApart(before: map<Path, File>, after: map<Path, File>, ad: Path)
    requires Sidecar.OnlyAt(before, after, ad)
    ensures Readable(after, ad) <==> Readable(before, ad)
    ensures Readable(after, ad) ==> Attrs(after, ad) == Attrs(before, ad)
  {
    assert HeaderPath(ad) != ad;
    assert forall items :: Stored(after, ad, items) <==> Stored(before, ad, items);
    if Readable(after, ad) {
      var items :| Stored(after, ad, items);
      SidecarValues(before, after, ad, items);
    }
  }

  lemma SidecarValues(before: map<Path, File>, after: map<Path, File>, ad: Path, items: seq<EaItem>)
    requires Sidecar.OnlyAt(before, after, ad) && Stored(before, ad, items) && Stored(after, ad, items)
    ensures Readable(before, ad) && Readable(after, ad) && Attrs(after, ad) == Attrs(before, ad)
  {
    hide ValuePath, HeaderPath, Header, Attrs;
    AttrsAre(after, ad, items);
    AttrsAre(before, ad, items);
    ValuesAre(before, ad, items, Values(after, ad, items));
  }

  /** A change of an attribute leaves the sidecar as it was. */
  lemma AttrApart(before: map<Path, File>, after: map<Path, File>, ad: Path, name: Name)
    requires OnlyAttr(before, after, ad, name)
    ensures SameAt(before, after, ad)
  {
    assert HeaderPath(ad) != ad;
  }

  lemma SameView(before: map<Path, File>, after: map<Path, File>, ad: Path)
    requires SameAt(before, after, ad)
    ensures Sidecar.Usable(after, ad) <==> Sidecar.Usable(before, ad)
    ensures Sidecar.Narrow(after, ad) <==> Sidecar.Narrow(before, ad)
    ensures Sidecar.View(after, ad) == Sidecar.View(before, ad)
    ensures ForkOnTable.OnTableAt(before, ad) ==> ad in after && after[ad] == before[ad]
  {
  }

  // ----- afp_metadata_clear_local

  /** The attributes a transfer leaves alone. */
  function Kept(m: map<Name, Option<seq<byte>>>): map<Name, Option<seq<byte>>> {
    map n | n in m && !Transferable(n) :: m[n]
  }

  /** The map without the transferable ones of some names. */
  ghost function Cleared(m: map<Name, Option<seq<byte>>>, names: seq<Name>): map<Name, Option<seq<byte>>> {
    map n | n in m && !(Transferable(n) && n in names) :: m[n]
  }

  lemma ClearedNone(m: map<Name, Option<seq<byte>>>)
    ensures Cleared(m, []) == m && |Joined([])| == 0
  {
    hide Transferable;
  }

  lemma ClearedNext(m: map<Name, Option<seq<byte>>>, names: seq<Name>, k: nat)
    requires k < |names|
    ensures Cleared(m, names[..k + 1]) ==
      if Transferable(names[k]) then Cleared(m, names[..k]) - {names[k]} else Cleared(m, names[..k])
  {
    hide Transferable;
    assert names[..k + 1] == names[..k] + [names[k]];
  }

  lemma ClearedAll(m: map<Name, Option<seq<byte>>>, names: seq<Name>)
    requires Enumerates(names, Unfiltered(m.Keys))
    ensures Cleared(m, names) == Kept(m) && CStrings(names)
  {
  }

  /** local_metadata_remove: a name it would not store is refused, and an absent one is no failure. */
  method RemoveLocal(disk: Disk, ad: Path, name: Name) returns (r: Result<()>)
    modifies disk
    ensures r.Ok? <==> ValidName(name) && old(Readable(disk.files, ad))
    ensures r.Ok? ==> Readable(disk.files, ad) && Attrs(disk.files, ad) == old(Attrs(disk.files, ad)) - {name}
    ensures SameAt(old(disk.files), disk.files, ad)
  {
    hide Readable, Attrs, OnlyAttr, ValidName;
    if !ValidName(name) {
      return Err(EINVAL);
    }
    var removed := NetatalkRemove(disk, ad, name);
    AttrApart(old(disk.files), disk.files, ad, name);
    return Outcome(removed).0;
  }

  /** Every attribute a clear removes has a name it may remove. */
  ghost predicate Removable(m: map<Name, Option<seq<byte>>>) {
    forall n :: n in m && Transferable(n) ==> ValidName(n)
  }

  /** The removal loop of afp_metadata_clear_local. */
  method ClearNames(disk: Disk, ad: Path, list: seq<byte>, ghost names: seq<Name>) returns (r: Result<()>)
    requires Readable(disk.files, ad)
    requires list == Joined(names) && Enumerates(names, Unfiltered(Attrs(disk.files, ad).Keys))
    modifies disk
    ensures r.Ok? <==> Removable(old(Attrs(disk.files, ad)))
    ensures r.Ok? ==> Readable(disk.files, ad) && Attrs(disk.files, ad) == Kept(old(Attrs(disk.files, ad)))
    ensures SameAt(old(disk.files), disk.files, ad)
  {
    hide Readable, Attrs, Transferable, Kept, OnlyAttr, Joined, Cleared, Enumerates, Unfiltered, CStrings, ValidName, Removable, AllRemovable;
    ghost var m := Attrs(disk.files, ad);
    ClearedNone(m);
    ClearedAll(m, names);
    assert AllRemovable([]) by { NoneToRemove(); }
    assert names[..0] == [] && names[..|names|] == names;
    var position := 0;
    ghost var k := 0;
    while true
      invariant k <= |names| && position == |Joined(names[..k])|
      invariant Readable(disk.files, ad) && Attrs(disk.files, ad) == Cleared(m, names[..k])
      invariant AllRemovable(names[..k])
      invariant SameAt(old(disk.files), disk.files, ad)
      decreases |names| - k
    {
      var name, next := NextName(list, position, names, k);
      if name.None? {
        break;
      }
      ClearedNext(m, names, k);
      if Transferable(name.value) {
        r := RemoveLocal(disk, ad, name.value);
        if r.Err? {
          NotRemovable(m, names, k);
          return;
        }
      }
      RemovableNext(names, k);
      position, k := next, k + 1;
    }
    RemovableAll(m, names);
    return Ok(());
  }

  lemma NoneToRemove()
    ensures AllRemovable([])
  {
  }

  predicate AllRemovable(names: seq<Name>) {
    forall i :: 0 <= i < |names| && Transferable(names[i]) ==> ValidName(names[i])
  }

  lemma RemovableNext(names: seq<Name>, k: nat)
    requires k < |names| && AllRemovable(names[..k]) && (Transferable(names[k]) ==> ValidName(names[k]))
    ensures AllRemovable(names[..k + 1])
  {
    hide Transferable, ValidName;
    assert names[..k + 1] == names[..k] + [names[k]];
  }

  lemma RemovableAll(m: map<Name, Option<seq<byte>>>, names: seq<Name>)
    requires Enumerates(names, Unfiltered(m.Keys)) && AllRemovable(names)
    ensures Removable(m)
  {
    forall n | n in m && Transferable(n) ensures ValidName(n) {
      assert n in Unfiltered(m.Keys);
      var i :| 0 <= i < |names| && names[i] == n;
    }
  }

  lemma NotRemovable(m: map<Name, Option<seq<byte>>>, names: seq<Name>, k: nat)
    requires Enumerates(names, Unfiltered(m.Keys)) && k < |names| && Transferable(names[k]) && !ValidName(names[k])
    ensures !Removable(m)
  {
    hide ValidName;
    assert names[k] in Unfiltered(m.Keys);
  }

  /** afp_metadata_clear_local: FinderInfo, fork and transferable attributes go, and the rest stays. */
  method ClearLocal(disk: Disk, ad: Path) returns (r: Result<()>)
    modifies disk
    ensures old(Sidecar.Placed(disk.files, ad)) ==>
      && Sidecar.View(disk.files, ad) == Sidecar.EMPTY
      && if old(Sidecar.Narrow(disk.files, ad)) then Sidecar.Narrow(disk.files, ad) else Sidecar.Usable(disk.files, ad)
    ensures old(ForkOnTable.OnTableAt(disk.files, ad)) ==> Emptied(old(disk.files[ad]), disk.files, ad)
    ensures old(Sidecar.Placed(disk.files, ad) || ForkOnTable.OnTableAt(disk.files, ad)) ==>
      (r.Ok? <==> old(Readable(disk.files, ad)) && Removable(old(Attrs(disk.files, ad))))
    ensures old(Sidecar.Lacking(disk.files, ad)) ==> r.Err?
    ensures r.Ok? ==>
      && old(Readable(disk.files, ad)) && Readable(disk.files, ad)
      && Attrs(disk.files, ad) == Kept(old(Attrs(disk.files, ad)))
  {
    hide Sidecar.Lacking, Sidecar.Placed, Sidecar.Narrow, Sidecar.Usable, Sidecar.View, ForkOnTable.OnTable;
    hide Readable, Attrs, Kept, Joined, Enumerates, Removable, ForkOnTable.Stays, ForkOnTable.Blank;
    var cleared := ClearSidecar(disk, ad);
    if cleared.Err? {
      return cleared;
    }
    var list, names := NetatalkList(disk, ad);
    if list.Err? {
      return Err(list.error);
    }
    label Names:
    r := ClearNames(disk, ad, list.value, names);
    SameView(old@Names(disk.files), disk.files, ad);
  }

  /** What clearing makes of a file whose fork is on its table: one that a write lays out anew, or a table with zeros at
      its end. */
  ghost predicate Emptied(f: File, after: map<Path, File>, ad: Path)
    requires ForkOnTable.OnTable(f)
  {
    if ForkOnTable.Stays(f) then ad in after && after[ad] == ForkOnTable.Blank(f)
    else Sidecar.Usable(after, ad) && Sidecar.View(after, ad) == Sidecar.EMPTY
  }

  /** The removal of FinderInfo and of the fork, which comes first. */
  method ClearSidecar(disk: Disk, ad: Path) returns (r: Result<()>)
    modifies disk
    ensures old(Sidecar.Placed(disk.files, ad)) ==>
      && r.Ok? && Sidecar.View(disk.files, ad) == Sidecar.EMPTY
      && if old(Sidecar.Narrow(disk.files, ad)) then Sidecar.Narrow(disk.files, ad) else Sidecar.Usable(disk.files, ad)
    ensures old(ForkOnTable.OnTableAt(disk.files, ad)) ==> r.Ok? && Emptied(old(disk.files[ad]), disk.files, ad)
    ensures old(Sidecar.Lacking(disk.files, ad)) ==> r.Err?
    ensures Readable(disk.files, ad) <==> old(Readable(disk.files, ad))
    ensures Readable(disk.files, ad) ==> Attrs(disk.files, ad) == old(Attrs(disk.files, ad))
  {
    hide Readable, Attrs, Sidecar.View, Sidecar.Usable, Sidecar.Narrow, Sidecar.Placed, Sidecar.OnlyAt;
    hide AppleDouble.Accepted, AppleDouble.InfoOf, AppleDouble.Sound, AppleDouble.Orderly, AppleDouble.Apart, AppleDouble.TableEnd;
    hide Sidecar.ForkStored, Sidecar.Stored, Sidecar.SameShape, Sidecar.HasRoom, Sidecar.OffFork, Sidecar.InfoApart, Pwrite;
    hide ForkOnTable.OnTable, ForkOnTable.Stays, ForkOnTable.Blank, Emptied;
    Sidecar.PlacedMeans(disk.files, ad);
    if ForkOnTable.OnTableAt(disk.files, ad) {
      OnTableMeans(disk.files, ad);
    }
    var f := Sidecar.AdFinderSet(disk, ad, true, Zeros(32));
    SidecarApart(old(disk.files), disk.files, ad);
    if f.Err? {
      return Err(f.error);
    }
    if old(Sidecar.Placed(disk.files, ad) && Sidecar.AcceptedAt(disk.files, ad)) {
      Sidecar.ShapeAccepted(old(disk.files[ad]), disk.files[ad]);
    }
    label Fork:
    var w := Sidecar.AdResourceWrite(disk, ad, true, [], 0);
    SidecarApart(old@Fork(disk.files), disk.files, ad);
    if w.Err? {
      return Err(w.error);
    }
    if old(Sidecar.Placed(disk.files, ad)) {
      Sidecar.Clears(old(disk.files), old@Fork(disk.files), disk.files, ad);
    }
    if old(ForkOnTable.OnTableAt(disk.files, ad)) {
      ForkOnTable.SetCutOff(old(disk.files[ad]), old@Fork(disk.files[ad]));
      EmptiedIs(old(disk.files[ad]), disk.files, ad);
    }
    return Ok(());
  }

  lemma OnTableMeans(files: map<Path, File>, ad: Path)
    requires ForkOnTable.OnTableAt(files, ad)
    ensures ad in files && AppleDouble.Accepted(files[ad]) && Sidecar.InfoApart(files, ad)
    ensures AppleDouble.InfoOf(files[ad]).resource.offset > 0
  {
  }

  lemma EmptiedIs(f: File, after: map<Path, File>, ad: Path)
    requires ForkOnTable.OnTable(f) && ad in after && after[ad] == Sidecar.ForkStored(f, [], 0)
    ensures Emptied(f, after, ad)
  {
    hide AppleDouble.Accepted, ForkOnTable.OnTable, ForkOnTable.Blank, ForkOnTable.Stays, Sidecar.ForkStored;
    ForkOnTable.ClearedStays(f);
    Sidecar.PlacedMeans(after, ad);
  }

  // ----- afp_sl_metadata_copy_remote_to_local

  /** The remote attributes a copy brings, in the order it sets them. */
  function Puts(src: Remote, names: seq<Name>): (ops: seq<AttrOp>)
    requires forall i :: 0 <= i < |names| ==> names[i] in src.attrs
  {
    if names == [] then []
    else
      var front, last := names[..|names| - 1], names[|names| - 1];
      Puts(src, front) + if Transferable(last) then [Put(last, src.attrs[last])] else []
  }

  /** The transferable ones of some names, with their remote values. */
  function CopiedOf(src: Remote, names: seq<Name>): map<Name, Option<seq<byte>>> {
    map n | n in names && n in src.attrs && Transferable(n) :: Some(src.attrs[n])
  }

  function Copied(src: Remote): map<Name, Option<seq<byte>>> {
    CopiedOf(src, src.order)
  }

  /** What the local store can hold: names the loader reads again, and no more of them than it admits. */
  predicate InBounds(kept: map<Name, Option<seq<byte>>>, copied: map<Name, Option<seq<byte>>>) {
    (forall n :: n in copied ==> |n| < NAME_MAX) && |kept| + |copied| <= EA_MAX_ITEMS
  }

  /** A sidecar with an empty fork that writes can extend. */
  ghost predicate Ready(files: map<Path, File>, ad: Path) {
    (Sidecar.Usable(files, ad) || Sidecar.Narrow(files, ad)) && Sidecar.View(files, ad).fork == []
  }

  /** A file that is accepted, and has no place for a fork. */
  ghost predicate NoFork(files: map<Path, File>, ad: Path) {
    ad in files && AppleDouble.Accepted(files[ad]) && AppleDouble.InfoOf(files[ad]).resource.offset == 0
  }

  /** The local fork is the first bytes of the source's. */
  ghost predicate Begun(files: map<Path, File>, ad: Path, src: Remote, offset: nat, info: seq<byte>)
    requires offset <= |src.fork|
  {
    && (Sidecar.Usable(files, ad) || Sidecar.Narrow(files, ad))
    && Sidecar.View(files, ad) == Sidecar.AdState(info, src.fork[..offset])
  }

  /** The local fork is they, with its length over them. */
  ghost predicate BegunOver(files: map<Path, File>, ad: Path, src: Remote, offset: nat, covered: nat)
    requires offset <= |src.fork| <= UINT32_MAX
  {
    && ForkOnTable.EdgeAt(files, ad, covered) && covered <= 4
    && Sidecar.View(files, ad) == Sidecar.AdState(Zeros(32), ForkOnTable.Overlaid(src.fork[..offset], covered))
  }

  lemma NarrowPlaced(files: map<Path, File>, ad: Path)
    requires Sidecar.Narrow(files, ad)
    ensures ad in files && AppleDouble.Accepted(files[ad]) && AppleDouble.InfoOf(files[ad]).resource.offset > 0
    ensures AppleDouble.InfoOf(files[ad]).finder.offset > 0
  {
    AppleDouble.ApartPlaces(files[ad]);
  }

  lemma NotTooBig(size: nat, offset: nat)
    requires offset + size <= 0x7fff_ffff
    ensures !Sidecar.TooBig(size, offset)
  {
  }

  /** One write of the fork loop. */
  method WriteChunk(disk: Disk, ad: Path, src: Remote, offset: nat, data: seq<byte>, ghost info: seq<byte>,
                    ghost covered: nat)
    returns (r: Result<()>)
    requires Stable(src) && data != [] && offset + |data| <= |src.fork| && data == src.fork[offset..offset + |data|]
    modifies disk
    ensures old(Begun(disk.files, ad, src, offset, info)) && r.Ok? ==> Begun(disk.files, ad, src, offset + |data|, info)
    ensures old(BegunOver(disk.files, ad, src, offset, covered)) && r.Ok? ==>
      BegunOver(disk.files, ad, src, offset + |data|, covered)
    ensures old(NoFork(disk.files, ad)) ==> r.Err?
    ensures old(Begun(disk.files, ad, src, offset, info) || BegunOver(disk.files, ad, src, offset, covered)) ==> r.Ok?
    ensures Readable(disk.files, ad) <==> old(Readable(disk.files, ad))
    ensures Readable(disk.files, ad) ==> Attrs(disk.files, ad) == old(Attrs(disk.files, ad))
  {
    hide Readable, Attrs, Sidecar.Usable, Sidecar.Narrow, Sidecar.View, Sidecar.OnlyAt;
    hide AppleDouble.Accepted, AppleDouble.InfoOf, AppleDouble.Sound, AppleDouble.Orderly, AppleDouble.Apart, AppleDouble.TableEnd;
    hide Sidecar.ForkStored, Sidecar.Stored, Sidecar.SameShape, Sidecar.HasRoom, Sidecar.OffFork, Sidecar.InfoApart, Pwrite;
    hide ForkOnTable.EdgeAt, ForkOnTable.Overlaid, Sidecar.Written, Sidecar.EmptyPastEnd, Sidecar.TooBig;
    ghost var begun, over := Begun(disk.files, ad, src, offset, info), BegunOver(disk.files, ad, src, offset, covered);
    if over {
      ForkOnTable.EdgeAtMeans(disk.files, ad, covered);
    }
    if begun && !Sidecar.Usable(disk.files, ad) {
      NarrowPlaced(disk.files, ad);
    }
    NotTooBig(|data|, offset);
    r := Sidecar.AdResourceWrite(disk, ad, true, data, offset);
    SidecarApart(old(disk.files), disk.files, ad);
    if r.Ok? {
      ChunkLands(src.fork, offset, data);
      if begun && !old(Sidecar.Usable(disk.files, ad)) {
        Sidecar.NarrowMeans(old(disk.files), ad);
        Sidecar.NarrowGrows(old(disk.files), disk.files, ad, data);
      }
      if over {
        ForkOnTable.EdgeGrows(old(disk.files), disk.files, ad, src.fork, offset, data, covered);
      }
    }
  }

  /** The loop itself. */
  method ForkLoop(disk: Disk, ad: Path, src: Remote, a: Answers, total: nat, ghost info: seq<byte>, ghost covered: nat)
    returns (r: Result<()>)
    requires Stable(src) && total == |src.fork|
    modifies disk
    ensures old(Begun(disk.files, ad, src, 0, info)) && r.Ok? ==> Begun(disk.files, ad, src, |src.fork|, info)
    ensures old(BegunOver(disk.files, ad, src, 0, covered)) && r.Ok? ==>
      BegunOver(disk.files, ad, src, |src.fork|, covered)
    ensures old(Begun(disk.files, ad, src, 0, info) || BegunOver(disk.files, ad, src, 0, covered)) ==>
      (r.Ok? <==> RestArrives(src, a, 0, 0))
    ensures src.fork == [] ==> r.Ok? && disk.files == old(disk.files)
    ensures old(NoFork(disk.files, ad)) && r.Ok? ==> src.fork == []
    ensures Readable(disk.files, ad) <==> old(Readable(disk.files, ad))
    ensures Readable(disk.files, ad) ==> Attrs(disk.files, ad) == old(Attrs(disk.files, ad))
  {
    hide Readable, Attrs, Begun, BegunOver, NoFork;
    ghost var begun, over := Begun(disk.files, ad, src, 0, info), BegunOver(disk.files, ad, src, 0, covered);
    var offset: nat, turn := 0, 0;
    while offset < total
      invariant offset <= total && turn >= 0
      invariant begun ==> Begun(disk.files, ad, src, offset, info)
      invariant over ==> BegunOver(disk.files, ad, src, offset, covered)
      invariant offset == 0 ==> disk.files == old(disk.files)
      invariant offset > 0 ==> !old(NoFork(disk.files, ad))
      invariant RestArrives(src, a, 0, 0) <==> RestArrives(src, a, turn, offset)
      invariant Readable(disk.files, ad) <==> old(Readable(disk.files, ad))
      invariant Readable(disk.files, ad) ==> Attrs(disk.files, ad) == old(Attrs(disk.files, ad))
    {
      var chunk := if total - offset > AFP_SL_METADATA_CHUNK then AFP_SL_METADATA_CHUNK else total - offset;
      var got := RemoteForkRead(src, a, turn, chunk, offset);
      if got.Err? {
        return Err(got.error);
      }
      if |got.value| == 0 {
        return Err(EIO);
      }
      var write := WriteChunk(disk, ad, src, offset, got.value, info, covered);
      if write.Err? {
        return Err(write.error);
      }
      offset, turn := offset + |got.value|, turn + 1;
    }
    return Ok(());
  }

  /** The fork loop: however the server cuts the fork, the local one ends up equal to it. Where the fork starts on its
      own length, that length ends up over its first bytes, and where it has no place the copy fails unless the fork is
      empty. */
  method CopyFork(disk: Disk, ad: Path, src: Remote, a: Answers, ghost covered: nat)
    returns (r: Result<()>, warnings: set<Warning>)
    requires Stable(src) && Honest(src, a)
    modifies disk
    ensures old(Ready(disk.files, ad)) && r.Ok? && warnings == {} ==>
      Sidecar.View(disk.files, ad) == old(Sidecar.View(disk.files, ad)).(fork := src.fork)
    ensures old(EdgeEmpty(disk.files, ad, covered)) && r.Ok? && warnings == {} ==>
      Sidecar.View(disk.files, ad) == Sidecar.AdState(Zeros(32), ForkOnTable.Overlaid(src.fork, covered))
    ensures old(Ready(disk.files, ad) || EdgeEmpty(disk.files, ad, covered)) ==>
      (r.Ok? && warnings == {} <==> ForkArrives(src, a))
    ensures src.fork == [] ==> disk.files == old(disk.files) && (r.Ok? && warnings == {} <==> ForkArrives(src, a))
    ensures ForkSize in a.failures && a.failures[ForkSize] == ENOTSUP ==>
      r.Ok? && warnings == {Unsupported} && disk.files == old(disk.files)
    ensures old(NoFork(disk.files, ad)) && r.Ok? && warnings == {} ==> src.fork == []
    ensures Readable(disk.files, ad) <==> old(Readable(disk.files, ad))
    ensures Readable(disk.files, ad) ==> Attrs(disk.files, ad) == old(Attrs(disk.files, ad))
  {
    hide Readable, Attrs, Sidecar.Usable, Sidecar.Narrow, Sidecar.View, ForkOnTable.EdgeAt, ForkOnTable.Overlaid;
    hide NoFork;
    ghost var view, ready := Sidecar.View(disk.files, ad), Ready(disk.files, ad);
    ghost var edge := EdgeEmpty(disk.files, ad, covered);
    assert src.fork[..0] == [] && src.fork[..|src.fork|] == src.fork;
    if edge {
      ForkOnTable.EdgeAtMeans(disk.files, ad, covered);
      OverlaidNone(src.fork, covered);
    }
    var size := RemoteForkSize(src, a);
    if size.Err? {
      var (outcome, w) := Outcome(Err(size.error));
      return outcome, w;
    }
    assert ready ==> Begun(disk.files, ad, src, 0, view.info);
    assert edge ==> BegunOver(disk.files, ad, src, 0, covered);
    r := ForkLoop(disk, ad, src, a, size.value, view.info, covered);
    return r, {};
  }

  ghost predicate EdgeEmpty(files: map<Path, File>, ad: Path, covered: nat) {
    covered <= 4 && ForkOnTable.EdgeAt(files, ad, covered) && Sidecar.View(files, ad).fork == []
  }

  lemma OverlaidNone(fork: seq<byte>, covered: nat)
    requires covered <= 4 && |fork| <= UINT32_MAX
    ensures ForkOnTable.Overlaid([], covered) == [] == ForkOnTable.Overlaid(fork[..0], covered)
  {
    assert fork[..0] == [];
  }

  lemma ChunkLands(fork: seq<byte>, offset: nat, data: seq<byte>)
    requires data != [] && offset + |data| <= |fork| && data == fork[offset..offset + |data|]
    ensures Sidecar.Written(fork[..offset], data, offset) == fork[..offset + |data|]
    ensures !Sidecar.EmptyPastEnd(fork[..offset], data, offset)
  {
  }

  /** One more name copied. */
  lemma CopiedNext(src: Remote, names: seq<Name>, n: Name)
    requires n in src.attrs && n !in names
    ensures n !in CopiedOf(src, names)
    ensures CopiedOf(src, names + [n]) ==
      if Transferable(n) then CopiedOf(src, names)[n := Some(src.attrs[n])] else CopiedOf(src, names)
  {
    hide Transferable;
  }

  ghost predicate NoneTransferable(m: map<Name, Option<seq<byte>>>) {
    forall n :: n in m ==> !Transferable(n)
  }

  /** Setting the copied attributes one by one gives their union with what was kept, and every one fits exactly
      when all together are in bounds. */
  lemma {:induction false} PutsAre(kept: map<Name, Option<seq<byte>>>, src: Remote, names: seq<Name>)
    requires |kept| <= EA_MAX_ITEMS && NoneTransferable(kept)
    requires forall i :: 0 <= i < |names| ==> names[i] in src.attrs
    requires forall i, j :: 0 <= i < j < |names| ==> names[i] != names[j]
    ensures AfterAll(kept, Puts(src, names)) == kept + CopiedOf(src, names)
    ensures AllFit(kept, Puts(src, names)) <==> InBounds(kept, CopiedOf(src, names))
  {
    if names == [] {
      assert CopiedOf(src, []) == map[];
    } else {
      var front, n := names[..|names| - 1], names[|names| - 1];
      assert names == front + [n];
      PutsAre(kept, src, front);
      CopiedNext(src, front, n);
      if Transferable(n) {
        PutNext(kept, CopiedOf(src, front), Puts(src, front), n, src.attrs[n]);
      } else {
        assert Puts(src, names) == Puts(src, front);
      }
    }
  }

  lemma PutNext(kept: map<Name, Option<seq<byte>>>, copied: map<Name, Option<seq<byte>>>, ops: seq<AttrOp>, n: Name,
                value: seq<byte>)
    requires NoneTransferable(kept) && Transferable(n) && n !in copied
    requires forall c :: c in copied ==> Transferable(c)
    requires AfterAll(kept, ops) == kept + copied
    requires AllFit(kept, ops) <==> InBounds(kept, copied)
    ensures AfterAll(kept, ops + [Put(n, value)]) == kept + copied[n := Some(value)]
    ensures AllFit(kept, ops + [Put(n, value)]) <==> InBounds(kept, copied[n := Some(value)])
  {
    RunNext(kept, ops, Put(n, value));
    UnionNext(kept, copied, n, Some(value));
    hide Transferable, AllFit, AfterAll;
  }

  lemma RunNext(m: map<Name, Option<seq<byte>>>, ops: seq<AttrOp>, op: AttrOp)
    ensures AfterAll(m, ops + [op]) == After(AfterAll(m, ops), op)
    ensures AllFit(m, ops + [op]) <==> AllFit(m, ops) && (op.Put? ==> Fits(AfterAll(m, ops), op.name))
  {
    assert (ops + [op])[..|ops|] == ops;
  }

  lemma UnionNext(a: map<Name, Option<seq<byte>>>, b: map<Name, Option<seq<byte>>>, n: Name, v: Option<seq<byte>>)
    requires forall x :: x in a ==> x !in b
    requires n !in a && n !in b
    ensures n !in a + b && (a + b)[n := v] == a + b[n := v]
    ensures |a + b| == |a| + |b| && |b[n := v]| == |b| + 1
  {
    UnionSize(a, b);
  }

  lemma UnionSize(a: map<Name, Option<seq<byte>>>, b: map<Name, Option<seq<byte>>>)
    requires forall n :: n in a ==> n !in b
    ensures |a + b| == |a| + |b|
  {
    assert (a + b).Keys == a.Keys + b.Keys;
    assert a.Keys !! b.Keys;
    assert |a.Keys + b.Keys| == |a.Keys| + |b.Keys|;
  }

  /** One turn of the attribute loop: local_metadata_set of the remote value, whose refusals come first. */
  method CopyAttr(disk: Disk, ad: Path, src: Remote, a: Answers, name: Name)
    returns (r: Result<()>, warnings: set<Warning>)
    requires name in src.attrs && Transferable(name) && CString(name) && Honest(src, a)
    modifies disk
    ensures SameAt(old(disk.files), disk.files, ad)
    ensures r.Ok? && warnings == {} <==>
      ValueArrives(src, a, name) && ValidName(name) && old(Readable(disk.files, ad))
    ensures ValueLength(name) !in a.failures && |src.attrs[name]| > AFP_SL_METADATA_CHUNK ==>
      r.Ok? && warnings == {ValueTooLarge} && disk.files == old(disk.files)
    ensures r.Ok? && warnings == {} ==>
      && old(Readable(disk.files, ad))
      && (Readable(disk.files, ad) <==> Fits(old(Attrs(disk.files, ad)), name))
      && (Readable(disk.files, ad) ==>
            Attrs(disk.files, ad) == old(Attrs(disk.files, ad))[name := Some(src.attrs[name])])
  {
    hide Readable, Attrs, Fits, OnlyAttr, Transferable, ValueArrives, Honest;
    var value := RemoteGet(src, a, name);
    if value.Err? {
      if value.error == E2BIG {
        return Ok(()), {ValueTooLarge};
      }
      var (outcome, w) := Outcome(Err(value.error));
      return outcome, w;
    }
    if !ValidName(name) {
      return Err(EINVAL), {};
    }
    var set_ := NetatalkSet(disk, ad, name, value.value);
    AttrApart(old(disk.files), disk.files, ad, name);
    var (outcome, w) := Outcome(set_);
    return outcome, w;
  }

  lemma PutsNext(src: Remote, names: seq<Name>, k: nat)
    requires k < |names| && forall i :: 0 <= i < |names| ==> names[i] in src.attrs
    ensures Puts(src, names[..k + 1]) ==
      Puts(src, names[..k]) + if Transferable(names[k]) then [Put(names[k], src.attrs[names[k]])] else []
  {
    hide Transferable;
    assert names[..k + 1][..k] == names[..k];
  }

  lemma PutsNone(src: Remote, m: map<Name, Option<seq<byte>>>)
    ensures |Joined([])| == 0 && Puts(src, []) == [] && AllFit(m, []) && AfterAll(m, []) == m
  {
  }

  /** The attribute is copied: its value arrives, its name may be stored, and the store can still be read once all that
      come before it are there. */
  ghost predicate AttrLands(src: Remote, a: Answers, m: map<Name, Option<seq<byte>>>, i: nat)
    requires i < |src.order| && forall k :: 0 <= k < |src.order| ==> src.order[k] in src.attrs
  {
    Transferable(src.order[i]) ==>
      ValueArrives(src, a, src.order[i]) && ValidName(src.order[i]) && AllFit(m, Puts(src, src.order[..i]))
  }

  ghost predicate AttrsLand(src: Remote, a: Answers, m: map<Name, Option<seq<byte>>>, n: nat)
    requires n <= |src.order| && forall k :: 0 <= k < |src.order| ==> src.order[k] in src.attrs
  {
    forall i :: 0 <= i < n ==> AttrLands(src, a, m, i)
  }

  /** The loop of transfer_remote_xattrs_to_local. */
  method CopyNames(disk: Disk, ad: Path, src: Remote, a: Answers, list: seq<byte>)
    returns (r: Result<()>, warnings: set<Warning>)
    requires Stable(src) && Honest(src, a) && Readable(disk.files, ad) && list == Joined(src.order)
    modifies disk
    ensures SameAt(old(disk.files), disk.files, ad)
    ensures r.Ok? && warnings == {} <==> AttrsLand(src, a, old(Attrs(disk.files, ad)), |src.order|)
    ensures r.Ok? && warnings == {} ==>
      && (Readable(disk.files, ad) <==> AllFit(old(Attrs(disk.files, ad)), Puts(src, src.order)))
      && (Readable(disk.files, ad) ==>
            Attrs(disk.files, ad) == AfterAll(old(Attrs(disk.files, ad)), Puts(src, src.order)))
  {
    hide Readable, Attrs, Fits, OnlyAttr, Transferable, Joined, Puts, AllFit, AfterAll, ValueArrives, ValidName, Honest;
    warnings := {};
    ghost var names, m := src.order, Attrs(disk.files, ad);
    var position := 0;
    ghost var k := 0;
    assert names[..0] == [] && names[..|names|] == names;
    PutsNone(src, m);
    while true
      invariant k <= |names| && position == |Joined(names[..k])|
      invariant SameAt(old(disk.files), disk.files, ad)
      invariant warnings == {} <==> AttrsLand(src, a, m, k)
      invariant warnings == {} ==> (Readable(disk.files, ad) <==> AllFit(m, Puts(src, names[..k])))
      invariant warnings == {} && Readable(disk.files, ad) ==>
        Attrs(disk.files, ad) == AfterAll(m, Puts(src, names[..k]))
      decreases |names| - k
    {
      var name, next := NextName(list, position, names, k);
      if name.None? {
        break;
      }
      PutsNext(src, names, k);
      if Transferable(name.value) {
        var w;
        r, w := CopyAttr(disk, ad, src, a, name.value);
        assert warnings == {} ==> (AttrLands(src, a, m, k) <==> r.Ok? && w == {});
        assert warnings + w == {} ==> warnings == {} && w == {};
        warnings := warnings + w;
        if r.Err? {
          return;
        }
        RunNext(m, Puts(src, names[..k]), Put(name.value, src.attrs[name.value]));
      } else {
        assert Puts(src, names[..k]) + [] == Puts(src, names[..k]);
      }
      position, k := next, k + 1;
    }
    return Ok(()), warnings;
  }

  /** transfer_remote_xattrs_to_local. */
  method CopyAttrs(disk: Disk, ad: Path, src: Remote, a: Answers) returns (r: Result<()>, warnings: set<Warning>)
    requires Stable(src) && Honest(src, a) && Readable(disk.files, ad)
    modifies disk
    ensures SameAt(old(disk.files), disk.files, ad)
    ensures r.Ok? && warnings == {} <==>
      ListArrives(src, a) && AttrsLand(src, a, old(Attrs(disk.files, ad)), |src.order|)
    ensures ListLength !in a.failures && |Joined(src.order)| > AFP_SL_XATTR_LIST_MAX ==>
      r.Ok? && warnings == {ListTooLarge} && disk.files == old(disk.files)
    ensures r.Ok? && warnings == {} ==>
      && (Readable(disk.files, ad) <==> AllFit(old(Attrs(disk.files, ad)), Puts(src, src.order)))
      && (Readable(disk.files, ad) ==>
            Attrs(disk.files, ad) == AfterAll(old(Attrs(disk.files, ad)), Puts(src, src.order)))
  {
    hide Readable, Attrs, Transferable, Joined, Puts, AllFit, AfterAll, AttrLands, ListArrives, Honest;
    var list := RemoteList(src, a);
    if list.Err? {
      if list.error == E2BIG {
        return Ok(()), {ListTooLarge};
      }
      PutsNone(src, Attrs(disk.files, ad));
      var (outcome, w) := Outcome(Err(list.error));
      return outcome, w;
    }
    r, warnings := CopyNames(disk, ad, src, a, list.value);
  }

  /** What a copy brings would go to a place on the table of a file that was cleared. */
  ghost predicate Strays(c: File, src: Remote)
    requires AppleDouble.Accepted(c)
  {
    var info := AppleDouble.InfoOf(c);
    (src.info.Ok? && 0 < info.finder.offset < AppleDouble.TableEnd(c)) || (src.fork != [] && info.resource.offset != 0)
  }

  ghost predicate HollowAt(files: map<Path, File>, ad: Path) {
    ad in files && ForkOnTable.Hollow(files[ad]) && Sidecar.View(files, ad).info == Zeros(32)
  }

  /** A hollow file, and a copy that does not stray onto its table. */
  ghost predicate HollowFor(files: map<Path, File>, ad: Path, src: Remote) {
    HollowAt(files, ad) && !Strays(files[ad], src)
  }

  /** FinderInfo is brought, or there is none. */
  predicate InfoArrives(src: Remote) {
    src.info.Ok? || src.info.error == ENOATTR
  }

  /** The file takes both parts, each in its own way. */
  ghost predicate Takes(files: map<Path, File>, ad: Path, covered: nat) {
    || Sidecar.Usable(files, ad) || Sidecar.Narrow(files, ad) || (covered <= 4 && ForkOnTable.EdgeAt(files, ad, covered))
  }

  /** A file that is accepted, and has no place for FinderInfo. */
  ghost predicate NoInfo(files: map<Path, File>, ad: Path) {
    ad in files && AppleDouble.Accepted(files[ad]) && AppleDouble.InfoOf(files[ad]).finder.offset == 0
  }

  /** The parts of a copy that go to the sidecar, which has been cleared. */
  method CopyParts(disk: Disk, ad: Path, src: Remote, a: Answers, ghost covered: nat)
    returns (r: Result<()>, warnings: set<Warning>)
    requires Stable(src) && Honest(src, a) && (src.info.Err? ==> src.info.error == ENOATTR || src.info.error == ENOTSUP)
    modifies disk
    ensures old(Sidecar.View(disk.files, ad)) == Sidecar.EMPTY && r.Ok? && warnings == {} ==>
      && (old(Sidecar.Usable(disk.files, ad)) ==>
            Sidecar.View(disk.files, ad) == Sidecar.AdState(SourceInfo(src), src.fork))
      && (old(Sidecar.Narrow(disk.files, ad)) ==>
            Sidecar.View(disk.files, ad) == Sidecar.AdState(Zeros(32), src.fork))
      && (old(ForkOnTable.EdgeAt(disk.files, ad, covered)) && covered <= 4 ==>
            Sidecar.View(disk.files, ad) == Sidecar.AdState(Zeros(32), ForkOnTable.Overlaid(src.fork, covered)))
    ensures old(HollowFor(disk.files, ad, src)) && r.Ok? && warnings == {} ==>
      src.fork == [] && Sidecar.View(disk.files, ad) == old(Sidecar.View(disk.files, ad))
    ensures old(Sidecar.View(disk.files, ad)) == Sidecar.EMPTY && old(Takes(disk.files, ad, covered)) ==>
      (r.Ok? && warnings == {} <==> InfoArrives(src) && ForkArrives(src, a))
    ensures old(HollowFor(disk.files, ad, src)) ==>
      (r.Ok? && warnings == {} <==>
         InfoArrives(src) && ForkArrives(src, a) && src.fork == [] && !(src.info.Ok? && old(NoInfo(disk.files, ad))))
    ensures Readable(disk.files, ad) <==> old(Readable(disk.files, ad))
    ensures Readable(disk.files, ad) ==> Attrs(disk.files, ad) == old(Attrs(disk.files, ad))
  {
    hide Readable, Attrs, Sidecar.Usable, Sidecar.View, Sidecar.Narrow, Sidecar.OnlyAt, ForkOnTable.EdgeAt;
    hide AppleDouble.Accepted, AppleDouble.InfoOf, AppleDouble.Sound, AppleDouble.Orderly, AppleDouble.Apart, AppleDouble.TableEnd;
    hide Sidecar.ForkStored, Sidecar.Stored, Sidecar.SameShape, Sidecar.HasRoom, Sidecar.OffFork, Sidecar.InfoApart, Pwrite;
    hide ForkOnTable.Overlaid, HollowFor, NoInfo, ForkArrives, Honest;
    var w;
    r, w := CopyInfo(disk, ad, src, covered);
    if r.Err? {
      return r, w;
    }
    r, warnings := CopyFork(disk, ad, src, a, covered);
    assert w + warnings == {} <==> w == {} && warnings == {};
    warnings := w + warnings;
  }

  /** FinderInfo, the first of them. */
  method CopyInfo(disk: Disk, ad: Path, src: Remote, ghost covered: nat) returns (r: Result<()>, warnings: set<Warning>)
    requires Stable(src) && (src.info.Err? ==> src.info.error == ENOATTR || src.info.error == ENOTSUP)
    modifies disk
    ensures old(Sidecar.View(disk.files, ad)) == Sidecar.EMPTY && r.Ok? ==>
      && (old(Sidecar.Usable(disk.files, ad)) ==>
            Sidecar.Usable(disk.files, ad) && Sidecar.View(disk.files, ad) == Sidecar.AdState(SourceInfo(src), []))
      && (old(Sidecar.Narrow(disk.files, ad)) ==>
            Sidecar.Narrow(disk.files, ad) && Sidecar.View(disk.files, ad) == Sidecar.EMPTY)
      && (old(ForkOnTable.EdgeAt(disk.files, ad, covered)) ==>
            ForkOnTable.EdgeAt(disk.files, ad, covered) && Sidecar.View(disk.files, ad) == Sidecar.EMPTY)
    ensures old(Takes(disk.files, ad, covered)) ==> r.Ok?
    ensures r.Ok? ==> (warnings == {} <==> InfoArrives(src))
    ensures src.info == Err(ENOTSUP) ==> r.Ok? && warnings == {Unsupported} && disk.files == old(disk.files)
    ensures r.Err? <==> src.info.Ok? && old(NoInfo(disk.files, ad))
    ensures old(HollowFor(disk.files, ad, src)) && r.Ok? ==>
      Sidecar.View(disk.files, ad) == old(Sidecar.View(disk.files, ad)) && (src.fork == [] || NoFork(disk.files, ad))
    ensures Readable(disk.files, ad) <==> old(Readable(disk.files, ad))
    ensures Readable(disk.files, ad) ==> Attrs(disk.files, ad) == old(Attrs(disk.files, ad))
  {
    hide Readable, Attrs, Sidecar.Usable, Sidecar.View, Sidecar.Narrow, Sidecar.OnlyAt, ForkOnTable.EdgeAt;
    hide AppleDouble.Accepted, AppleDouble.InfoOf, AppleDouble.Sound, AppleDouble.Orderly, AppleDouble.Apart, AppleDouble.TableEnd;
    hide Sidecar.ForkStored, Sidecar.Stored, Sidecar.SameShape, Sidecar.HasRoom, Sidecar.OffFork, Sidecar.InfoApart, Pwrite;
    hide HollowFor, NoFork, ForkOnTable.Hollow;
    ghost var narrow, edge := Sidecar.Narrow(disk.files, ad), ForkOnTable.EdgeAt(disk.files, ad, covered);
    ghost var hollow := HollowFor(disk.files, ad, src);
    if hollow {
      HollowMeans(disk.files, ad, src);
    }
    if src.info.Err? {
      return Ok(()), Outcome(Err(src.info.error)).1;
    }
    if narrow {
      Sidecar.NarrowMeans(disk.files, ad);
      NarrowPlaced(disk.files, ad);
    }
    if edge {
      ForkOnTable.EdgeAtMeans(disk.files, ad, covered);
    }
    var set_ := Sidecar.AdFinderSet(disk, ad, true, src.info.value);
    SidecarApart(old(disk.files), disk.files, ad);
    if set_.Err? {
      return Err(set_.error), {};
    }
    if old(Sidecar.View(disk.files, ad)) == Sidecar.EMPTY {
      if narrow {
        Sidecar.NarrowSet(old(disk.files), disk.files, ad);
      }
      if edge {
        ForkOnTable.EdgeSet(old(disk.files), disk.files, ad, src.info.value, covered);
      }
    }
    if hollow {
      SameFork(old(disk.files), disk.files, ad, src);
    }
    return Ok(()), {};
  }

  /** Where a copy does not stray onto the table of a hollow file, FinderInfo has no room after it, or no place. */
  lemma HollowMeans(files: map<Path, File>, ad: Path, src: Remote)
    requires HollowFor(files, ad, src)
    ensures ad in files && AppleDouble.Accepted(files[ad]) && Sidecar.View(files, ad).info == Zeros(32)
    ensures src.fork == [] || NoFork(files, ad)
    ensures src.info.Ok? && AppleDouble.InfoOf(files[ad]).finder.offset != 0 ==>
      Sidecar.InfoApart(files, ad) && !Sidecar.HasRoom(files, ad) && Sidecar.OffFork(files[ad])
  {
    hide AppleDouble.InfoOf;
    if AppleDouble.InfoOf(files[ad]).finder.offset != 0 {
      ForkOnTable.HollowMeans(files[ad]);
    }
  }

  lemma SameFork(before: map<Path, File>, after: map<Path, File>, ad: Path, src: Remote)
    requires ad in before && ad in after && AppleDouble.Accepted(before[ad]) && AppleDouble.Accepted(after[ad])
    requires AppleDouble.InfoOf(after[ad]) == AppleDouble.InfoOf(before[ad])
    ensures NoFork(after, ad) <==> NoFork(before, ad)
  {
  }

  /** afp_sl_metadata_copy_remote_to_local, in Netatalk mode: a copy that succeeds without a warning leaves the
      source's fork, and its FinderInfo exactly when the sidecar it found is not narrow or there is none to bring. A
      file whose fork starts on its table is right afterwards too, unless it stays when it is cleared. The local
      attributes are then readable exactly when they are in bounds, and are the source's with those a transfer leaves
      alone. */
  method CopyRemoteToLocal(disk: Disk, ad: Path, src: Remote, a: Answers)
    returns (r: Result<()>, warnings: set<Warning>)
    requires Stable(src) && Honest(src, a)
    modifies disk
    ensures old(Sidecar.Placed(disk.files, ad)) ==>
      (r.Ok? && warnings == {} <==> old(Clearable(disk.files, ad)) && Arrives(src, a, old(Left(disk.files, ad))))
    ensures old(ForkOnTable.OnTableAt(disk.files, ad)) && !StraysFrom(old(disk.files[ad]), src) ==>
      (r.Ok? && warnings == {} <==>
         && old(Clearable(disk.files, ad)) && Arrives(src, a, old(Left(disk.files, ad)))
         && PartsPlaced(old(disk.files[ad]), src))
    ensures old(Sidecar.Placed(disk.files, ad)) && r.Ok? && warnings == {} ==>
      Sidecar.View(disk.files, ad) ==
        Sidecar.AdState(if old(Sidecar.Narrow(disk.files, ad)) then Zeros(32) else SourceInfo(src), src.fork)
    ensures old(ForkOnTable.OnTableAt(disk.files, ad)) && r.Ok? && warnings == {} ==>
      OntoTable(old(disk.files[ad]), src, Sidecar.View(disk.files, ad))
    ensures old(Sidecar.Lacking(disk.files, ad)) ==> r.Err?
    ensures r.Ok? && warnings == {} ==>
      && old(Readable(disk.files, ad))
      && var kept := Kept(old(Attrs(disk.files, ad)));
         && (Readable(disk.files, ad) <==> InBounds(kept, Copied(src)))
         && (Readable(disk.files, ad) ==> Attrs(disk.files, ad) == kept + Copied(src))
  {
    hide Readable, Attrs, Sidecar.Usable, Sidecar.View, Sidecar.Narrow, Sidecar.Placed, Sidecar.Lacking, Kept, Copied;
    hide InBounds, Puts, AllFit, AfterAll, ForkOnTable.OnTable, ForkOnTable.EdgeAt, ForkOnTable.Overlaid, HollowFor;
    hide AppleDouble.Accepted, Emptied, OntoTable;
    hide Clearable, Left, ListArrives, ForkArrives, AttrsLand, Honest, StraysFrom, PartsPlaced;
    ghost var placed := Sidecar.Placed(disk.files, ad);
    ghost var onTable := ForkOnTable.OnTableAt(disk.files, ad);
    ghost var covered := if onTable then ForkOnTable.Covered(disk.files[ad]) else 0;
    if src.info.Err? && src.info.error != ENOATTR && src.info.error != ENOTSUP {
      return Err(src.info.error), {};
    }
    r := ClearLocal(disk, ad);
    ClearableMeans(old(disk.files), ad);
    if r.Err? {
      return r, {};
    }
    label Cleared:
    if onTable {
      TakesAfter(old(disk.files[ad]), disk.files, ad, src);
    }
    r, warnings := CopyParts(disk, ad, src, a, covered);
    if r.Err? {
      return;
    }
    if onTable && warnings == {} {
      OntoTableIs(old(disk.files[ad]), old@Cleared(disk.files), disk.files, ad, src);
    }
    label AttrsStart:
    var w;
    r, w := CopyAttrs(disk, ad, src, a);
    SameView(old@AttrsStart(disk.files), disk.files, ad);
    assert warnings + w == {} <==> warnings == {} && w == {};
    warnings := warnings + w;
    if r.Ok? {
      CopiedAre(old(disk.files), ad, src);
    }
  }

  /** The attributes can be read, and those a copy replaces may be removed. */
  ghost predicate Clearable(files: map<Path, File>, ad: Path) {
    Readable(files, ad) && Removable(Attrs(files, ad))
  }

  /** The attributes a clear leaves. */
  ghost function Left(files: map<Path, File>, ad: Path): map<Name, Option<seq<byte>>> {
    if Readable(files, ad) then Kept(Attrs(files, ad)) else map[]
  }

  lemma ClearableMeans(files: map<Path, File>, ad: Path)
    ensures Clearable(files, ad) <==> Readable(files, ad) && Removable(Attrs(files, ad))
    ensures Readable(files, ad) ==> Left(files, ad) == Kept(Attrs(files, ad))
  {
  }

  /** All that a copy asks for arrives and finds room: FinderInfo or none, the fork, the list, and each attribute, whose
      store can be read until the last is set. */
  ghost predicate Arrives(src: Remote, a: Answers, kept: map<Name, Option<seq<byte>>>)
    requires Stable(src)
  {
    InfoArrives(src) && ForkArrives(src, a) && ListArrives(src, a) && AttrsLand(src, a, kept, |src.order|)
  }

  /** What a copy brings goes to a place on the table that clearing leaves. */
  ghost predicate StraysFrom(f: File, src: Remote)
    requires ForkOnTable.OnTable(f)
  {
    ForkOnTable.Stays(f) && AppleDouble.InfoOf(f).resource.offset < AppleDouble.TableEnd(f) - 4
    && AppleDouble.Accepted(ForkOnTable.Blank(f)) && Strays(ForkOnTable.Blank(f), src)
  }

  /** The file has places for what a copy brings once it is cleared. */
  ghost predicate PartsPlaced(f: File, src: Remote)
    requires ForkOnTable.OnTable(f)
  {
    ForkOnTable.Stays(f) && AppleDouble.InfoOf(f).resource.offset < AppleDouble.TableEnd(f) - 4 ==>
      && src.fork == []
      && (src.info.Ok? ==> AppleDouble.Accepted(ForkOnTable.Blank(f))
                           && AppleDouble.InfoOf(ForkOnTable.Blank(f)).finder.offset != 0)
  }

  lemma TakesAfter(f: File, cleared: map<Path, File>, ad: Path, src: Remote)
    requires ForkOnTable.OnTable(f) && Emptied(f, cleared, ad)
    ensures if ForkOnTable.Stays(f) && AppleDouble.InfoOf(f).resource.offset < AppleDouble.TableEnd(f) - 4
      then !StraysFrom(f, src) ==>
        && HollowFor(cleared, ad, src)
        && (PartsPlaced(f, src) <==> src.fork == [] && !(src.info.Ok? && NoInfo(cleared, ad)))
      else
        && PartsPlaced(f, src) && Sidecar.View(cleared, ad) == Sidecar.EMPTY
        && Takes(cleared, ad, ForkOnTable.Covered(f))
  {
    hide ForkOnTable.Stays, ForkOnTable.Blank, ForkOnTable.EdgeAt, Strays, Sidecar.Usable, Sidecar.Narrow;
    hide AppleDouble.InfoOf, AppleDouble.EntryOk, AppleDouble.FinderInfo, AppleDouble.TableEnd, AppleDouble.Fork;
    if ForkOnTable.Stays(f) {
      if AppleDouble.TableEnd(f) - 4 <= AppleDouble.InfoOf(f).resource.offset {
        ForkOnTable.ClearedEdge(f, cleared, ad);
        ForkOnTable.EdgeAtMeans(cleared, ad, ForkOnTable.Covered(f));
      } else {
        ForkOnTable.ClearedHollow(f);
      }
    }
  }

  /** What a copy leaves of a file whose fork starts on its table. It is the source's, unless the file stays when it is
      cleared. A fork that then starts on its own length has that length over its first bytes. One that starts before it
      is what is left of the table, and is the source's only where both are empty. FinderInfo is lost. */
  ghost predicate OntoTable(f: File, src: Remote, v: Sidecar.AdState)
    requires ForkOnTable.OnTable(f) && |src.fork| <= UINT32_MAX
  {
    if !ForkOnTable.Stays(f) then v == Sidecar.AdState(SourceInfo(src), src.fork)
    else if AppleDouble.TableEnd(f) - 4 <= AppleDouble.InfoOf(f).resource.offset then
      v == Sidecar.AdState(Zeros(32), ForkOnTable.Overlaid(src.fork, ForkOnTable.Covered(f)))
    else
      && AppleDouble.Accepted(ForkOnTable.Blank(f))
      && (Strays(ForkOnTable.Blank(f), src)
          || (src.fork == [] && v == Sidecar.AdState(Zeros(32), AppleDouble.Fork(ForkOnTable.Blank(f)))))
  }

  lemma OntoTableIs(f: File, cleared: map<Path, File>, after: map<Path, File>, ad: Path, src: Remote)
    requires ForkOnTable.OnTable(f) && Emptied(f, cleared, ad) && |src.fork| <= UINT32_MAX
    requires Sidecar.View(cleared, ad) == Sidecar.EMPTY ==>
      && (Sidecar.Usable(cleared, ad) ==> Sidecar.View(after, ad) == Sidecar.AdState(SourceInfo(src), src.fork))
      && (ForkOnTable.EdgeAt(cleared, ad, ForkOnTable.Covered(f)) && ForkOnTable.Covered(f) <= 4 ==>
            Sidecar.View(after, ad) == Sidecar.AdState(Zeros(32), ForkOnTable.Overlaid(src.fork, ForkOnTable.Covered(f))))
    requires HollowFor(cleared, ad, src) ==>
      src.fork == [] && Sidecar.View(after, ad) == Sidecar.View(cleared, ad)
    ensures OntoTable(f, src, Sidecar.View(after, ad))
  {
    hide ForkOnTable.Stays, ForkOnTable.Blank, ForkOnTable.EdgeAt, ForkOnTable.Overlaid, Strays;
    hide AppleDouble.InfoOf, AppleDouble.EntryOk, AppleDouble.FinderInfo, AppleDouble.TableEnd, AppleDouble.Fork;
    if ForkOnTable.Stays(f) {
      if AppleDouble.TableEnd(f) - 4 <= AppleDouble.InfoOf(f).resource.offset {
        ForkOnTable.ClearedEdge(f, cleared, ad);
      } else {
        ForkOnTable.ClearedHollow(f);
      }
    }
  }

  /** A source whose calls all answer: no failure, no empty read, and everything within the limits. */
  ghost predicate Clean(src: Remote, a: Answers, kept: map<Name, Option<seq<byte>>>) {
    && a.failures == map[] && (forall i :: 0 <= i < |a.cuts| ==> a.cuts[i] > 0)
    && (src.info.Err? ==> src.info.error == ENOATTR) && |Joined(src.order)| <= AFP_SL_XATTR_LIST_MAX
    && (forall n :: n in src.attrs && Transferable(n) ==> |src.attrs[n]| <= AFP_SL_METADATA_CHUNK && ValidName(n))
    && InBounds(kept, Copied(src))
  }

  /** From such a source all arrives. */
  lemma CleanArrives(src: Remote, a: Answers, kept: map<Name, Option<seq<byte>>>)
    requires Stable(src) && Clean(src, a, kept) && |kept| <= EA_MAX_ITEMS && NoneTransferable(kept)
    ensures Arrives(src, a, kept)
  {
    hide Joined, Transferable, ValidName, AllFit, Puts;
    CleanFork(src, a, 0, 0);
    forall i | 0 <= i < |src.order| ensures AttrLands(src, a, kept, i) {
      FitsBefore(kept, src, i);
    }
  }

  /** What fits all together fits one by one. */
  lemma FitsBefore(kept: map<Name, Option<seq<byte>>>, src: Remote, i: nat)
    requires Stable(src) && |kept| <= EA_MAX_ITEMS && NoneTransferable(kept) && i <= |src.order|
    requires InBounds(kept, Copied(src))
    ensures AllFit(kept, Puts(src, src.order[..i]))
  {
    hide Transferable, Puts, AllFit, AfterAll;
    var front := src.order[..i];
    PutsAre(kept, src, front);
    var some, all := CopiedOf(src, front), Copied(src);
    assert some.Keys <= all.Keys;
    SubsetCount(some.Keys, all.Keys);
  }

  /** A copy from a source whose calls all answer succeeds without a warning, and leaves what it should, onto any file
      with places for both parts after its table that is not narrow. */
  method CleanCopy(disk: Disk, ad: Path, src: Remote, a: Answers) returns (r: Result<()>, warnings: set<Warning>)
    requires Stable(src) && Clearable(disk.files, ad) && Clean(src, a, Left(disk.files, ad))
    requires Sidecar.Placed(disk.files, ad) && !Sidecar.Narrow(disk.files, ad)
    modifies disk
    ensures r.Ok? && warnings == {}
    ensures Sidecar.View(disk.files, ad) == Sidecar.AdState(SourceInfo(src), src.fork)
    ensures src.info.Ok? ==> Sidecar.View(disk.files, ad).info == src.info.value
    ensures Readable(disk.files, ad) && Attrs(disk.files, ad) == old(Left(disk.files, ad)) + Copied(src)
    ensures forall n :: n in src.attrs && Transferable(n) ==>
      n in Attrs(disk.files, ad) && Attrs(disk.files, ad)[n] == Some(src.attrs[n])
    ensures forall n :: n in Attrs(disk.files, ad) && Transferable(n) ==> n in src.attrs
    ensures forall n :: n in old(Attrs(disk.files, ad)) && !Transferable(n) ==>
      n in Attrs(disk.files, ad) && Attrs(disk.files, ad)[n] == old(Attrs(disk.files, ad))[n]
  {
    hide Sidecar.View, Sidecar.Placed, Sidecar.Narrow, Sidecar.Lacking, Removable, Arrives;
    hide Readable, Attrs, Kept, Copied, InBounds, ForkOnTable.OnTable;
    LeftBounds(disk.files, ad);
    CleanArrives(src, a, Left(disk.files, ad));
    r, warnings := CopyRemoteToLocal(disk, ad, src, a);
    UnionMeans(old(Attrs(disk.files, ad)), src);
  }

  lemma UnionMeans(m: map<Name, Option<seq<byte>>>, src: Remote)
    requires Stable(src)
    ensures var after := Kept(m) + Copied(src);
      && (forall n :: n in src.attrs && Transferable(n) ==> n in after && after[n] == Some(src.attrs[n]))
      && (forall n :: n in after && Transferable(n) ==> n in src.attrs)
      && forall n :: n in m && !Transferable(n) ==> n in after && after[n] == m[n]
  {
    hide Transferable;
    assert forall n :: n in src.attrs ==> n in src.order;
  }

  lemma LeftBounds(files: map<Path, File>, ad: Path)
    ensures |Left(files, ad)| <= EA_MAX_ITEMS && NoneTransferable(Left(files, ad))
    ensures Readable(files, ad) ==> Left(files, ad) == Kept(Attrs(files, ad))
  {
    if Readable(files, ad) {
      var m := Attrs(files, ad);
      AttrsCount(files, ad);
      assert Kept(m).Keys <= m.Keys;
      SubsetCount(Kept(m).Keys, m.Keys);
    }
  }

  /** A copy onto a file whose FinderInfo descriptor has 16 bytes loses the FinderInfo it brings. */
  method CopyOntoShort(disk: Disk, ad: Path, src: Remote, a: Answers) returns (r: Result<()>, warnings: set<Warning>)
    requires Stable(src) && Honest(src, a) && ad in disk.files && disk.files[ad] == Sidecar.ShortFile()
    modifies disk
    ensures r.Ok? && warnings == {} ==> Sidecar.View(disk.files, ad) == Sidecar.AdState(Zeros(32), src.fork)
  {
    hide Readable, Attrs, Sidecar.View, Kept, Copied, InBounds, AppleDouble.Apart, AppleDouble.InfoOf, Sidecar.ShortFile;
    Sidecar.ShortOrderly();
    AppleDouble.ApartPlaces(disk.files[ad]);
    r, warnings := CopyRemoteToLocal(disk, ad, src, a);
  }

  /** A copy onto a file whose fork starts on its own length brings another fork than the source's. */
  method CopyOntoEdge(disk: Disk, ad: Path, src: Remote, a: Answers) returns (r: Result<()>, warnings: set<Warning>)
    requires Stable(src) && Honest(src, a) && src.fork == [9, 9, 9, 9] && ad in disk.files && disk.files[ad] == ForkOnTable.EdgeFile()
    modifies disk
    ensures r.Ok? && warnings == {} ==> Sidecar.View(disk.files, ad) == Sidecar.AdState(Zeros(32), [0, 0, 0, 4])
  {
    hide Readable, Attrs, Sidecar.View, Kept, Copied, InBounds, AppleDouble.InfoOf, ForkOnTable.EdgeFile, ForkOnTable.Stays;
    hide ForkOnTable.Overlaid, ForkOnTable.Blank, Sidecar.Placed, Sidecar.Lacking, AppleDouble.EntryOk;
    ForkOnTable.EdgeFileIs();
    ForkOnTable.NinesOverlaid();
    r, warnings := CopyRemoteToLocal(disk, ad, src, a);
  }

  /** A copy of a file without a fork leaves ten bytes of a fork where clearing uncovers them. */
  method CopyUncovers(disk: Disk, ad: Path, src: Remote, a: Answers) returns (r: Result<()>, warnings: set<Warning>)
    requires Stable(src) && Honest(src, a) && src.fork == [] && ad in disk.files && disk.files[ad] == ForkOnTable.TwiceFile()
    modifies disk
    ensures r.Ok? && warnings == {} ==> |Sidecar.View(disk.files, ad).fork| == 10
  {
    hide Readable, Attrs, Sidecar.View, Kept, Copied, InBounds, AppleDouble.InfoOf, ForkOnTable.TwiceFile, ForkOnTable.Stays;
    hide ForkOnTable.Blank, Sidecar.Placed, Sidecar.Lacking, AppleDouble.EntryOk;
    ForkOnTable.TwiceFileIs();
    r, warnings := CopyRemoteToLocal(disk, ad, src, a);
  }

  function SourceInfo(src: Remote): seq<byte> {
    if src.info.Ok? then src.info.value else Zeros(32)
  }

  lemma CopiedAre(files: map<Path, File>, ad: Path, src: Remote)
    requires Stable(src) && Readable(files, ad)
    ensures var kept := Kept(Attrs(files, ad));
      && AfterAll(kept, Puts(src, src.order)) == kept + Copied(src)
      && (AllFit(kept, Puts(src, src.order)) <==> InBounds(kept, Copied(src)))
  {
    var m := Attrs(files, ad);
    AttrsCount(files, ad);
    assert Kept(m).Keys <= m.Keys;
    SubsetCount(Kept(m).Keys, m.Keys);
    PutsAre(Kept(m), src, src.order);
  }

  lemma AttrsCount(files: map<Path, File>, ad: Path)
    requires Readable(files, ad)
    ensures |Attrs(files, ad)| <= EA_MAX_ITEMS
  {
    var items :| Stored(files, ad, items);
    AttrsAre(files, ad, items);
  }

  lemma {:induction false} SubsetCount(a: set<Name>, b: set<Name>)
    requires a <= b
    ensures |a| <= |b|
  {
    assert b == a + (b - a);
  }
}
