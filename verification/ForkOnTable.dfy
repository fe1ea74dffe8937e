/** A sidecar whose resource fork starts on the file's own table of descriptors: what the writes of daemon/metadata.c
    make of it. The reader accepts such a file, and no layout the program writes is one. */
module ForkOnTable {
  import opened Bytes
  import opened AppleDouble
  import opened Sidecar

  /** FinderInfo has a place after the table, and the fork one before the table's end. */
  ghost predicate OnTable(f: File) {
    Accepted(f) && TableEnd(f) <= InfoOf(f).finder.offset && 0 < InfoOf(f).resource.offset < TableEnd(f)
  }

  lemma OnTablePlaces(f: File)
    requires OnTable(f)
    ensures HeaderOk(f) && TableEnd(f) <= |f| && 0 <= ForkIndex(f) < Count(f)
    ensures EntryAt(f, ForkIndex(f)) == InfoOf(f).resource
    ensures AD_HEADER_SIZE <= InfoOf(f).resource.headerOffset <= TableEnd(f) - 12
  {
  }

  // ----- clearing

  /** Where the table of a cleared file turns to zeros: at the fork's place, or at the fork's length before it. */
  function ZeroFrom(f: File): nat
    requires Accepted(f)
  {
    var ro, end := InfoOf(f).resource.offset, TableEnd(f) - 4;
    if ro < end then ro else end
  }

  /** The table of a cleared file whose last descriptor is the fork's. */
  function Blank(f: File): (c: File)
    requires Accepted(f)
    ensures |c| == TableEnd(f)
  {
    f[..ZeroFrom(f)] + Zeros(TableEnd(f) - ZeroFrom(f))
  }

  /** The cleared file is accepted again: the fork's descriptor is the last, the fork starts after the header, and what
      is left of the descriptors ends within the table. */
  predicate Stays(f: File)
    requires Accepted(f)
  {
    && AD_HEADER_SIZE <= InfoOf(f).resource.offset && InfoOf(f).resource.headerOffset + 12 == TableEnd(f)
    && forall i :: 0 <= i < Count(f) ==> BlankEnd(f, i) <= TableEnd(f)
  }

  function BlankEnd(f: File, i: nat): nat
    requires Accepted(f) && i < Count(f)
  {
    EntryAt(Blank(f), i).offset + EntryAt(Blank(f), i).length
  }

  /** The set that comes first in a clear is cut off again. */
  lemma SetCutOff(f: File, g: File)
    requires OnTable(f) && Accepted(g) && InfoOf(g) == InfoOf(f) && g == Pwrite(f, Zeros(32), InfoOf(f).finder.offset)
    ensures ForkStored(g, [], 0) == ForkStored(f, [], 0)
  {
    hide Accepted, InfoOf, U32, Pwrite, Ftruncate, HeaderOk, TableEnd;
    OnTablePlaces(f);
    TruncatedBefore(f, Zeros(32), InfoOf(f).finder.offset, InfoOf(f).resource.offset);
  }

  lemma TruncatedBefore(f: File, data: seq<byte>, at: nat, n: nat)
    requires n <= |f| && n <= at
    ensures Ftruncate(Pwrite(f, data, at), n) == Ftruncate(f, n)
  {
  }

  lemma ClearedShort(f: File)
    requires OnTable(f)
    requires InfoOf(f).resource.offset < AD_HEADER_SIZE || InfoOf(f).resource.headerOffset + 12 != TableEnd(f)
    ensures !Accepted(ForkStored(f, [], 0))
  {
    hide InfoOf, EntryOk, EntryAt, LastOf;
    OnTablePlaces(f);
    var c, ro, ho := ForkStored(f, [], 0), InfoOf(f).resource.offset, InfoOf(f).resource.headerOffset;
    assert |c| == if ro < ho + 12 then ho + 12 else ro;
    if ro < AD_HEADER_SIZE {
      assert c[25] == 0 && (ro <= 24 ==> c[24] == 0) && (ro == 25 ==> c[24] == f[24]);
    } else {
      assert c[24] == f[24] && c[25] == f[25];
    }
  }

  lemma ClearedBlank(f: File)
    requires OnTable(f) && InfoOf(f).resource.headerOffset + 12 == TableEnd(f)
    ensures ForkStored(f, [], 0) == Blank(f)
  {
    hide Accepted, InfoOf, TableEnd;
    OnTablePlaces(f);
    assert U32(0) == Zeros(4);
  }

  /** What is left of a descriptor. */
  lemma BlankEntry(f: File, i: nat)
    requires OnTable(f) && i < Count(f)
    ensures var at, cut, e, c := AD_HEADER_SIZE + AD_ENTRY_SIZE * i, ZeroFrom(f), EntryAt(f, i), EntryAt(Blank(f), i);
      && (if at + 4 <= cut then c.id == e.id else !Special(c.id))
      && (at + 8 <= cut ==> c.offset == e.offset) && (e.offset == 0 ==> c.offset == 0)
      && (at + 8 >= cut ==> c.length == 0) && (at + 12 <= cut ==> c == e)
  {
    hide InfoOf, EntryOk, LastOf;
    OnTablePlaces(f);
  }

  /** A cleared file is accepted exactly when it stays. */
  lemma ClearedStays(f: File)
    requires OnTable(f)
    ensures Accepted(ForkStored(f, [], 0)) <==> Stays(f)
    ensures Stays(f) ==> ForkStored(f, [], 0) == Blank(f)
  {
    hide InfoOf, ForkStored, Blank, LastOf, EntryAt;
    OnTablePlaces(f);
    if InfoOf(f).resource.offset < AD_HEADER_SIZE || InfoOf(f).resource.headerOffset + 12 != TableEnd(f) {
      ClearedShort(f);
    } else {
      ClearedBlank(f);
      BlankAccepted(f);
    }
  }

  lemma BlankHeader(f: File)
    requires OnTable(f) && AD_HEADER_SIZE <= InfoOf(f).resource.offset
    ensures HeaderOk(Blank(f)) && Count(Blank(f)) == Count(f) && TableFits(Blank(f), Count(f))
  {
    hide InfoOf, EntryOk, LastOf, EntryAt;
    OnTablePlaces(f);
    assert forall k :: 0 <= k < AD_HEADER_SIZE ==> Blank(f)[k] == f[k];
  }

  lemma BlankAccepted(f: File)
    requires OnTable(f) && AD_HEADER_SIZE <= InfoOf(f).resource.offset
    ensures Accepted(Blank(f)) <==> forall i :: 0 <= i < Count(f) ==> BlankEnd(f, i) <= TableEnd(f)
  {
    hide InfoOf, Blank, LastOf, EntryAt, HeaderOk;
    BlankHeader(f);
    forall i | 0 <= i < Count(f) ensures EntryOk(Blank(f), i) <==> BlankEnd(f, i) <= TableEnd(f) {
      BlankUnique(f, i);
    }
  }

  lemma BlankUnique(f: File, i: nat)
    requires OnTable(f) && i < Count(f)
    ensures Special(EntryAt(Blank(f), i).id) ==>
      forall j :: 0 <= j < i && EntryAt(Blank(f), j).id == EntryAt(Blank(f), i).id ==> EntryAt(Blank(f), j).offset == 0
  {
    hide InfoOf, Blank, LastOf, EntryAt, HeaderOk;
    BlankEntry(f, i);
    assert EntryOk(f, i);
    forall j | 0 <= j < i
      ensures AD_HEADER_SIZE + AD_ENTRY_SIZE * i <= ZeroFrom(f) ==> EntryAt(Blank(f), j) == EntryAt(f, j)
    {
      BlankEntry(f, j);
    }
  }

  /** A cleared file that stays has no FinderInfo to read, and no room for one. */
  lemma BlankInfo(f: File)
    requires OnTable(f) && Stays(f) && Accepted(Blank(f)) && Count(Blank(f)) == Count(f)
    ensures FinderInfo(Blank(f)) == Zeros(32)
    ensures InfoOf(Blank(f)).finder.offset != 0 ==> InfoOf(Blank(f)).finder.length == 0
  {
    hide Blank, EntryAt, HeaderOk;
    var c := Blank(f);
    var k, last := LastOf(c, AD_FINDER_ID, Count(f)), LastOf(f, AD_FINDER_ID, Count(f));
    if k >= 0 {
      BlankEntry(f, k);
      assert EntryAt(f, k).id == AD_FINDER_ID;
      assert EntryOk(f, last) && BlankEnd(f, k) <= TableEnd(f);
    }
  }

  // ----- a fork on the last bytes of the table

  /** The fork starts on its own length, the last four bytes of the table, and every other entry ends by them. */
  ghost predicate Edge(f: File) {
    && OnTable(f) && InfoOf(f).resource.headerOffset + 12 == TableEnd(f)
    && TableEnd(f) - 4 <= InfoOf(f).resource.offset && OthersEnd(f, TableEnd(f))
  }

  /** How many bytes of the fork lie on the table, and at its end under the fork's own length. */
  ghost function Covered(f: File): nat
    requires OnTable(f)
  {
    TableEnd(f) - InfoOf(f).resource.offset
  }

  /** A fork whose first bytes are covered by the last bytes of its length. */
  function Overlaid(fork: seq<byte>, covered: nat): (v: seq<byte>)
    requires |fork| <= UINT32_MAX && covered <= 4
    ensures |v| == |fork|
  {
    seq(|fork|, i requires 0 <= i < |fork| => if i < covered then U32(|fork|)[4 - covered + i] else fork[i])
  }

  /** Of the files that stay when they are cleared, those whose fork starts so late are the edge ones. */
  lemma StaysEdge(f: File)
    requires OnTable(f) && TableEnd(f) - 4 <= InfoOf(f).resource.offset
    ensures Stays(f) <==> InfoOf(f).resource.headerOffset + 12 == TableEnd(f) && OthersEnd(f, TableEnd(f))
  {
    hide Blank, EntryAt, HeaderOk, InfoOf;
    OnTablePlaces(f);
    EntryIndex(f, ForkIndex(f));
    if InfoOf(f).resource.headerOffset + 12 == TableEnd(f) {
      forall i | 0 <= i < Count(f)
        ensures BlankEnd(f, i) == EntryAt(f, i).offset + if i == ForkIndex(f) then 0 else EntryAt(f, i).length
      {
        BlankEntry(f, i);
      }
    }
  }

  lemma EntryIndex(f: File, i: nat)
    requires TableFits(f, i + 1)
    ensures EntryAt(f, i).headerOffset == AD_HEADER_SIZE + AD_ENTRY_SIZE * i
  {
  }

  lemma EdgePlaces(f: File)
    requires Edge(f)
    ensures FinderInfo(f) == Zeros(32)
    ensures InfoOf(f).finder.offset == TableEnd(f) && InfoOf(f).finder.length == 0
    ensures 0 < Covered(f) <= 4
  {
    OnTablePlaces(f);
    var k := LastOf(f, AD_FINDER_ID, Count(f));
    assert EntryAt(f, k).id != AD_RESOURCE_ID;
  }

  /** A file with an edge file's descriptors, but for the length of the fork. */
  lemma SameEdge(f: File, g: File, length: nat)
    requires Edge(f) && length <= UINT32_MAX && |g| >= TableEnd(f) && InfoOf(f).resource.offset + length <= |g|
    requires forall k :: 0 <= k < TableEnd(f) - 4 ==> g[k] == f[k]
    requires g[TableEnd(f) - 4..TableEnd(f)] == U32(length)
    ensures Edge(g) && TableEnd(g) == TableEnd(f)
    ensures InfoOf(g) == InfoOf(f).(resource := InfoOf(f).resource.(length := length))
  {
    hide InfoOf, LastOf, U32;
    OnTablePlaces(f);
    EdgeTable(f, g, length);
    EdgeLast(f, g);
    forall i | 0 <= i < Count(f) ensures EntryOk(g, i) {
      assert EntryOk(f, i);
    }
    EdgeInfo(f, g, length);
  }

  lemma EdgeTable(f: File, g: File, length: nat)
    requires Edge(f) && length <= UINT32_MAX && |g| >= TableEnd(f)
    requires forall k :: 0 <= k < TableEnd(f) - 4 ==> g[k] == f[k]
    requires g[TableEnd(f) - 4..TableEnd(f)] == U32(length)
    ensures HeaderOk(g) && Count(g) == Count(f) && TableFits(g, Count(f))
    ensures forall i :: 0 <= i < Count(f) ==>
      EntryAt(g, i) == if i == ForkIndex(f) then EntryAt(f, i).(length := length) else EntryAt(f, i)
  {
    hide InfoOf, LastOf, EntryOk, U32;
    OnTablePlaces(f);
    FieldAt(g, TableEnd(f) - 4, length);
    EntryIndex(f, ForkIndex(f));
  }

  lemma EdgeLast(f: File, g: File)
    requires Accepted(f) && TableFits(g, Count(f))
    requires forall i :: 0 <= i < Count(f) ==> EntryAt(g, i).id == EntryAt(f, i).id
    ensures LastOf(g, AD_FINDER_ID, Count(f)) == LastOf(f, AD_FINDER_ID, Count(f))
    ensures LastOf(g, AD_RESOURCE_ID, Count(f)) == LastOf(f, AD_RESOURCE_ID, Count(f))
  {
    hide EntryAt, EntryOk;
    SameLastOf(f, g, AD_FINDER_ID, Count(f));
    SameLastOf(f, g, AD_RESOURCE_ID, Count(f));
  }

  lemma EdgeInfo(f: File, g: File, length: nat)
    requires Edge(f) && Accepted(g) && Count(g) == Count(f)
    requires forall i :: 0 <= i < Count(f) ==>
      EntryAt(g, i) == if i == ForkIndex(f) then EntryAt(f, i).(length := length) else EntryAt(f, i)
    requires LastOf(g, AD_FINDER_ID, Count(f)) == LastOf(f, AD_FINDER_ID, Count(f))
    requires LastOf(g, AD_RESOURCE_ID, Count(f)) == LastOf(f, AD_RESOURCE_ID, Count(f))
    ensures InfoOf(g) == InfoOf(f).(resource := InfoOf(f).resource.(length := length))
  {
    hide EntryAt, EntryOk;
    OnTablePlaces(f);
    EdgePlaces(f);
  }

  /** A fork write within or at the end of such a fork leaves such a file, and puts the new length over the fork's first
      bytes. */
  lemma EdgeWritten(f: File, data: seq<byte>, offset: nat)
    requires Edge(f) && !TooBig(|data|, offset) && offset <= |Fork(f)|
    ensures |Written(Fork(f), data, offset)| <= UINT32_MAX && Covered(f) <= 4
    ensures var g := ForkStored(f, data, offset);
      && Edge(g) && TableEnd(g) == TableEnd(f) && InfoOf(g).resource.offset == InfoOf(f).resource.offset
      && Fork(g) == Overlaid(Written(Fork(f), data, offset), Covered(f))
  {
    hide Edge, Accepted, InfoOf, U32, HeaderOk, TableEnd, BytesWritten, Written, NewLength, Pwrite, Overlaid;
    EdgeMeans(f);
    var g, re, end := ForkStored(f, data, offset), InfoOf(f).resource, TableEnd(f);
    EdgeBytes(f, re.offset, re.length, end, data, offset);
    SameEdge(f, g, NewLength(re.length, |data|, offset));
    EdgeMeans(g);
  }

  lemma EdgeMeans(f: File)
    requires Edge(f)
    ensures Accepted(f) && HeaderOk(f) && InfoOf(f).resource.headerOffset + 12 == TableEnd(f) <= |f|
    ensures 12 <= TableEnd(f) && TableEnd(f) - 4 <= InfoOf(f).resource.offset < TableEnd(f)
  {
    OnTablePlaces(f);
  }

  /** The bytes of such a write. */
  lemma EdgeBytes(f: File, ro: nat, length: nat, end: nat, data: seq<byte>, offset: nat)
    requires 4 <= end <= |f| && end - 4 <= ro < end && ro + length <= |f| && offset <= length <= UINT32_MAX
    requires !TooBig(|data|, offset)
    ensures var n, w := NewLength(length, |data|, offset), Written(f[ro..ro + length], data, offset);
      var g := Pwrite(BytesWritten(f, ro, data, offset), U32(n), end - 4);
      && |w| == n <= UINT32_MAX && |g| >= end && ro + n <= |g| && g[end - 4..end] == U32(n)
      && (forall k :: 0 <= k < end - 4 ==> g[k] == f[k])
      && g[ro..ro + n] == Overlaid(w, end - ro)
  {
    hide U32, Overlaid, Pwrite;
    var n, h := NewLength(length, |data|, offset), BytesWritten(f, ro, data, offset);
    BytesKept(f, ro, data, offset);
    Landing(f, ro, length, data, offset);
    LengthOver(h, ro, n, end);
  }

  /** A length over the start of a fork. */
  lemma LengthOver(h: File, ro: nat, n: nat, end: nat)
    requires 4 <= end && end - 4 <= ro < end && ro + n <= |h| && n <= UINT32_MAX
    ensures var g := Pwrite(h, U32(n), end - 4);
      && |g| >= end && ro + n <= |g| && g[end - 4..end] == U32(n)
      && (forall k :: 0 <= k < end - 4 ==> g[k] == h[k])
      && g[ro..ro + n] == Overlaid(h[ro..ro + n], end - ro)
  {
    hide U32;
    var g := Pwrite(h, U32(n), end - 4);
    assert g[end - 4..end] == U32(n);
    var v, w := g[ro..ro + n], Overlaid(h[ro..ro + n], end - ro);
    forall k | 0 <= k < n ensures v[k] == w[k] {
      assert v[k] == g[ro + k];
    }
  }

  // ----- on a disk

  ghost predicate OnTableAt(files: map<Path, File>, sidecar: Path) {
    sidecar in files && OnTable(files[sidecar])
  }

  ghost predicate EdgeAt(files: map<Path, File>, sidecar: Path, covered: nat) {
    sidecar in files && Edge(files[sidecar]) && Covered(files[sidecar]) == covered
  }

  lemma EdgeAtMeans(files: map<Path, File>, sidecar: Path, covered: nat)
    requires EdgeAt(files, sidecar, covered)
    ensures sidecar in files && Accepted(files[sidecar]) && InfoOf(files[sidecar]).resource.offset > 0
    ensures View(files, sidecar).info == Zeros(32) && 0 < covered <= 4
    ensures InfoOf(files[sidecar]).finder.offset > 0
  {
    EdgePlaces(files[sidecar]);
  }

  /** An edge file that is cleared is one again, with an empty fork. */
  lemma ClearedEdge(f: File, files: map<Path, File>, sidecar: Path)
    requires OnTable(f) && Stays(f) && TableEnd(f) - 4 <= InfoOf(f).resource.offset
    requires sidecar in files && files[sidecar] == Blank(f)
    ensures EdgeAt(files, sidecar, Covered(f)) && View(files, sidecar) == EMPTY
  {
    hide Accepted, InfoOf, Blank, HeaderOk, TableEnd, ForkStored, OnTable, FinderInfo;
    StaysEdge(f);
    EdgeMeans(f);
    ClearedBlank(f);
    EdgeWritten(f, [], 0);
    EdgePlaces(files[sidecar]);
  }

  /** A FinderInfo set in such a file is lost, and the file stays one. */
  lemma EdgeSet(before: map<Path, File>, after: map<Path, File>, sidecar: Path, value: seq<byte>, covered: nat)
    requires EdgeAt(before, sidecar, covered) && View(before, sidecar).fork == [] && |value| == 32
    requires sidecar in after
    requires after[sidecar] == Pwrite(before[sidecar], value, InfoOf(before[sidecar]).finder.offset)
    ensures EdgeAt(after, sidecar, covered) && View(after, sidecar) == EMPTY
  {
    hide Accepted, InfoOf, HeaderOk, TableEnd, FinderInfo, U32, Get32;
    var f, g := before[sidecar], after[sidecar];
    EdgeMeans(f);
    EdgePlaces(f);
    EdgeLength(f);
    assert g[TableEnd(f) - 4..TableEnd(f)] == f[TableEnd(f) - 4..TableEnd(f)];
    SameEdge(f, g, 0);
    EdgeMeans(g);
    EdgePlaces(g);
  }

  lemma EdgeLength(f: File)
    requires Edge(f)
    ensures f[TableEnd(f) - 4..TableEnd(f)] == U32(|Fork(f)|)
  {
    hide U32, Get32;
    OnTablePlaces(f);
    Get32Bytes(f, TableEnd(f) - 4);
    EntryIndex(f, ForkIndex(f));
  }

  lemma OverlaidAgain(fork: seq<byte>, offset: nat, data: seq<byte>, covered: nat)
    requires covered <= 4 && data != [] && offset + |data| <= |fork| <= UINT32_MAX
    requires data == fork[offset..offset + |data|]
    ensures var w := Written(Overlaid(fork[..offset], covered), data, offset);
      |w| == offset + |data| && Overlaid(w, covered) == Overlaid(fork[..offset + |data|], covered)
  {
    hide U32;
    var front, whole := Overlaid(fork[..offset], covered), fork[..offset + |data|];
    var w := Written(front, data, offset);
    assert w == front + data;
    assert forall k :: covered <= k < |w| ==> w[k] == whole[k];
  }

  /** One more chunk of a fork at the end of what is there. */
  lemma EdgeGrows(before: map<Path, File>, after: map<Path, File>, sidecar: Path, fork: seq<byte>, offset: nat,
                  data: seq<byte>, covered: nat)
    requires EdgeAt(before, sidecar, covered) && covered <= 4 && sidecar in after
    requires data != [] && offset + |data| <= |fork| <= UINT32_MAX && data == fork[offset..offset + |data|]
    requires View(before, sidecar).fork == Overlaid(fork[..offset], covered)
    requires Accepted(before[sidecar]) && after[sidecar] == ForkStored(before[sidecar], data, offset)
    ensures EdgeAt(after, sidecar, covered)
    ensures View(after, sidecar) == AdState(Zeros(32), Overlaid(fork[..offset + |data|], covered))
  {
    hide InfoOf, HeaderOk, TableEnd, FinderInfo, ForkStored, Overlaid, Written, EntryOk;
    var f, g := before[sidecar], after[sidecar];
    EdgeMeans(f);
    EdgeWritten(f, data, offset);
    OverlaidAgain(fork, offset, data, covered);
    EdgeMeans(g);
    EdgePlaces(g);
  }

  /** What is left where a cleared file stays and its fork starts before its own length: nothing to read of FinderInfo,
      and no byte after the table. */
  ghost predicate Hollow(c: File) {
    && Accepted(c) && |c| == TableEnd(c)
    && (InfoOf(c).finder.offset != 0 ==> InfoOf(c).finder.length == 0)
  }

  lemma ClearedHollow(f: File)
    requires OnTable(f) && Stays(f)
    ensures Hollow(Blank(f)) && FinderInfo(Blank(f)) == Zeros(32)
  {
    hide InfoOf, Blank, EntryOk, HeaderOk, EntryAt, LastOf;
    OnTablePlaces(f);
    BlankHeader(f);
    BlankAccepted(f);
    BlankInfo(f);
  }

  lemma HollowMeans(c: File)
    requires Hollow(c) && InfoOf(c).finder.offset != 0
    ensures InfoOf(c).finder.length < 32
    ensures TableEnd(c) <= InfoOf(c).finder.offset ==> OffFork(c)
  {
  }

  // ----- two files

  /** A file of 50 bytes: an empty FinderInfo at its end, and an empty fork on the length of the fork. */
  function EdgeFile(): File {
    U32(AD_MAGIC) + U32(AD_VERSION) + Zeros(16) + U16(2)
    + U32(AD_FINDER_ID) + U32(50) + U32(0) + U32(AD_RESOURCE_ID) + U32(46) + U32(0)
  }

  /** What is written to its fork is not what is read. */
  method EdgeLoses(disk: Disk, sidecar: Path) returns (r: Result<seq<byte>>)
    requires sidecar in disk.files && disk.files[sidecar] == EdgeFile()
    modifies disk
    ensures r == Ok([0, 0, 0, 4])
  {
    hide Accepted, InfoOf, EdgeFile, HeaderOk, TableEnd, OnTable, ForkStored, Overlaid, Written;
    EdgeFileIs();
    EdgeMeans(EdgeFile());
    EdgeWritten(EdgeFile(), [9, 9, 9, 9], 0);
    EdgeMeans(ForkStored(EdgeFile(), [9, 9, 9, 9], 0));
    NinesOverlaid();
    var _ := AdResourceWrite(disk, sidecar, true, [9, 9, 9, 9], 0);
    ghost var fork := View(disk.files, sidecar).fork;
    assert fork == [0, 0, 0, 4];
    assert Pread(fork, 4, 0) == fork[0..4] == fork;
    r := AdResourceRead(disk, sidecar, 4, 0);
  }

  lemma NinesOverlaid()
    ensures Written([], [9, 9, 9, 9], 0) == [9, 9, 9, 9] && Overlaid([9, 9, 9, 9], 4) == [0, 0, 0, 4]
  {
    assert U32(4) == [0, 0, 0, 4];
  }

  lemma EdgeFileIs()
    ensures Edge(EdgeFile()) && Fork(EdgeFile()) == [] && Covered(EdgeFile()) == 4 && Stays(EdgeFile())
  {
    var f := EdgeFile();
    EdgeFields();
    EdgeFileEdge(f);
    StaysEdge(f);
  }

  lemma EdgeFileEdge(f: File)
    requires HeaderOk(f) && Count(f) == 2 && |f| == 50
    requires EntryAt(f, 0) == AdEntry(AD_FINDER_ID, 50, 0, 26) && EntryAt(f, 1) == AdEntry(AD_RESOURCE_ID, 46, 0, 38)
    ensures Edge(f) && Fork(f) == [] && Covered(f) == 4
  {
    hide Get32, Get16;
    assert LastOf(f, AD_FINDER_ID, 2) == 0 && LastOf(f, AD_RESOURCE_ID, 2) == 1;
  }

  lemma EdgeFields()
    ensures var f := EdgeFile();
      && HeaderOk(f) && Count(f) == 2 && |f| == 50
      && EntryAt(f, 0) == AdEntry(AD_FINDER_ID, 50, 0, 26) && EntryAt(f, 1) == AdEntry(AD_RESOURCE_ID, 46, 0, 38)
  {
    var f := EdgeFile();
    hide U32, U16, Get32, Get16;
    assert f[0..4] == U32(AD_MAGIC);
    FieldAt(f, 0, AD_MAGIC);
    assert f[4..8] == U32(AD_VERSION);
    FieldAt(f, 4, AD_VERSION);
    assert f[26..30] == U32(AD_FINDER_ID);
    FieldAt(f, 26, AD_FINDER_ID);
    assert f[30..34] == U32(50);
    FieldAt(f, 30, 50);
    assert f[34..38] == U32(0);
    FieldAt(f, 34, 0);
    assert f[38..42] == U32(AD_RESOURCE_ID);
    FieldAt(f, 38, AD_RESOURCE_ID);
    assert f[42..46] == U32(46);
    FieldAt(f, 42, 46);
    assert f[46..50] == f[46..] == U32(0);
    FieldAt(f, 46, 0);
    HalfAt(f, 24, 2);
  }

  /** A file of 62 bytes with two descriptors of a fork: ten bytes without a place, and an empty one at the start of its
      own descriptor. */
  function TwiceFile(): File {
    U32(AD_MAGIC) + U32(AD_VERSION) + Zeros(16) + U16(3)
    + U32(AD_FINDER_ID) + U32(62) + U32(0) + U32(AD_RESOURCE_ID) + U32(0) + U32(10)
    + U32(AD_RESOURCE_ID) + U32(50) + U32(0)
  }

  /** Clearing it uncovers the ten bytes, which are the start of the header. */
  lemma TwiceFileIs()
    ensures var f := TwiceFile();
      && OnTable(f) && Stays(f) && InfoOf(f).resource.offset < TableEnd(f) - 4 && Accepted(Blank(f))
      && InfoOf(Blank(f)).finder.offset == TableEnd(Blank(f)) && |Fork(Blank(f))| == 10
  {
    var f := TwiceFile();
    TwiceFields();
    TwicePlaces(f);
    hide TwiceFile, Get32, Get16, Blank, LastOf;
    BlankEntry(f, 0);
    BlankEntry(f, 1);
    BlankEntry(f, 2);
    BlankHeader(f);
    TwiceBlank(f);
  }

  lemma TwicePlaces(f: File)
    requires HeaderOk(f) && Count(f) == 3 && |f| == 62
    requires EntryAt(f, 0) == AdEntry(AD_FINDER_ID, 62, 0, 26) && EntryAt(f, 1) == AdEntry(AD_RESOURCE_ID, 0, 10, 38)
    requires EntryAt(f, 2) == AdEntry(AD_RESOURCE_ID, 50, 0, 50)
    ensures OnTable(f) && InfoOf(f).resource == EntryAt(f, 2) && ZeroFrom(f) == 50 && TableEnd(f) == 62
  {
    hide Get32, Get16;
    assert LastOf(f, AD_FINDER_ID, 3) == 0 && LastOf(f, AD_RESOURCE_ID, 3) == 2;
  }

  lemma TwiceBlank(f: File)
    requires OnTable(f) && Count(f) == 3 && TableEnd(f) == 62 && ZeroFrom(f) == 50
    requires InfoOf(f).resource == AdEntry(AD_RESOURCE_ID, 50, 0, 50)
    requires var c := Blank(f);
      && HeaderOk(c) && Count(c) == 3 && !Special(EntryAt(c, 2).id) && EntryAt(c, 2).length == 0
      && EntryAt(c, 0) == AdEntry(AD_FINDER_ID, 62, 0, 26) && EntryAt(c, 1) == AdEntry(AD_RESOURCE_ID, 0, 10, 38)
    ensures Stays(f) && Accepted(Blank(f))
    ensures InfoOf(Blank(f)).finder.offset == TableEnd(Blank(f)) && |Fork(Blank(f))| == 10
  {
    hide Get16;
    var c := Blank(f);
    assert c[54] == 0 && c[55] == 0 && c[56] == 0 && c[57] == 0 && Get32(c, 54) == 0;
    hide Blank;
    assert LastOf(c, AD_FINDER_ID, 3) == 0 && LastOf(c, AD_RESOURCE_ID, 3) == 1;
    BlankAccepted(f);
  }

  lemma TwiceFields()
    ensures var f := TwiceFile();
      && HeaderOk(f) && Count(f) == 3 && |f| == 62
      && EntryAt(f, 0) == AdEntry(AD_FINDER_ID, 62, 0, 26) && EntryAt(f, 1) == AdEntry(AD_RESOURCE_ID, 0, 10, 38)
      && EntryAt(f, 2) == AdEntry(AD_RESOURCE_ID, 50, 0, 50)
  {
    var f := TwiceFile();
    hide U32, U16, Get32, Get16;
    assert f[0..4] == U32(AD_MAGIC);
    FieldAt(f, 0, AD_MAGIC);
    assert f[4..8] == U32(AD_VERSION);
    FieldAt(f, 4, AD_VERSION);
    assert f[26..30] == U32(AD_FINDER_ID);
    FieldAt(f, 26, AD_FINDER_ID);
    assert f[30..34] == U32(62);
    FieldAt(f, 30, 62);
    assert f[34..38] == U32(0);
    FieldAt(f, 34, 0);
    assert f[38..42] == U32(AD_RESOURCE_ID);
    FieldAt(f, 38, AD_RESOURCE_ID);
    assert f[42..46] == U32(0);
    FieldAt(f, 42, 0);
    assert f[46..50] == U32(10);
    FieldAt(f, 46, 10);
    assert f[50..54] == U32(AD_RESOURCE_ID);
    FieldAt(f, 50, AD_RESOURCE_ID);
    assert f[54..58] == U32(50);
    FieldAt(f, 54, 50);
    assert f[58..62] == f[58..] == U32(0);
    FieldAt(f, 58, 0);
    HalfAt(f, 24, 3);
  }
}
