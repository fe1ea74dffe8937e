/** The Netatalk extended-attribute store of daemon/metadata.c: a header file beside the sidecar, one value file
    per attribute, and the finite map from names to values they keep. */
module Attributes {
  import opened Bytes
  import opened EaHeader
  import opened NameList
  import MetadataNames

  type Name = seq<byte>

  // "::EA" and "::EA::"
  const EA_SUFFIX: seq<byte> := [58, 58, 69, 65]
  const EA_VALUE_SUFFIX: seq<byte> := [58, 58, 69, 65, 58, 58]

  function HeaderPath(ad: Path): Path {
    ad + EA_SUFFIX
  }

  function ValuePath(ad: Path, name: Name): (p: Path)
    ensures p != HeaderPath(ad) && p != ad
  {
    assert |ad + EA_VALUE_SUFFIX + name| > |HeaderPath(ad)|;
    ad + EA_VALUE_SUFFIX + name
  }

  lemma ValuePathInjective(ad: Path, a: Name, b: Name)
    requires ValuePath(ad, a) == ValuePath(ad, b)
    ensures a == b
  {
    assert a == ValuePath(ad, a)[|ad| + 6..] && b == ValuePath(ad, b)[|ad| + 6..];
  }

  // ----- the map a store keeps

  /** An item's value: what its file has of its size, or nothing when the file is missing or short. */
  ghost function ValueAt(files: map<Path, File>, ad: Path, it: EaItem): Option<seq<byte>> {
    var path := ValuePath(ad, it.name);
    if path in files && 0 <= it.size <= |files[path]| then Some(files[path][..it.size]) else None
  }

  /** The header lists the items, and a missing header none. */
  ghost predicate Stored(files: map<Path, File>, ad: Path, items: seq<EaItem>) {
    if HeaderPath(ad) in files then Lists(files[HeaderPath(ad)], items) else items == []
  }

  ghost predicate Readable(files: map<Path, File>, ad: Path) {
    exists items :: Stored(files, ad, items)
  }

  ghost function Names(items: seq<EaItem>): set<Name> {
    set i | 0 <= i < |items| :: items[i].name
  }

  ghost function Values(files: map<Path, File>, ad: Path, items: seq<EaItem>): (m: map<Name, Option<seq<byte>>>)
    requires DistinctNames(items)
    ensures m.Keys == Names(items)
    ensures forall i :: 0 <= i < |items| ==> m[items[i].name] == ValueAt(files, ad, items[i])
  {
    var m := map i | 0 <= i < |items| :: items[i].name := ValueAt(files, ad, items[i]);
    assert forall i :: 0 <= i < |items| ==> items[i].name in m;
    m
  }

  /** The listed names, each with its value. */
  ghost function Attrs(files: map<Path, File>, ad: Path): map<Name, Option<seq<byte>>>
    requires Readable(files, ad)
  {
    var items :| Stored(files, ad, items);
    Values(files, ad, items)
  }

  lemma StoredUnique(files: map<Path, File>, ad: Path, a: seq<EaItem>, b: seq<EaItem>)
    requires Stored(files, ad, a) && Stored(files, ad, b)
    ensures a == b
  {
    if HeaderPath(ad) in files {
      ListsUnique(files[HeaderPath(ad)], a, b);
    }
  }

  lemma AttrsAre(files: map<Path, File>, ad: Path, items: seq<EaItem>)
    requires Stored(files, ad, items)
    ensures Readable(files, ad) && Attrs(files, ad) == Values(files, ad, items) && |Attrs(files, ad)| == |items|
  {
    var chosen :| Stored(files, ad, chosen) && Attrs(files, ad) == Values(files, ad, chosen);
    StoredUnique(files, ad, items, chosen);
    NamesCount(items);
  }

  lemma {:induction false} NamesCount(items: seq<EaItem>)
    requires DistinctNames(items)
    ensures |Names(items)| == |items|
  {
    if items != [] {
      var front, last := items[..|items| - 1], items[|items| - 1];
      NamesCount(front);
      assert Names(items) == Names(front) + {last.name};
    }
  }

  /** The store has room for a name the loader can read again. */
  predicate Fits(m: map<Name, Option<seq<byte>>>, name: Name) {
    |name| < NAME_MAX && (name in m || |m| < EA_MAX_ITEMS)
  }

  // ----- the header file

  /** load_ea_items. */
  method LoadEaItems(disk: Disk, ad: Path) returns (r: Result<seq<EaItem>>)
    ensures r.Ok? ==> HeaderPath(ad) in disk.files && Lists(disk.files[HeaderPath(ad)], r.value)
    ensures r == Err(ENOATTR) <==> HeaderPath(ad) !in disk.files
    ensures r.Err? && r.error != ENOATTR ==> r.error == EIO || r.error == EINVAL
    ensures r.Err? && r.error != ENOATTR ==> forall items :: !Lists(disk.files[HeaderPath(ad)], items)
  {
    if HeaderPath(ad) !in disk.files {
      return Err(ENOATTR);
    }
    r := LoadItems(disk.files[HeaderPath(ad)]);
  }

  /** save_ea_items: the header is written anew, or removed when there is nothing to list. */
  method SaveEaItems(disk: Disk, ad: Path, items: seq<EaItem>) returns (r: Result<()>)
    requires |items| < 0x1_0000
    requires forall i :: 0 <= i < |items| ==> CString(items[i].name) && 0 <= items[i].size <= UINT32_MAX
    modifies disk
    ensures r.Ok? <==> Storable(items)
    ensures r.Ok? ==> disk.files == if items == [] then old(disk.files) - {HeaderPath(ad)}
                                    else old(disk.files)[HeaderPath(ad) := Header(items)]
    ensures r.Err? ==> r.error == EINVAL && disk.files == old(disk.files)
  {
    if |items| == 0 {
      disk.files := disk.files - {HeaderPath(ad)};
      return Ok(());
    }
    var header := EncodeHeader(items);
    if header.Err? {
      return Err(header.error);
    }
    disk.files := disk.files[HeaderPath(ad) := header.value];
    return Ok(());
  }

  /** The index of a name's item, or the count. */
  method FindItem(items: seq<EaItem>, name: Name) returns (index: nat)
    ensures index <= |items| && Fresh(items[..index], name)
    ensures index < |items| ==> items[index].name == name
  {
    index := 0;
    while index < |items|
      invariant index <= |items| && Fresh(items[..index], name)
    {
      if items[index].name == name {
        return;
      }
      index := index + 1;
    }
  }

  // ----- the four operations

  /** Of the store's files, only the header and one value's differ. */
  ghost predicate OnlyAttr(before: map<Path, File>, after: map<Path, File>, ad: Path, name: Name) {
    forall p :: p != HeaderPath(ad) && p != ValuePath(ad, name) ==>
      (p in after <==> p in before) && (p in after ==> after[p] == before[p])
  }

  /** The items with a name's size set, the name added last when it is new. */
  function Upsert(items: seq<EaItem>, index: nat, name: Name, size: int): seq<EaItem>
    requires index <= |items|
  {
    if index == |items| then items + [EaItem(name, size)] else items[index := EaItem(items[index].name, size)]
  }

  /** The store's items, read by load_ea_items with a missing header taken for an empty one. */
  method StoredItems(disk: Disk, ad: Path) returns (r: Result<seq<EaItem>>)
    ensures r.Ok? <==> Readable(disk.files, ad)
    ensures r.Ok? ==> Stored(disk.files, ad, r.value) && Loadable(r.value)
    ensures r.Ok? ==> Attrs(disk.files, ad) == Values(disk.files, ad, r.value)
    ensures r.Ok? ==> |Attrs(disk.files, ad)| == |r.value|
    ensures r.Err? ==> r.error == EIO || r.error == EINVAL
  {
    r := LoadEaItems(disk, ad);
    if r == Err(ENOATTR) {
      r := Ok([]);
    }
    if r.Ok? {
      AttrsAre(disk.files, ad, r.value);
    }
  }

  /** netatalk_get: the value, no attribute when the name or its file is missing, and EIO when the file is short. */
  method NetatalkGet(disk: Disk, ad: Path, name: Name) returns (r: Result<seq<byte>>)
    ensures !Readable(disk.files, ad) ==> r.Err?
    ensures Readable(disk.files, ad) && name !in Attrs(disk.files, ad) ==> r == Err(ENOATTR)
    ensures Readable(disk.files, ad) && name in Attrs(disk.files, ad) && Attrs(disk.files, ad)[name].Some? ==>
      r == Ok(Attrs(disk.files, ad)[name].value)
    ensures Readable(disk.files, ad) && name in Attrs(disk.files, ad) && Attrs(disk.files, ad)[name].None? ==>
      r == Err(if ValuePath(ad, name) in disk.files then EIO else ENOATTR)
    ensures r.Ok? ==> ValuePath(ad, name) in disk.files && r.value <= disk.files[ValuePath(ad, name)]
    ensures r.Ok? ==> exists items :: Stored(disk.files, ad, items) && EaItem(name, |r.value|) in items
  {
    var load := StoredItems(disk, ad);
    if load.Err? {
      return Err(load.error);
    }
    var items := load.value;
    var index := FindItem(items, name);
    if index == |items| {
      assert items[..index] == items;
      return Err(ENOATTR);
    }
    assert items[index].name == name && name in Names(items);
    if ValuePath(ad, name) !in disk.files {
      return Err(ENOATTR);
    }
    var file, size := disk.files[ValuePath(ad, name)], items[index].size;
    if |file| < size {
      return Err(EIO);
    }
    return Ok(file[..size]);
  }

  /** netatalk_set. */
  method NetatalkSet(disk: Disk, ad: Path, name: Name, value: seq<byte>) returns (r: Result<()>)
    requires CString(name) && |name| <= NAME_MAX
    modifies disk
    ensures OnlyAttr(old(disk.files), disk.files, ad, name)
    ensures r.Ok? <==> |value| <= UINT32_MAX && old(Readable(disk.files, ad))
    ensures r.Err? ==> disk.files == old(disk.files)
    ensures |value| > UINT32_MAX ==> r == Err(E2BIG)
    ensures |value| <= UINT32_MAX && r.Err? ==> r.error == EIO || r.error == EINVAL
    ensures r.Ok? ==> (Readable(disk.files, ad) <==> Fits(old(Attrs(disk.files, ad)), name))
    ensures r.Ok? && Readable(disk.files, ad) ==>
      Attrs(disk.files, ad) == old(Attrs(disk.files, ad))[name := Some(value)]
  {
    if |value| > UINT32_MAX {
      return Err(E2BIG);
    }
    var load := StoredItems(disk, ad);
    if load.Err? {
      return Err(load.error);
    }
    var items := load.value;
    var index := FindItem(items, name);
    var grown := Upsert(items, index, name, |value|);
    UpsertStorable(items, index, name, |value|);
    StoreItem(disk, ad, name, value, grown);
    hide Loadable, Lists, ValuePath, HeaderPath, Header, Upsert, Attrs, Readable;
    SetStores(old(disk.files), ad, items, index, name, value, disk.files);
    return Ok(());
  }

  /** The writes of netatalk_set: the value's file, and then the header. */
  method StoreItem(disk: Disk, ad: Path, name: Name, value: seq<byte>, items: seq<EaItem>)
    requires Storable(items) && 0 < |items| < 0x1_0000
    modifies disk
    ensures OnlyAttr(old(disk.files), disk.files, ad, name)
    ensures ValuePath(ad, name) in disk.files && disk.files[ValuePath(ad, name)] == value
    ensures HeaderPath(ad) in disk.files && disk.files[HeaderPath(ad)] == Header(items)
  {
    disk.files := disk.files[ValuePath(ad, name) := value];
    var r := SaveEaItems(disk, ad, items);
  }

  lemma UpsertStorable(items: seq<EaItem>, index: nat, name: Name, size: int)
    requires Loadable(items) && index <= |items| && CString(name) && |name| <= NAME_MAX && 0 <= size <= UINT32_MAX
    ensures Storable(Upsert(items, index, name, size))
  {
  }

  /** Setting an attribute leaves a store that is readable exactly when the name fits, and then holds the value. */
  lemma SetStores(before: map<Path, File>, ad: Path, items: seq<EaItem>, index: nat, name: Name, value: seq<byte>,
                  after: map<Path, File>)
    requires Stored(before, ad, items) && Loadable(items)
    requires CString(name) && |name| <= NAME_MAX && |value| <= UINT32_MAX
    requires index <= |items| && Fresh(items[..index], name) && (index < |items| ==> items[index].name == name)
    requires Storable(Upsert(items, index, name, |value|))
    requires OnlyAttr(before, after, ad, name) && ValuePath(ad, name) in after && after[ValuePath(ad, name)] == value
    requires HeaderPath(ad) in after && after[HeaderPath(ad)] == Header(Upsert(items, index, name, |value|))
    ensures Readable(before, ad) && (Readable(after, ad) <==> Fits(Attrs(before, ad), name))
    ensures Readable(after, ad) ==> Attrs(after, ad) == Attrs(before, ad)[name := Some(value)]
  {
    hide ValuePath, HeaderPath, Values;
    var grown := Upsert(items, index, name, |value|);
    FitsLoadable(items, index, name, |value|);
    LoadUndoesSave(grown);
    AttrsAre(before, ad, items);
    if Loadable(grown) {
      AttrsAre(after, ad, grown);
      SetValues(before, ad, items, index, name, value, after);
    }
  }

  lemma SetValues(before: map<Path, File>, ad: Path, items: seq<EaItem>, index: nat, name: Name, value: seq<byte>,
                  after: map<Path, File>)
    requires DistinctNames(items)
    requires index <= |items| && Fresh(items[..index], name) && (index < |items| ==> items[index].name == name)
    requires OnlyAttr(before, after, ad, name) && ValuePath(ad, name) in after && after[ValuePath(ad, name)] == value
    requires DistinctNames(Upsert(items, index, name, |value|))
    requires Names(Upsert(items, index, name, |value|)) == Names(items) + {name}
    ensures Values(after, ad, Upsert(items, index, name, |value|)) == Values(before, ad, items)[name := Some(value)]
  {
    hide ValuePath, HeaderPath;
    var grown := Upsert(items, index, name, |value|);
    var m := Values(before, ad, items)[name := Some(value)];
    forall i | 0 <= i < |grown| ensures m[grown[i].name] == ValueAt(after, ad, grown[i]) {
      if i == index {
        assert value[..|value|] == value;
      } else {
        assert grown[i] == items[i] && grown[i].name != grown[index].name;
        OtherValue(before, after, ad, name, items[i]);
      }
    }
    ValuesAre(after, ad, grown, m);
  }

  lemma OtherValue(before: map<Path, File>, after: map<Path, File>, ad: Path, name: Name, it: EaItem)
    requires OnlyAttr(before, after, ad, name) && it.name != name
    ensures ValueAt(after, ad, it) == ValueAt(before, ad, it)
  {
    hide ValuePath, HeaderPath;
    if ValuePath(ad, it.name) == ValuePath(ad, name) {
      ValuePathInjective(ad, it.name, name);
    }
  }

  lemma FitsLoadable(items: seq<EaItem>, index: nat, name: Name, size: int)
    requires Loadable(items) && CString(name) && |name| <= NAME_MAX && 0 <= size <= UINT32_MAX
    requires index <= |items| && Fresh(items[..index], name) && (index < |items| ==> items[index].name == name)
    ensures Loadable(Upsert(items, index, name, size)) <==> |name| < NAME_MAX && (index < |items| || |items| < EA_MAX_ITEMS)
    ensures name in Names(items) <==> index < |items|
    ensures Names(Upsert(items, index, name, size)) == Names(items) + {name}
  {
    var grown := Upsert(items, index, name, size);
    assert forall k :: 0 <= k < |items| ==> grown[k].name == items[k].name;
    assert index == |items| ==> items[..index] == items;
    assert grown[index].name == name;
    assert forall n :: n in Names(items) ==> exists k :: 0 <= k < |items| && items[k].name == n == grown[k].name;
  }

  /** netatalk_remove: the value's file goes, and then the name. */
  method NetatalkRemove(disk: Disk, ad: Path, name: Name) returns (r: Result<()>)
    modifies disk
    ensures OnlyAttr(old(disk.files), disk.files, ad, name)
    ensures r.Ok? <==> old(Readable(disk.files, ad)) && name in old(Attrs(disk.files, ad))
    ensures r.Err? ==> disk.files == old(disk.files)
    ensures old(Readable(disk.files, ad)) && r.Err? ==> r.error == ENOATTR
    ensures old(!Readable(disk.files, ad)) ==> r == Err(EIO) || r == Err(EINVAL)
    ensures r.Ok? ==> Readable(disk.files, ad) && Attrs(disk.files, ad) == old(Attrs(disk.files, ad)) - {name}
  {
    var load := StoredItems(disk, ad);
    if load.Err? {
      return Err(load.error);
    }
    var items := load.value;
    var index := FindItem(items, name);
    if index == |items| {
      assert items[..index] == items;
      return Err(ENOATTR);
    }
    DropItem(disk, ad, items, index);
    hide Lists, Loadable, ValuePath, HeaderPath, Attrs, Readable;
    RemoveStores(old(disk.files), ad, items, index, disk.files);
    return Ok(());
  }

  /** The writes of netatalk_remove: the value's file is removed and the header lists the other items. */
  method DropItem(disk: Disk, ad: Path, items: seq<EaItem>, index: nat)
    requires Loadable(items) && index < |items|
    modifies disk
    ensures OnlyAttr(old(disk.files), disk.files, ad, items[index].name)
    ensures HeaderNow(disk.files, ad, Without(items, index))
  {
    disk.files := disk.files - {ValuePath(ad, items[index].name)};
    var fewer := Without(items, index);
    LoadUndoesSave(fewer);
    var r := SaveEaItems(disk, ad, fewer);
  }

  function Without(items: seq<EaItem>, index: nat): (fewer: seq<EaItem>)
    requires index < |items|
    ensures Loadable(items) ==> Loadable(fewer)
  {
    items[..index] + items[index + 1..]
  }

  ghost predicate HeaderNow(files: map<Path, File>, ad: Path, items: seq<EaItem>) {
    if items == [] then HeaderPath(ad) !in files
    else HeaderPath(ad) in files && Lists(files[HeaderPath(ad)], items)
  }

  lemma RemoveStores(before: map<Path, File>, ad: Path, items: seq<EaItem>, index: nat, after: map<Path, File>)
    requires Stored(before, ad, items) && Loadable(items) && index < |items|
    requires OnlyAttr(before, after, ad, items[index].name)
    requires HeaderNow(after, ad, Without(items, index))
    ensures Readable(before, ad) && Readable(after, ad)
    ensures Attrs(after, ad) == Attrs(before, ad) - {items[index].name}
  {
    hide ValuePath, HeaderPath, Lists;
    AttrsAre(before, ad, items);
    AttrsAre(after, ad, Without(items, index));
    RemoveValues(before, ad, items, index, after);
  }

  lemma RemoveValues(before: map<Path, File>, ad: Path, items: seq<EaItem>, index: nat, after: map<Path, File>)
    requires Loadable(items) && index < |items|
    requires OnlyAttr(before, after, ad, items[index].name)
    ensures Values(after, ad, Without(items, index)) == Values(before, ad, items) - {items[index].name}
  {
    hide ValuePath, HeaderPath;
    var fewer, name := Without(items, index), items[index].name;
    WithoutNames(items, index);
    var m := Values(before, ad, items) - {name};
    forall i | 0 <= i < |fewer| ensures fewer[i].name in m && m[fewer[i].name] == ValueAt(after, ad, fewer[i]) {
      var k := if i < index then i else i + 1;
      assert fewer[i] == items[k] && items[k].name != name;
      OtherValue(before, after, ad, name, items[k]);
    }
    ValuesAre(after, ad, fewer, m);
  }

  lemma WithoutNames(items: seq<EaItem>, index: nat)
    requires DistinctNames(items) && index < |items|
    ensures Names(Without(items, index)) == Names(items) - {items[index].name}
  {
    var fewer := Without(items, index);
    assert forall k :: 0 <= k < index ==> fewer[k] == items[k];
    assert forall k :: index < k < |items| ==> fewer[k - 1] == items[k];
  }

  /** A map is the items' when it has their names and each one's value. */
  lemma ValuesAre(files: map<Path, File>, ad: Path, items: seq<EaItem>, m: map<Name, Option<seq<byte>>>)
    requires DistinctNames(items) && m.Keys == Names(items)
    requires forall i :: 0 <= i < |items| ==> m[items[i].name] == ValueAt(files, ad, items[i])
    ensures m == Values(files, ad, items)
  {
    hide ValueAt;
    var v := Values(files, ad, items);
    forall n | n in Names(items) ensures v[n] == m[n] {
      var i :| 0 <= i < |items| && items[i].name == n;
    }
  }

  /** The names of a list, each once. */
  ghost predicate Enumerates(names: seq<Name>, all: set<Name>) {
    && CStrings(names)
    && (forall i, j :: 0 <= i < j < |names| ==> names[i] != names[j])
    && (forall i :: 0 <= i < |names| ==> names[i] in all)
    && (forall n :: n in all ==> n in names)
  }

  lemma EnumerateOne(names: seq<Name>, all: set<Name>, n: Name)
    requires Enumerates(names, all) && CString(n) && n !in all
    ensures n !in names && Enumerates(names + [n], all + {n})
  {
  }

  ghost function Unfiltered(all: set<Name>): set<Name> {
    set n | n in all && !MetadataNames.Filtered(n)
  }

  /** netatalk_list: every name that is not filtered, once. */
  method NetatalkList(disk: Disk, ad: Path) returns (r: Result<seq<byte>>, ghost names: seq<Name>)
    ensures r.Ok? <==> Readable(disk.files, ad)
    ensures r.Ok? ==> r.value == Joined(names) && Enumerates(names, Unfiltered(Attrs(disk.files, ad).Keys))
    ensures r.Ok? ==> forall n :: n in names <==> n in Attrs(disk.files, ad) && !MetadataNames.Filtered(n)
    ensures r.Err? ==> r.error == EIO || r.error == EINVAL
  {
    var load := StoredItems(disk, ad);
    if load.Err? {
      return Err(load.error), [];
    }
    var list;
    list, names := JoinNames(load.value);
    return Ok(list), names;
  }

  /** The loop of netatalk_list. */
  method JoinNames(items: seq<EaItem>) returns (list: seq<byte>, ghost names: seq<Name>)
    requires Loadable(items)
    ensures list == Joined(names) && Enumerates(names, Unfiltered(Names(items)))
  {
    list, names := [], [];
    for i := 0 to |items|
      invariant list == Joined(names) && Enumerates(names, Unfiltered(Names(items[..i])))
    {
      assert Names(items[..i + 1]) == Names(items[..i]) + {items[i].name};
      assert items[i].name !in Names(items[..i]);
      if !MetadataNames.Filtered(items[i].name) {
        var grown := AppendName(list, items[i].name, names);
        list := grown.value;
        EnumerateOne(names, Unfiltered(Names(items[..i])), items[i].name);
        names := names + [items[i].name];
      }
      assert Unfiltered(Names(items[..i + 1])) == Unfiltered(Names(items[..i])) + Unfiltered({items[i].name});
    }
    assert items[..|items|] == items;
  }

  // ----- whole runs

  datatype AttrOp = Put(name: Name, value: seq<byte>) | Drop(name: Name)

  function After(m: map<Name, Option<seq<byte>>>, op: AttrOp): map<Name, Option<seq<byte>>> {
    match op
    case Put(name, value) => m[name := Some(value)]
    case Drop(name) => m - {name}
  }

  function AfterAll(m: map<Name, Option<seq<byte>>>, ops: seq<AttrOp>): map<Name, Option<seq<byte>>> {
    if ops == [] then m else After(AfterAll(m, ops[..|ops| - 1]), ops[|ops| - 1])
  }

  /** Every name put fits the map it is put into. */
  predicate AllFit(m: map<Name, Option<seq<byte>>>, ops: seq<AttrOp>) {
    ops == [] ||
    (var front, last := ops[..|ops| - 1], ops[|ops| - 1];
     AllFit(m, front) && (last.Put? ==> Fits(AfterAll(m, front), last.name)))
  }

  predicate Sized(op: AttrOp) {
    op.Put? ==> CString(op.name) && |op.name| <= NAME_MAX && |op.value| <= UINT32_MAX
  }

  method RunAttr(disk: Disk, ad: Path, op: AttrOp)
    requires Sized(op)
    modifies disk
    ensures Readable(disk.files, ad) <==>
      old(Readable(disk.files, ad)) && (op.Put? ==> Fits(old(Attrs(disk.files, ad)), op.name))
    ensures Readable(disk.files, ad) ==> Attrs(disk.files, ad) == After(old(Attrs(disk.files, ad)), op)
  {
    hide Readable, Attrs, Fits, OnlyAttr, CString;
    match op {
      case Put(name, value) =>
        var r := NetatalkSet(disk, ad, name, value);
      case Drop(name) =>
        var r := NetatalkRemove(disk, ad, name);
    }
  }

  /** Every run of set and remove refines the finite map for as long as every name fits; from the first that
      does not, the store is unreadable for good. */
  method RunAttrs(disk: Disk, ad: Path, ops: seq<AttrOp>)
    requires Readable(disk.files, ad)
    requires forall i :: 0 <= i < |ops| ==> Sized(ops[i])
    modifies disk
    ensures Readable(disk.files, ad) <==> AllFit(old(Attrs(disk.files, ad)), ops)
    ensures Readable(disk.files, ad) ==> Attrs(disk.files, ad) == AfterAll(old(Attrs(disk.files, ad)), ops)
  {
    hide Readable, Attrs, Fits, Sized;
    for i := 0 to |ops|
      invariant Readable(disk.files, ad) <==> AllFit(old(Attrs(disk.files, ad)), ops[..i])
      invariant Readable(disk.files, ad) ==> Attrs(disk.files, ad) == AfterAll(old(Attrs(disk.files, ad)), ops[..i])
    {
      assert ops[..i + 1][..i] == ops[..i];
      RunAttr(disk, ad, ops[i]);
    }
    assert ops[..|ops|] == ops;
  }
}
