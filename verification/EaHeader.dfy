/** The header file of the Netatalk extended-attribute store of daemon/metadata.c: a magic number, a version,
    a count, and for each attribute its value's size and its NUL-terminated name. */
module EaHeader {
  import opened Bytes

  const EA_MAGIC := 0x6164_4541
  const EA_VERSION := 1
  const EA_HEADER_SIZE := 8
  const EA_MAX_ITEMS := 1024
  const NAME_MAX := 255

  datatype EaItem = EaItem(name: seq<byte>, size: int)

  /** A C string: no byte of it is the terminator. */
  predicate CString(s: seq<byte>) {
    forall i :: 0 <= i < |s| ==> s[i] != 0
  }

  predicate ItemStorable(it: EaItem) {
    CString(it.name) && |it.name| <= NAME_MAX && 0 <= it.size <= UINT32_MAX
  }

  predicate Storable(items: seq<EaItem>) {
    forall i :: 0 <= i < |items| ==> ItemStorable(items[i])
  }

  /** No item has the name. */
  predicate Fresh(items: seq<EaItem>, name: seq<byte>) {
    forall i :: 0 <= i < |items| ==> items[i].name != name
  }

  predicate DistinctNames(items: seq<EaItem>) {
    forall i, j :: 0 <= i < j < |items| ==> items[i].name != items[j].name
  }

  /** The loader reads names of up to 254 bytes, though a header may store one of 255. */
  predicate ItemLoadable(it: EaItem) {
    ItemStorable(it) && |it.name| < NAME_MAX
  }

  /** What a header may list for the loader to accept it. */
  predicate Loadable(items: seq<EaItem>) {
    && |items| <= EA_MAX_ITEMS && DistinctNames(items)
    && forall i :: 0 <= i < |items| ==> ItemLoadable(items[i])
  }

  function EncodeItem(it: EaItem): (b: seq<byte>)
    requires 0 <= it.size <= UINT32_MAX
    ensures |b| == 4 + |it.name| + 1
  {
    U32(it.size) + it.name + [0]
  }

  function EncodeItems(items: seq<EaItem>): seq<byte>
    requires Storable(items)
  {
    if items == [] then [] else EncodeItems(items[..|items| - 1]) + EncodeItem(items[|items| - 1])
  }

  function Header(items: seq<EaItem>): (h: seq<byte>)
    requires Storable(items) && |items| < 0x1_0000
    ensures |h| == EA_HEADER_SIZE + |EncodeItems(items)|
  {
    Fixed(|items|) + EncodeItems(items)
  }

  /** A header file lists items the loader accepts; bytes after the last item are ignored. */
  predicate Lists(f: File, items: seq<EaItem>) {
    Loadable(items) && Header(items) <= f
  }

  // ----- the code of an item is prefix-free

  /** A position holds the code of one item at most. */
  lemma ItemUnique(f: seq<byte>, at: nat, x: EaItem, y: EaItem)
    requires 0 <= x.size <= UINT32_MAX && 0 <= y.size <= UINT32_MAX && CString(x.name) && CString(y.name)
    requires at <= |f| && EncodeItem(x) <= f[at..] && EncodeItem(y) <= f[at..]
    ensures x == y
  {
    var g, ex, ey := f[at..], EncodeItem(x), EncodeItem(y);
    assert ex == U32(x.size) + (x.name + [0]) && ey == U32(y.size) + (y.name + [0]);
    PrefixTail(U32(x.size), x.name + [0], g);
    PrefixTail(U32(y.size), y.name + [0], g);
    assert U32(x.size) == g[..4] == U32(y.size);
    hide EncodeItem, CString;
    TextUnique(g[4..], x.name, y.name);
  }

  /** Bytes begin with one terminated text at most. */
  lemma TextUnique(h: seq<byte>, a: seq<byte>, b: seq<byte>)
    requires CString(a) && CString(b) && a + [0] <= h && b + [0] <= h
    ensures a == b
  {
    var ta, tb := a + [0], b + [0];
    assert h[|a|] == ta[|a|] == 0 && h[|b|] == tb[|b|] == 0;
    assert h[..|a|] == ta[..|a|] == a && h[..|b|] == tb[..|b|] == b;
  }

  /** Where an item's code lies within the code of a list. */
  lemma {:induction false} ItemWithin(items: seq<EaItem>, k: nat)
    requires Storable(items) && k < |items|
    ensures Storable(items[..k])
    ensures EncodeItems(items[..k]) + EncodeItem(items[k]) <= EncodeItems(items)
  {
    var last := |items| - 1;
    if k < last {
      ItemWithin(items[..last], k);
      assert items[..last][..k] == items[..k];
    }
  }

  /** A file holds one list of a length at most: any other list of that length or more begins with it,
      and its next item follows. */
  lemma {:induction false} ListAgrees(g: seq<byte>, acc: seq<EaItem>, items: seq<EaItem>)
    requires Storable(acc) && Storable(items) && |acc| <= |items|
    requires EncodeItems(acc) <= g && EncodeItems(items) <= g
    ensures items[..|acc|] == acc
    ensures |acc| < |items| ==> EncodeItem(items[|acc|]) <= g[|EncodeItems(acc)|..]
  {
    var k := |acc|;
    if k > 0 {
      var front, x := acc[..k - 1], acc[k - 1];
      assert EncodeItems(acc) == EncodeItems(front) + EncodeItem(x);
      ListAgrees(g, front, items);
      var at := |EncodeItems(front)|;
      PrefixTail(EncodeItems(front), EncodeItem(x), g);
      ItemUnique(g, at, x, items[k - 1]);
      assert items[..k] == items[..k - 1] + [items[k - 1]];
      assert acc == front + [x];
    }
    if k < |items| {
      ItemWithin(items, k);
      PrefixTail(EncodeItems(acc), EncodeItem(items[k]), g);
    }
  }

  lemma PrefixTail(a: seq<byte>, b: seq<byte>, g: seq<byte>)
    requires a + b <= g
    ensures a <= g && b <= g[|a|..]
  {
    assert forall i :: 0 <= i < |b| ==> g[|a|..][i] == (a + b)[|a| + i] == b[i];
    assert forall i :: 0 <= i < |a| ==> g[i] == (a + b)[i] == a[i];
  }

  /** The header's fixed part, and its count. */
  predicate FixedOk(f: File) {
    && |f| >= EA_HEADER_SIZE && Get32(f, 0) == EA_MAGIC && Get16(f, 4) == EA_VERSION
    && Get16(f, 6) <= EA_MAX_ITEMS
  }

  /** The header's first eight bytes. */
  function Fixed(n: nat): (b: seq<byte>)
    requires n < 0x1_0000
    ensures |b| == 8
  {
    U32(EA_MAGIC) + U16(EA_VERSION) + U16(n)
  }

  lemma FixedPart(f: File, n: nat)
    requires |f| >= EA_HEADER_SIZE && n <= EA_MAX_ITEMS
    ensures f[..8] == Fixed(n) <==> FixedOk(f) && Get16(f, 6) == n
  {
    if FixedOk(f) && Get16(f, 6) == n {
      Get32Bytes(f, 0);
      Get16Bytes(f, 4);
      Get16Bytes(f, 6);
      assert f[..8] == f[0..4] + f[4..6] + f[6..8];
    }
    if f[..8] == Fixed(n) {
      assert forall k :: 0 <= k < 8 ==> f[k] == f[..8][k] == Fixed(n)[k];
      assert Get32(f, 0) == Get32(U32(EA_MAGIC), 0) && Get16(f, 4) == Get16(U16(EA_VERSION), 0);
      assert Get16(f, 6) == Get16(U16(n), 0);
    }
  }

  lemma ListsParts(f: File, items: seq<EaItem>)
    requires Loadable(items)
    ensures Lists(f, items) <==> FixedOk(f) && Get16(f, 6) == |items| && EncodeItems(items) <= f[8..]
  {
    if |f| >= 8 {
      FixedPart(f, |items|);
      assert Header(items) == Fixed(|items|) + EncodeItems(items);
      hide U32, U16, Get32, Get16, FixedOk, Fixed, Header, EncodeItems, Loadable;
      PrefixParts(Fixed(|items|), EncodeItems(items), f);
    }
  }

  lemma PrefixParts(a: seq<byte>, b: seq<byte>, g: seq<byte>)
    requires |a| <= |g|
    ensures a + b <= g <==> g[..|a|] == a && b <= g[|a|..]
  {
    if a + b <= g {
      PrefixTail(a, b, g);
    }
    if g[..|a|] == a && b <= g[|a|..] {
      assert g[|a|..] == b + g[|a|..][|b|..];
      assert g == a + b + g[|a|..][|b|..];
    }
  }

  /** A file lists one list at most. */
  lemma ListsUnique(f: File, a: seq<EaItem>, b: seq<EaItem>)
    requires Lists(f, a) && Lists(f, b)
    ensures a == b
  {
    ListsParts(f, a);
    ListsParts(f, b);
    ListAgrees(f[8..], a, b);
    assert b[..|a|] == b;
  }

  /** The loader's state after some items: what it read is their code, and any list the file holds begins so. */
  lemma NextItem(f: File, acc: seq<EaItem>, pos: nat, items: seq<EaItem>)
    requires FixedOk(f) && Storable(acc) && 8 <= pos <= |f| && f[8..pos] == EncodeItems(acc)
    requires Lists(f, items) && |acc| < |items|
    ensures items[..|acc|] == acc && EncodeItem(items[|acc|]) <= f[pos..]
  {
    ListsParts(f, items);
    hide Lists, Header, FixedOk, EncodeItem, EncodeItems;
    Cut(f, 8, pos);
    ListAgrees(f[8..], acc, items);
  }

  /** The byte scan of load_ea_items: the end of the name at pos, when its terminator is among the 255 bytes
      there. */
  method ScanName(f: File, start: nat) returns (found: bool, pos: nat)
    requires start <= |f|
    ensures found ==> start < pos <= |f| && f[pos - 1] == 0 && CString(f[start..pos - 1]) && pos - 1 - start < NAME_MAX
    ensures !found ==> forall k :: start <= k < |f| && k < start + NAME_MAX ==> f[k] != 0
  {
    var c: byte := 1;
    var nameLen := 0;
    pos := start;
    while pos < |f| && nameLen < NAME_MAX
      invariant pos == start + nameLen <= |f| && nameLen <= NAME_MAX && c != 0
      invariant forall k :: start <= k < pos ==> f[k] != 0
    {
      c := f[pos];
      pos := pos + 1;
      if c == 0 {
        return true, pos;
      }
      nameLen := nameLen + 1;
    }
    return false, pos;
  }

  lemma NameInReach(f: File, pos: nat, it: EaItem)
    requires pos + 4 <= |f| && 0 <= it.size <= UINT32_MAX && EncodeItem(it) <= f[pos..]
    ensures pos + 4 + |it.name| < |f| && f[pos + 4 + |it.name|] == 0
  {
    assert f[pos..][4 + |it.name|] == EncodeItem(it)[4 + |it.name|] == 0;
  }

  lemma AppendCode(f: File, items: seq<EaItem>, pos: nat, it: EaItem)
    requires Storable(items) && ItemStorable(it) && 8 <= pos <= |f| && f[8..pos] == EncodeItems(items)
    requires EncodeItem(it) <= f[pos..]
    ensures Storable(items + [it]) && pos + |EncodeItem(it)| <= |f|
    ensures f[8..pos + |EncodeItem(it)|] == EncodeItems(items + [it])
  {
    assert (items + [it])[..|items|] == items;
    assert f[8..pos + |EncodeItem(it)|] == f[8..pos] + f[pos..][..|EncodeItem(it)|];
  }

  /** load_ea_items, on the header's bytes: it returns the list the file holds, and fails only when it holds none. */
  method LoadItems(f: File) returns (r: Result<seq<EaItem>>)
    ensures r.Ok? ==> Lists(f, r.value)
    ensures r.Err? ==> (r.error == EIO || r.error == EINVAL) && forall items :: !Lists(f, items)
  {
    hide Loadable, Storable, EncodeItems, EncodeItem, Get32, Get16, Fresh, ItemLoadable;
    if |f| < EA_HEADER_SIZE {
      return Err(EIO);
    }
    if Get32(f, 0) != EA_MAGIC || Get16(f, 4) != EA_VERSION || Get16(f, 6) > EA_MAX_ITEMS {
      NoFixedPart(f);
      return Err(EINVAL);
    }
    var count := Get16(f, 6);
    var items: seq<EaItem> := [];
    var pos := EA_HEADER_SIZE;
    EmptyStart(f);
    for i := 0 to count
      invariant |items| == i && Loadable(items) && Storable(items)
      invariant 8 <= pos <= |f| && f[8..pos] == EncodeItems(items)
    {
      var next := LoadItem(f, items, pos);
      if next.Err? {
        NoNextItem(f, items, pos);
        return Err(next.error);
      }
      var it := next.value;
      AppendCode(f, items, pos, it);
      AppendLoadable(items, it);
      items, pos := items + [it], pos + |EncodeItem(it)|;
    }
    ListsAll(f, items, pos);
    return Ok(items);
  }

  lemma NoFixedPart(f: File)
    requires |f| >= 8 && (Get32(f, 0) != EA_MAGIC || Get16(f, 4) != EA_VERSION || Get16(f, 6) > EA_MAX_ITEMS)
    ensures forall items :: !Lists(f, items)
  {
    forall items ensures !Lists(f, items) {
      if Lists(f, items) { ListsParts(f, items); }
    }
  }

  lemma EmptyStart(f: File)
    requires |f| >= 8
    ensures Loadable([]) && Storable([]) && f[8..8] == EncodeItems([])
  {
  }

  lemma AppendLoadable(items: seq<EaItem>, it: EaItem)
    requires Loadable(items) && |items| < EA_MAX_ITEMS && ItemLoadable(it) && Fresh(items, it.name)
    ensures Loadable(items + [it])
  {
  }

  /** When no item can follow those read so far and the header promises more, the file holds no list. */
  lemma NoNextItem(f: File, items: seq<EaItem>, pos: nat)
    requires FixedOk(f) && Loadable(items) && 8 <= pos <= |f| && f[8..pos] == EncodeItems(items) && |items| < Get16(f, 6)
    requires forall it :: ItemLoadable(it) && Fresh(items, it.name) ==> !(EncodeItem(it) <= f[pos..])
    ensures forall other :: !Lists(f, other)
  {
    forall other ensures !Lists(f, other) {
      if Lists(f, other) {
        ListsParts(f, other);
        NextItem(f, items, pos, other);
      }
    }
  }

  lemma ListsAll(f: File, items: seq<EaItem>, pos: nat)
    requires FixedOk(f) && Loadable(items) && Get16(f, 6) == |items| && 8 <= pos <= |f| && f[8..pos] == EncodeItems(items)
    ensures Lists(f, items)
  {
    ListsParts(f, items);
    Cut(f, 8, pos);
  }

  /** One turn of load_ea_items: the item at pos, unless its size or its name's terminator is missing or an
      earlier item has its name. */
  method LoadItem(f: File, items: seq<EaItem>, pos: nat) returns (r: Result<EaItem>)
    requires pos <= |f|
    ensures r.Ok? ==> ItemLoadable(r.value) && Fresh(items, r.value.name) && EncodeItem(r.value) <= f[pos..]
    ensures r.Err? ==> r.error == EIO || r.error == EINVAL
    ensures r.Err? ==>
      forall it :: ItemLoadable(it) && Fresh(items, it.name) ==> !(EncodeItem(it) <= f[pos..])
  {
    if |f| < pos + 4 {
      return Err(EIO);
    }
    var size := Get32(f, pos);
    var found, end := ScanName(f, pos + 4);
    if !found {
      forall it | ItemLoadable(it) ensures !(EncodeItem(it) <= f[pos..]) {
        if EncodeItem(it) <= f[pos..] {
          NameInReach(f, pos, it);
        }
      }
      return Err(EINVAL);
    }
    var it := EaItem(f[pos + 4..end - 1], size);
    ItemRead(f, pos, end, it);
    for previous := 0 to |items|
      invariant forall j :: 0 <= j < previous ==> items[j].name != it.name
    {
      if items[previous].name == it.name {
        forall other | ItemLoadable(other) && Fresh(items, other.name) ensures !(EncodeItem(other) <= f[pos..]) {
          if EncodeItem(other) <= f[pos..] {
            ItemUnique(f, pos, it, other);
          }
        }
        return Err(EINVAL);
      }
    }
    return Ok(it);
  }

  lemma ItemRead(f: File, pos: nat, end: nat, it: EaItem)
    requires pos + 4 < end <= |f| && f[end - 1] == 0
    requires it == EaItem(f[pos + 4..end - 1], Get32(f, pos))
    ensures EncodeItem(it) <= f[pos..]
  {
    Get32Bytes(f, pos);
    assert f[pos..] == f[pos..pos + 4] + it.name + [f[end - 1]] + f[end..];
  }

  /** save_ea_items, up to the write: the header's bytes, or EINVAL for a name too long to store. */
  method EncodeHeader(items: seq<EaItem>) returns (r: Result<File>)
    requires 0 < |items| < 0x1_0000
    requires forall i :: 0 <= i < |items| ==> CString(items[i].name) && 0 <= items[i].size <= UINT32_MAX
    ensures r.Ok? <==> Storable(items)
    ensures r.Ok? ==> r.value == Header(items)
    ensures r.Err? ==> r.error == EINVAL
  {
    for i := 0 to |items|
      invariant Storable(items[..i])
    {
      if |items[i].name| > NAME_MAX {
        assert !ItemStorable(items[i]);
        return Err(EINVAL);
      }
    }
    assert items[..|items|] == items;
    var buf := U32(EA_MAGIC) + U16(EA_VERSION) + U16(|items|);
    for i := 0 to |items|
      invariant Storable(items[..i]) && buf == Fixed(|items|) + EncodeItems(items[..i])
    {
      assert items[..i + 1][..i] == items[..i];
      buf := buf + U32(items[i].size) + items[i].name + [0];
      assert buf == Fixed(|items|) + (EncodeItems(items[..i]) + EncodeItem(items[i]));
    }
    return Ok(buf);
  }

  /** What was saved is loaded again, and nothing else, exactly when it is loadable: at most 1024 items, with
      distinct names of at most 254 bytes. */
  lemma LoadUndoesSave(items: seq<EaItem>)
    requires Storable(items) && |items| < 0x1_0000
    ensures Loadable(items) ==> Lists(Header(items), items)
    ensures !Loadable(items) ==> forall other :: !Lists(Header(items), other)
  {
    forall other | Lists(Header(items), other)
      ensures other == items
    {
      ListsParts(Header(items), other);
      CountStored(items);
      assert Header(items)[8..] == EncodeItems(items);
      ListAgrees(EncodeItems(items), items, other);
      assert other[..|items|] == other;
    }
  }

  lemma CountStored(items: seq<EaItem>)
    requires Storable(items) && |items| < 0x1_0000
    ensures Get16(Header(items), 6) == |items|
  {
    assert Get16(Header(items), 6) == Get16(U16(|items|), 0);
  }

  // ----- headers that are saved and not loaded again

  /** As many items of two-byte names as there are to be. */
  function Numbered(n: nat): (items: seq<EaItem>)
    requires n <= 0xf000
    ensures |items| == n && Storable(items) && forall i :: 0 <= i < n ==> |items[i].name| == 2
    ensures DistinctNames(items)
  {
    seq(n, i requires 0 <= i < n => EaItem([(1 + i / 250) as byte, (1 + i % 250) as byte], 0))
  }

  ghost predicate NoList(f: File) {
    forall items :: !Lists(f, items)
  }

  /** One item more than the loader admits: the header that is saved lists nothing. */
  lemma TooManyItems()
    ensures NoList(Header(Numbered(1025)))
    ensures Lists(Header(Numbered(1024)), Numbered(1024))
  {
    hide Numbered;
    LoadUndoesSave(Numbered(EA_MAX_ITEMS + 1));
    LoadUndoesSave(Numbered(EA_MAX_ITEMS));
  }

  /** A name of 255 bytes does the same, alone. */
  lemma TooLongName(name: seq<byte>)
    requires |name| == 255 && CString(name)
    ensures Storable([EaItem(name, 0)]) && NoList(Header([EaItem(name, 0)]))
  {
    var items := [EaItem(name, 0)];
    assert !ItemLoadable(items[0]);
    LoadUndoesSave(items);
  }

  /** A header of two attributes, byte by byte. */
  lemma HeaderBytes(a: seq<byte>, b: seq<byte>)
    requires CString(a) && CString(b) && |a| <= NAME_MAX && |b| <= NAME_MAX
    ensures Header([EaItem(a, 258), EaItem(b, 65536)])
      == [0x61, 0x64, 0x45, 0x41] + [0x00, 0x01] + [0x00, 0x02]
         + [0x00, 0x00, 0x01, 0x02] + a + [0] + [0x00, 0x01, 0x00, 0x00] + b + [0]
  {
    var x, y := EaItem(a, 258), EaItem(b, 65536);
    assert [x, y][..1] == [x] && [x][..0] == [];
    assert EncodeItems([x, y]) == EncodeItems([x]) + EncodeItem(y) && EncodeItems([x]) == [] + EncodeItem(x);
    assert U32(0x6164_4541) == [0x61, 0x64, 0x45, 0x41] && U16(1) == [0x00, 0x01] && U16(2) == [0x00, 0x02];
    assert U32(258) == [0x00, 0x00, 0x01, 0x02] && U32(65536) == [0x00, 0x01, 0x00, 0x00];
  }
}
