/** Listings in the FUSE file system, fuse/fuse_fs.c: which names repeat, found by sorting, and the pages of a directory
    stream, resumed by offset. */
module DirectoryPages {
  import opened Bytes

  type Name = seq<byte>

  // ---- strcmp

  /** strcmp finds no later name on the left. */
  predicate AtMost(a: Name, b: Name) {
    if a == [] then true else if b == [] then false
    else a[0] < b[0] || (a[0] == b[0] && AtMost(a[1..], b[1..]))
  }

  lemma {:induction false} AtMostOrder(a: Name, b: Name)
    ensures AtMost(a, b) || AtMost(b, a)
    ensures AtMost(a, b) && AtMost(b, a) ==> a == b
  {
    if a != [] && b != [] {
      AtMostOrder(a[1..], b[1..]);
      assert a == [a[0]] + a[1..] && b == [b[0]] + b[1..];
    }
  }

  lemma {:induction false} AtMostThrough(a: Name, b: Name, c: Name)
    requires AtMost(a, b) && AtMost(b, c)
    ensures AtMost(a, c)
  {
    if a != [] && a[0] == b[0] && b[0] == c[0] {
      AtMostThrough(a[1..], b[1..], c[1..]);
    }
  }

  // ---- repeated names

  datatype Listed = Listed(name: Name, index: nat)

  ghost predicate Sorted(s: seq<Listed>) {
    forall i, j :: 0 <= i < j < |s| ==> AtMost(s[i].name, s[j].name)
  }

  /** The records of a listing, each once, in some order. */
  ghost predicate Records(s: seq<Listed>, names: seq<Name>) {
    && |s| == |names|
    && (forall i :: 0 <= i < |s| ==> s[i].index < |names| && s[i].name == names[s[i].index])
    && (forall i, j :: 0 <= i < j < |s| ==> s[i].index != s[j].index)
    && forall k :: 0 <= k < |names| ==> Holds(s, k)
  }

  ghost predicate Holds(s: seq<Listed>, k: nat) {
    exists i :: 0 <= i < |s| && s[i].index == k
  }

  /** qsort, by name. Equal names may come out in any order; this one keeps them. */
  method SortByName(names: seq<Name>) returns (s: seq<Listed>)
    ensures Sorted(s) && Records(s, names)
  {
    s := [];
    for n := 0 to |names|
      invariant Sorted(s) && Records(s, names[..n])
    {
      var at := n;
      while at > 0 && !AtMost(s[at - 1].name, names[n])
        invariant 0 <= at <= n
        invariant forall i :: at <= i < n ==> !AtMost(s[i].name, names[n])
      {
        at := at - 1;
      }
      Inserted(s, names, n, at);
      s := s[..at] + [Listed(names[n], n)] + s[at..];
    }
    assert names[..|names|] == names;
  }

  lemma Inserted(s: seq<Listed>, names: seq<Name>, n: nat, at: nat)
    requires n < |names| && at <= n && Sorted(s) && Records(s, names[..n])
    requires at > 0 ==> AtMost(s[at - 1].name, names[n])
    requires forall i :: at <= i < n ==> !AtMost(s[i].name, names[n])
    ensures var t := s[..at] + [Listed(names[n], n)] + s[at..];
      Sorted(t) && Records(t, names[..n + 1])
  {
    var x := Listed(names[n], n);
    var t := s[..at] + [x] + s[at..];
    InsertedSorted(s, x, at);
    InsertedRecords(s, names, n, at);
  }

  lemma InsertedSorted(s: seq<Listed>, x: Listed, at: nat)
    requires at <= |s| && Sorted(s)
    requires at > 0 ==> AtMost(s[at - 1].name, x.name)
    requires forall i :: at <= i < |s| ==> !AtMost(s[i].name, x.name)
    ensures Sorted(s[..at] + [x] + s[at..])
  {
    hide AtMost;
    var t := s[..at] + [x] + s[at..];
    forall i, j | 0 <= i < j < |t| ensures AtMost(t[i].name, t[j].name) {
      if j == at {
        AtMostItself(s[at - 1].name);
        AtMostThrough(s[i].name, s[at - 1].name, x.name);
      } else if i == at {
        AtMostOrder(x.name, s[j - 1].name);
      } else {
        assert t[i] == s[if i < at then i else i - 1] && t[j] == s[if j < at then j else j - 1];
      }
    }
  }

  lemma AtMostItself(a: Name)
    ensures AtMost(a, a)
  {
    AtMostOrder(a, a);
  }

  lemma InsertedRecords(s: seq<Listed>, names: seq<Name>, n: nat, at: nat)
    requires n < |names| && at <= n && Records(s, names[..n])
    ensures Records(s[..at] + [Listed(names[n], n)] + s[at..], names[..n + 1])
  {
    hide Holds;
    var x := Listed(names[n], n);
    var t := s[..at] + [x] + s[at..];
    forall k | 0 <= k < n + 1 ensures Holds(t, k) {
      assert k < n ==> Holds(s, k);
      HoldsInserted(s, x, at, k);
    }
    forall i | 0 <= i < |t| ensures t[i].index < n + 1 && t[i].name == names[..n + 1][t[i].index] {
      assert i != at ==> t[i] == s[if i < at then i else i - 1];
    }
    forall i, j | 0 <= i < j < |t| ensures t[i].index != t[j].index {
      assert i != at ==> t[i] == s[if i < at then i else i - 1];
      assert j != at ==> t[j] == s[if j < at then j else j - 1];
    }
  }

  lemma HoldsInserted(s: seq<Listed>, x: Listed, at: nat, k: nat)
    requires at <= |s| && (k == x.index || Holds(s, k))
    ensures Holds(s[..at] + [x] + s[at..], k)
  {
    var t := s[..at] + [x] + s[at..];
    if k == x.index {
      assert t[at].index == k;
    } else {
      var i :| 0 <= i < |s| && s[i].index == k;
      assert t[if i < at then i else i + 1].index == k;
    }
  }

  /** The name is at another index too. */
  ghost predicate Repeats(names: seq<Name>, k: nat)
    requires k < |names|
  {
    exists j :: 0 <= j < |names| && j != k && names[j] == names[k]
  }

  /** repeated_names: sort, and flag equal neighbours. */
  method RepeatedNames(names: seq<Name>) returns (flags: array<bool>)
    ensures fresh(flags) && flags.Length == |names|
    ensures forall k :: 0 <= k < |names| ==> (flags[k] <==> Repeats(names, k))
  {
    hide AtMost;
    flags := new bool[|names|](_ => false);
    var s := SortByName(names);
    var i := 1;
    while i < |s|
      invariant 1 <= i
      invariant forall k :: 0 <= k < |names| ==> (flags[k] <==> NextTo(s, i, k))
    {
      ghost var before := flags[..];
      if s[i - 1].name == s[i].name {
        flags[s[i - 1].index] := true;
        flags[s[i].index] := true;
      }
      forall k | 0 <= k < |names| ensures flags[k] <==> NextTo(s, i + 1, k) {
        assert flags[k] <==> before[k] || Pair(s, i, k);
        NextToMore(s, i, k);
      }
      i := i + 1;
    }
    forall k | 0 <= k < |names| ensures flags[k] <==> Repeats(names, k) {
      NeighboursRepeat(s, names, i, k);
      RepeatsNeighbour(s, names, i, k);
    }
  }

  /** Position i and the one before it hold equal names, one of them at index k. */
  ghost predicate Pair(s: seq<Listed>, i: nat, k: nat) {
    0 < i < |s| && s[i - 1].name == s[i].name && (s[i - 1].index == k || s[i].index == k)
  }

  ghost predicate NextTo(s: seq<Listed>, n: nat, k: nat) {
    exists i :: 0 < i < n && Pair(s, i, k)
  }

  lemma NextToMore(s: seq<Listed>, i: nat, k: nat)
    requires i > 0
    ensures NextTo(s, i + 1, k) <==> NextTo(s, i, k) || Pair(s, i, k)
  {
    hide Pair;
    if NextTo(s, i, k) {
      var j :| 0 < j < i && Pair(s, j, k);
      assert 0 < j < i + 1;
    }
    assert Pair(s, i, k) ==> 0 < i < i + 1 && Pair(s, i, k);
  }

  lemma NeighboursRepeat(s: seq<Listed>, names: seq<Name>, n: nat, k: nat)
    requires Records(s, names) && k < |names|
    ensures NextTo(s, n, k) ==> Repeats(names, k)
  {
    if NextTo(s, n, k) {
      var i :| 0 < i < n && Pair(s, i, k);
      var other := if s[i].index == k then s[i - 1].index else s[i].index;
      assert other != k && names[other] == names[k];
    }
  }

  lemma RepeatsNeighbour(s: seq<Listed>, names: seq<Name>, n: nat, k: nat)
    requires Sorted(s) && Records(s, names) && k < |names| && n >= |s|
    ensures Repeats(names, k) ==> NextTo(s, n, k)
  {
    hide Sorted;
    if Repeats(names, k) {
      var j :| 0 <= j < |names| && j != k && names[j] == names[k];
      assert Holds(s, k) && Holds(s, j);
      var p :| 0 <= p < |s| && s[p].index == k;
      var q :| 0 <= q < |s| && s[q].index == j;
      Between(s, p, q);
    }
  }

  /** Between two equal names in sorted order, all names are equal. */
  lemma Between(s: seq<Listed>, p: nat, q: nat)
    requires Sorted(s) && p < |s| && q < |s| && p != q && s[p].name == s[q].name
    ensures Pair(s, if p < q then p + 1 else p, s[p].index)
  {
    hide AtMost;
    var i := if p < q then p + 1 else p - 1;
    AtMostItself(s[p].name);
    AtMostOrder(s[p].name, s[i].name);
  }

  // ---- the pages of a stream

  const DOT: Name := [46]
  const DOT_DOT: Name := [46, 46]

  /** An entry given to the kernel: its name, the offset after it, and whether it carries attributes. */
  datatype Filled = Filled(name: Name, offset: nat, attrs: bool)

  function Entries(listing: seq<Name>): seq<Name> {
    [DOT, DOT_DOT] + listing
  }

  function FilledNames(page: seq<Filled>): (names: seq<Name>)
    ensures |names| == |page|
    ensures forall i :: 0 <= i < |page| ==> names[i] == page[i].name
  {
    seq(|page|, i requires 0 <= i < |page| => page[i].name)
  }

  ghost predicate Numbered(page: seq<Filled>, offset: nat) {
    forall i :: 0 <= i < |page| ==> page[i].offset == offset + i + 1
  }

  function PageEnd(listing: seq<Name>, offset: nat, capacity: nat): nat {
    var all := |listing| + 2;
    if offset >= all then offset else if offset + capacity < all then offset + capacity else all
  }

  lemma EntryAt(listing: seq<Name>, o: nat)
    requires o < |listing| + 2
    ensures |Entries(listing)| == |listing| + 2
    ensures Entries(listing)[o] == if o >= 2 then listing[o - 2] else if o == 0 then DOT else DOT_DOT
  {
  }

  /** The entry at a position is listed, is no exception, and has a name of its own. */
  ghost predicate Told(listing: seq<Name>, except: set<Name>, o: nat) {
    2 <= o < |listing| + 2 && listing[o - 2] !in except && !Repeats(listing, o - 2)
  }

  /** The page loop of fuse_readdir: repeated holds the flags when the page carries attributes. */
  method FillPage(listing: seq<Name>, offset: nat, repeated: Option<seq<bool>>, differs: set<Name>, unread: set<Name>,
                  capacity: nat) returns (page: seq<Filled>)
    requires repeated.Some? ==> |repeated.value| == |listing|
    requires repeated.Some? ==> forall k :: 0 <= k < |listing| ==> (repeated.value[k] <==> Repeats(listing, k))
    ensures |Entries(listing)| == |listing| + 2 && Numbered(page, offset)
    ensures offset <= |listing| + 2 ==>
      FilledNames(page) == Entries(listing)[offset..PageEnd(listing, offset, capacity)]
    ensures offset > |listing| + 2 ==> page == []
    ensures offset <= |listing| + 2 ==>
      |page| == if capacity < |listing| + 2 - offset then capacity else |listing| + 2 - offset
    ensures forall i :: 0 <= i < |page| && page[i].attrs ==>
      && 2 <= offset + i < |listing| + 2 && page[i].name == listing[offset + i - 2]
      && page[i].name !in differs && page[i].name !in unread
      && forall k :: 0 <= k < |listing| && k != offset + i - 2 ==> listing[k] != page[i].name
    ensures forall i :: 0 <= i < |page| ==>
      (page[i].attrs <==> repeated.Some? && Told(listing, differs + unread, offset + i))
  {
    hide Repeats, Entries;
    page := [];
    var o := offset;
    EntryAt(listing, 0);
    while o < |listing| + 2
      invariant offset <= o && |page| == o - offset && |page| <= capacity && Numbered(page, offset)
      invariant o <= if offset <= |listing| + 2 then |listing| + 2 else offset
      invariant forall i :: 0 <= i < |page| ==> page[i].name == Entries(listing)[offset + i]
      invariant forall i :: 0 <= i < |page| ==>
        (page[i].attrs <==> repeated.Some? && Told(listing, differs + unread, offset + i))
    {
      EntryAt(listing, o);
      var name := if o >= 2 then listing[o - 2] else if o == 0 then DOT else DOT_DOT;
      var other := o >= 2 && name in differs;
      var attrs := repeated.Some? && o >= 2 && !other && !repeated.value[o - 2] && name !in unread;
      if |page| == capacity {
        break;
      }
      page := page + [Filled(name, o + 1, attrs)];
      o := o + 1;
    }
    forall i | 0 <= i < |page| && page[i].attrs
      ensures 2 <= offset + i < |listing| + 2 && page[i].name == listing[offset + i - 2]
      ensures forall k :: 0 <= k < |listing| && k != offset + i - 2 ==> listing[k] != page[i].name
    {
      EntryAt(listing, offset + i);
      ToldAlone(listing, differs + unread, offset + i);
    }
  }

  lemma ToldAlone(listing: seq<Name>, except: set<Name>, o: nat)
    requires Told(listing, except, o)
    ensures forall k :: 0 <= k < |listing| && k != o - 2 ==> listing[k] != listing[o - 2]
  {
  }

  class DirStream {
    var listing: seq<Name>
    var listed: bool

    constructor ()
      ensures listing == [] && !listed
    {
      listing, listed := [], false;
    }

    /** fuse_readdir, for a kernel page with room for some entries. The answer is the directory as it is now, differs the
        names whose lookup may find another object, and unread those whose attributes cannot be had. */
    method Readdir(offset: nat, plus: bool, answer: Result<seq<Name>>, differs: set<Name>, unread: set<Name>,
                   capacity: nat) returns (r: Result<seq<Filled>>)
      modifies this
      ensures offset != 0 && old(listed) ==> listed && listing == old(listing) && r.Ok?
      ensures offset == 0 || !old(listed) ==> listed == answer.Ok? && (answer.Ok? ==> listing == answer.value && r.Ok?)
      ensures !listed ==> r.Err?
      ensures r.Ok? && offset <= |listing| + 2 ==>
        FilledNames(r.value) == Entries(listing)[offset..PageEnd(listing, offset, capacity)]
      ensures r.Ok? && offset > |listing| + 2 ==> r.value == []
      ensures r.Ok? ==> Numbered(r.value, offset)
      ensures r.Ok? ==> forall i :: 0 <= i < |r.value| ==>
        (r.value[i].attrs <==>
          plus && (offset == 0 || !old(listed)) && Told(listing, differs + unread, offset + i))
    {
      hide Repeats, Entries, Numbered, FilledNames;
      var repeated: Option<seq<bool>> := None;
      if offset == 0 || !listed {
        match answer {
          case Err(e) =>
            listed, listing := false, [];
            return Err(e);
          case Ok(names) =>
            listed, listing := true, names;
        }
        if plus {
          var flags := RepeatedNames(listing);
          repeated := Some(flags[..]);
        }
      }
      var page := FillPage(listing, offset, repeated, differs, unread, capacity);
      r := Ok(page);
    }
  }

  /** A kernel that reads a stream page by page, each resumed at the last offset it was given, gets the dot entries and
      then each name of the first listing once, whatever becomes of the directory meanwhile. */
  method ReadStream(s: DirStream, first: seq<Name>, capacities: seq<nat>, later: nat -> Result<seq<Name>>)
    returns (all: seq<Name>)
    requires forall i :: 0 <= i < |capacities| ==> capacities[i] > 0
    modifies s
    ensures all == Entries(first)
  {
    var turn := 0;
    var page := s.Readdir(0, true, Ok(first), {}, {}, if capacities == [] then 1 else capacities[0]);
    all := FilledNames(page.value);
    while page.value != []
      invariant page.Ok? && s.listed && s.listing == first && |all| <= |first| + 2
      invariant all == Entries(first)[..|all|] && |page.value| <= |all| && Numbered(page.value, |all| - |page.value|)
      invariant page.value == [] ==> |all| == |first| + 2
      decreases |first| + 2 - |all|, |page.value|
    {
      var offset := page.value[|page.value| - 1].offset;
      turn := turn + 1;
      var capacity := if turn < |capacities| then capacities[turn] else 1;
      page := s.Readdir(offset, true, later(turn), {}, {}, capacity);
      all := all + FilledNames(page.value);
    }
  }
}
