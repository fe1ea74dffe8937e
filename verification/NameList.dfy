/** Attribute names in one buffer, each with its terminator, as append_name of daemon/metadata.c builds it and
    transfer_list_next reads it. */
module NameList {
  import opened Bytes
  import opened EaHeader

  /** The longest name a list takes, and its terminator: "user." and an attribute's longest name. */
  const SYS_NAME_SIZE := 5 + NAME_MAX + 1

  predicate CStrings(names: seq<seq<byte>>) {
    forall i :: 0 <= i < |names| ==> CString(names[i])
  }

  function Joined(names: seq<seq<byte>>): seq<byte> {
    if names == [] then [] else Joined(names[..|names| - 1]) + names[|names| - 1] + [0]
  }

  /** Where a name lies in the buffer. */
  lemma {:induction false} NameAt(names: seq<seq<byte>>, k: nat)
    requires k < |names|
    ensures Joined(names[..k + 1]) == Joined(names[..k]) + names[k] + [0]
    ensures Joined(names[..k + 1]) <= Joined(names)
  {
    var last := |names| - 1;
    assert names[..k + 1][..k] == names[..k];
    if k == last {
      assert names[..k + 1] == names;
    } else {
      NameAt(names[..last], k);
      assert names[..last][..k + 1] == names[..k + 1];
    }
  }

  /** strnlen(3) of the rest of the buffer. */
  method TextLength(list: seq<byte>, pos: nat) returns (n: nat)
    requires pos <= |list|
    ensures pos + n <= |list| && CString(list[pos..pos + n])
    ensures pos + n < |list| ==> list[pos + n] == 0
  {
    n := 0;
    while pos + n < |list| && list[pos + n] != 0
      invariant pos + n <= |list| && CString(list[pos..pos + n])
    {
      assert list[pos..pos + n + 1] == list[pos..pos + n] + [list[pos + n]];
      n := n + 1;
    }
  }

  /** The text at a name's place is the name. */
  lemma TextIs(names: seq<seq<byte>>, k: nat, n: nat)
    requires CStrings(names) && k < |names|
    requires var list, pos := Joined(names), |Joined(names[..k])|;
      pos + n <= |list| && CString(list[pos..pos + n]) && (pos + n < |list| ==> list[pos + n] == 0)
    ensures n == |names[k]| && |Joined(names[..k])| + n < |Joined(names)|
    ensures Joined(names)[|Joined(names[..k])|..|Joined(names[..k])| + n] == names[k]
    ensures |Joined(names[..k + 1])| == |Joined(names[..k])| + n + 1
  {
    NameAt(names, k);
    hide Joined;
    TextEnds(Joined(names), Joined(names[..k]), names[k], n);
  }

  lemma TextEnds(list: seq<byte>, front: seq<byte>, name: seq<byte>, n: nat)
    requires front + name + [0] <= list && CString(name)
    requires |front| + n <= |list| && CString(list[|front|..|front| + n])
    requires |front| + n < |list| ==> list[|front| + n] == 0
    ensures n == |name| && list[|front|..|front| + n] == name
  {
    var upto, pos := front + name + [0], |front|;
    assert forall i :: 0 <= i < |name| ==> list[pos + i] == upto[pos + i] == name[i];
    assert list[pos + |name|] == upto[pos + |name|] == 0;
    var text := list[pos..pos + n];
    assert forall i :: 0 <= i < n ==> text[i] == list[pos + i];
  }

  /** append_name: a name the list lacks goes last. */
  method AppendName(list: seq<byte>, name: seq<byte>, ghost names: seq<seq<byte>>) returns (r: Result<seq<byte>>)
    requires list == Joined(names) && CStrings(names) && CString(name)
    ensures r.Ok? <==> |name| < SYS_NAME_SIZE
    ensures r.Ok? ==> r.value == if name in names then list else Joined(names + [name])
    ensures r.Err? ==> r.error == ENAMETOOLONG
  {
    if |name| >= SYS_NAME_SIZE {
      return Err(ENAMETOOLONG);
    }
    var pos := 0;
    ghost var k := 0;
    assert names[..0] == [];
    while pos < |list|
      invariant k <= |names| && pos == |Joined(names[..k])| <= |list|
      invariant name !in names[..k]
    {
      assert names[..|names|] == names;
      var n := TextLength(list, pos);
      TextIs(names, k, n);
      if list[pos..pos + n] == name {
        return Ok(list);
      }
      assert names[..k + 1] == names[..k] + [names[k]];
      pos, k := pos + n + 1, k + 1;
      NameAt(names, k - 1);
    }
    if k < |names| {
      NameAt(names, k);
    }
    assert names[..k] == names;
    assert (names + [name])[..|names|] == names;
    return Ok(list + name + [0]);
  }

  /** transfer_list_next: the name at the position, and the next name's place, or the end. */
  method NextName(list: seq<byte>, position: nat, ghost names: seq<seq<byte>>, ghost k: nat)
    returns (name: Option<seq<byte>>, next: nat)
    requires list == Joined(names) && CStrings(names) && k <= |names| && position == |Joined(names[..k])|
    ensures name.None? <==> k == |names|
    ensures name.Some? ==> name.value == names[k] && next == |Joined(names[..k + 1])|
  {
    if k < |names| {
      NameAt(names, k);
    } else {
      assert names[..k] == names;
    }
    if position >= |list| {
      return None, position;
    }
    var n := TextLength(list, position);
    TextIs(names, k, n);
    return Some(list[position..position + n]), position + n + 1;
  }
}
