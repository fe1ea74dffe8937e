/** The server picker of cmdline/discover.c: it folds the discovery events of AFP services into numbered groups, one
    for each service name, with a member for each interface. */
module Picker {
  import opened Bytes
  import opened Discovery

  const AFP := "_afpovertcp._tcp"

  datatype Member = Member(service: Service, active: bool)

  datatype Group = Group(service: Service, slot: nat, members: seq<Member>)

  /** service_group_equal. */
  predicate SameGroup(left: Service, right: Service) {
    left.instance == right.instance && left.kind == right.kind && left.domain == right.domain
  }

  function Lower(c: char): char {
    if 'A' <= c <= 'Z' then (c as int + 32) as char else c
  }

  /** strcasecmp with the AFP service type finds no difference. */
  predicate IsAfp(kind: string) {
    |kind| == |AFP| && forall i :: 0 <= i < |AFP| ==> Lower(kind[i]) == AFP[i]
  }

  /** In whatever case it comes, and nothing else. */
  lemma AfpCases()
    ensures IsAfp("_afpovertcp._tcp") && IsAfp("_AFPOVERTCP._TCP") && !IsAfp("_smb._tcp") && !IsAfp("_afpovertcp._udp")
  {
    assert "_afpovertcp._udp"[13] != AFP[13];
  }

  // ---- what the picker shows

  ghost predicate ActiveIn(members: seq<Member>, iface: nat) {
    exists j :: 0 <= j < |members| && members[j].service.iface == iface && members[j].active
  }

  ghost predicate Active(groups: seq<Group>, v: Service) {
    exists i :: 0 <= i < |groups| && SameGroup(groups[i].service, v) && ActiveIn(groups[i].members, v.iface)
  }

  ghost predicate MembersOk(g: Group) {
    && g.members != []
    && (forall j :: 0 <= j < |g.members| ==> SameGroup(g.members[j].service, g.service))
    && forall j, k :: 0 <= j < k < |g.members| ==> g.members[j].service.iface != g.members[k].service.iface
  }

  /** Each group has its own name, its own slot and one member for an interface. */
  ghost predicate GroupsOk(groups: seq<Group>) {
    && (forall i :: 0 <= i < |groups| ==> groups[i].slot == i + 1 && MembersOk(groups[i]))
    && forall i, j :: 0 <= i < j < |groups| ==> !SameGroup(groups[i].service, groups[j].service)
  }

  /** Every group stays, with its name and its slot. */
  ghost predicate Stays(before: seq<Group>, after: seq<Group>) {
    |before| <= |after|
    && forall i :: 0 <= i < |before| ==> after[i].service == before[i].service && after[i].slot == before[i].slot
  }

  /** The members of one service turn on or off and no others do. */
  ghost predicate Sets(before: seq<Group>, after: seq<Group>, v: Service, on: bool) {
    forall w :: Active(after, w) <==> if w == v then on else Active(before, w)
  }

  /** A group with the service's member set and no other change. */
  ghost predicate SetsMember(before: seq<Member>, after: seq<Member>, iface: nat, on: bool) {
    forall n :: ActiveIn(after, n) <==> if n == iface then on else ActiveIn(before, n)
  }

  lemma MemberSet(members: seq<Member>, j: nat, m: Member)
    requires j < |members| && m.service.iface == members[j].service.iface
    requires forall a, b :: 0 <= a < b < |members| ==> members[a].service.iface != members[b].service.iface
    ensures SetsMember(members, members[j := m], m.service.iface, m.active)
  {
    var after := members[j := m];
    forall n ensures ActiveIn(after, n) <==> if n == m.service.iface then m.active else ActiveIn(members, n) {
      if n == m.service.iface {
        assert m.active ==> after[j].service.iface == n && after[j].active;
        if ActiveIn(after, n) {
          var k :| 0 <= k < |after| && after[k].service.iface == n && after[k].active;
          assert k == j;
        }
      } else {
        if ActiveIn(after, n) {
          var k :| 0 <= k < |after| && after[k].service.iface == n && after[k].active;
          assert members[k].service.iface == n && members[k].active;
        }
        if ActiveIn(members, n) {
          var k :| 0 <= k < |members| && members[k].service.iface == n && members[k].active;
          assert after[k].service.iface == n && after[k].active;
        }
      }
    }
  }

  lemma MemberAdded(members: seq<Member>, m: Member)
    requires m.active
    ensures SetsMember(members, members + [m], m.service.iface, true)
  {
    var after := members + [m];
    forall n ensures ActiveIn(after, n) <==> n == m.service.iface || ActiveIn(members, n) {
      assert after[|members|] == m;
      if ActiveIn(members, n) {
        var k :| 0 <= k < |members| && members[k].service.iface == n && members[k].active;
        assert after[k].service.iface == n && after[k].active;
      }
      if ActiveIn(after, n) {
        var k :| 0 <= k < |after| && after[k].service.iface == n && after[k].active;
        assert k < |members| ==> members[k].service.iface == n && members[k].active;
      }
    }
  }

  lemma GroupSet(groups: seq<Group>, i: nat, g: Group, v: Service, on: bool)
    requires GroupsOk(groups) && i < |groups| && SameGroup(groups[i].service, v)
    requires g.service == groups[i].service && g.slot == groups[i].slot && MembersOk(g)
    requires SetsMember(groups[i].members, g.members, v.iface, on)
    ensures GroupsOk(groups[i := g]) && Stays(groups, groups[i := g]) && Sets(groups, groups[i := g], v, on)
  {
    hide MembersOk, ActiveIn;
    var after := groups[i := g];
    forall w ensures Active(after, w) <==> if w == v then on else Active(groups, w) {
      if SameGroup(groups[i].service, w) {
        OwnGroup(groups, i, w);
        OwnGroup(after, i, w);
      } else {
        OtherGroups(groups, after, i, w);
      }
    }
  }

  lemma OwnGroup(groups: seq<Group>, i: nat, w: Service)
    requires GroupsOk(groups) && i < |groups| && SameGroup(groups[i].service, w)
    ensures Active(groups, w) <==> ActiveIn(groups[i].members, w.iface)
  {
    hide MembersOk, ActiveIn;
    if Active(groups, w) {
      var k :| 0 <= k < |groups| && SameGroup(groups[k].service, w) && ActiveIn(groups[k].members, w.iface);
      assert k == i;
    }
  }

  lemma OtherGroups(groups: seq<Group>, after: seq<Group>, i: nat, w: Service)
    requires |after| == |groups| && i < |groups|
    requires !SameGroup(groups[i].service, w) && !SameGroup(after[i].service, w)
    requires forall k :: 0 <= k < |groups| && k != i ==> after[k] == groups[k]
    ensures Active(after, w) <==> Active(groups, w)
  {
    if Active(after, w) {
      var k :| 0 <= k < |after| && SameGroup(after[k].service, w) && ActiveIn(after[k].members, w.iface);
      assert groups[k] == after[k];
    }
    if Active(groups, w) {
      var k :| 0 <= k < |groups| && SameGroup(groups[k].service, w) && ActiveIn(groups[k].members, w.iface);
      assert after[k] == groups[k];
    }
  }

  lemma GroupAdded(groups: seq<Group>, v: Service)
    requires GroupsOk(groups) && forall i :: 0 <= i < |groups| ==> !SameGroup(groups[i].service, v)
    ensures var after := groups + [Group(v, |groups| + 1, [Member(v, true)])];
      GroupsOk(after) && Stays(groups, after) && Sets(groups, after, v, true)
    ensures !Active(groups, v)
  {
    var g := Group(v, |groups| + 1, [Member(v, true)]);
    var after := groups + [g];
    MemberAdded([], Member(v, true));
    assert [] + [Member(v, true)] == g.members;
    forall w ensures Active(after, w) <==> w == v || Active(groups, w) {
      assert after[|groups|] == g;
      if Active(groups, w) {
        var k :| 0 <= k < |groups| && SameGroup(groups[k].service, w) && ActiveIn(groups[k].members, w.iface);
        assert after[k] == groups[k];
      }
      if Active(after, w) {
        var k :| 0 <= k < |after| && SameGroup(after[k].service, w) && ActiveIn(after[k].members, w.iface);
        assert k < |groups| ==> after[k] == groups[k];
      }
      assert ActiveIn(g.members, v.iface);
    }
  }

  lemma PutMember(groups: seq<Group>, i: nat, j: nat, v: Service, on: bool)
    requires GroupsOk(groups) && i < |groups| && SameGroup(groups[i].service, v)
    requires j < |groups[i].members| && groups[i].members[j].service.iface == v.iface
    ensures groups[i].members[j].service == v && (Active(groups, v) <==> groups[i].members[j].active)
    ensures var g := groups[i].(members := groups[i].members[j := Member(v, on)]);
      GroupsOk(groups[i := g]) && Stays(groups, groups[i := g]) && Sets(groups, groups[i := g], v, on)
  {
    var members := groups[i].members;
    var g := groups[i].(members := members[j := Member(v, on)]);
    assert SameGroup(members[j].service, groups[i].service);
    assert MembersOk(g);
    MemberSet(members, j, Member(v, on));
    GroupSet(groups, i, g, v, on);
    OwnGroup(groups, i, v);
    assert members[j].active ==> ActiveIn(members, v.iface);
  }

  lemma PutNewMember(groups: seq<Group>, i: nat, v: Service)
    requires GroupsOk(groups) && i < |groups| && SameGroup(groups[i].service, v)
    requires forall j :: 0 <= j < |groups[i].members| ==> groups[i].members[j].service.iface != v.iface
    ensures !Active(groups, v)
    ensures var g := groups[i].(members := groups[i].members + [Member(v, true)]);
      GroupsOk(groups[i := g]) && Stays(groups, groups[i := g]) && Sets(groups, groups[i := g], v, true)
  {
    var members := groups[i].members;
    var g := groups[i].(members := members + [Member(v, true)]);
    assert MembersOk(g);
    MemberAdded(members, Member(v, true));
    GroupSet(groups, i, g, v, true);
    OwnGroup(groups, i, v);
  }

  lemma StayStill(groups: seq<Group>, v: Service)
    ensures Stays(groups, groups) && Sets(groups, groups, v, Active(groups, v))
  {
  }

  lemma SetsNothing(before: seq<Group>, after: seq<Group>, v: Service, on: bool)
    requires Sets(before, after, v, on)
    ensures Active(after, v) <==> on
    ensures Active(before, v) == on ==> forall w :: Active(after, w) <==> Active(before, w)
  {
  }

  /** The groups that show what the events announce. */
  ghost predicate Follows(groups: seq<Group>, seen: seq<Event>) {
    forall v :: Active(groups, v) <==> Shown(seen, v)
  }

  lemma Follow(before: seq<Group>, after: seq<Group>, seen: seq<Event>, e: Event)
    requires Follows(before, seen) && e.kind != ERROR && Sets(before, after, e.service, e.kind != REMOVE)
    ensures Follows(after, seen + [e]) && (Active(after, e.service) <==> e.kind != REMOVE)
  {
    hide Active, Shown;
    forall v ensures Active(after, v) <==> Shown(seen + [e], v) {
      ShownSnoc(seen, e, v);
    }
  }

  lemma FollowsError(groups: seq<Group>, seen: seq<Event>, e: Event)
    requires Follows(groups, seen) && e.kind == ERROR
    ensures Follows(groups, seen + [e])
  {
    hide Active, Shown;
    forall v ensures Active(groups, v) <==> Shown(seen + [e], v) {
      ShownSnoc(seen, e, v);
    }
  }

  /** find_member. */
  method FindMember(group: Group, service: Service) returns (r: Option<nat>)
    ensures r.None? ==> forall j :: 0 <= j < |group.members| ==> group.members[j].service.iface != service.iface
    ensures r.Some? ==> r.value < |group.members| && group.members[r.value].service.iface == service.iface
  {
    for j := 0 to |group.members|
      invariant forall k :: 0 <= k < j ==> group.members[k].service.iface != service.iface
    {
      if group.members[j].service.iface == service.iface {
        return Some(j);
      }
    }
    return None;
  }

  /** picker_entry_active. */
  method GroupActive(group: Group) returns (active: bool)
    ensures active <==> exists iface :: ActiveIn(group.members, iface)
  {
    for j := 0 to |group.members|
      invariant forall k :: 0 <= k < j ==> !group.members[k].active
    {
      if group.members[j].active {
        assert ActiveIn(group.members, group.members[j].service.iface);
        return true;
      }
    }
    return false;
  }

  class PickerState {
    var groups: seq<Group>
    var nextSlot: nat
    /** The events the picker has been given. */
    ghost var seen: seq<Event>

    ghost predicate Valid()
      reads this
    {
      GroupsOk(groups) && nextSlot == |groups| + 1 && Follows(groups, seen)
    }

    constructor ()
      ensures Valid() && groups == [] && seen == []
    {
      groups, nextSlot, seen := [], 1, [];
    }

    /** find_group. */
    method FindGroup(service: Service) returns (r: Option<nat>)
      ensures r.None? ==> forall i :: 0 <= i < |groups| ==> !SameGroup(groups[i].service, service)
      ensures r.Some? ==> r.value < |groups| && SameGroup(groups[r.value].service, service)
    {
      for i := 0 to |groups|
        invariant forall k :: 0 <= k < i ==> !SameGroup(groups[k].service, service)
      {
        if SameGroup(groups[i].service, service) {
          return Some(i);
        }
      }
      return None;
    }

    /** find_slot: the group with this number, when it has an active member. */
    method FindSlot(slot: nat) returns (r: Option<nat>)
      requires Valid()
      ensures r.Some? ==> r.value < |groups| && groups[r.value].slot == slot
      ensures r.Some? <==> exists v :: 0 < slot <= |groups| && SameGroup(groups[slot - 1].service, v) && Active(groups, v)
    {
      for i := 0 to |groups|
        invariant forall v :: 0 < slot <= i && SameGroup(groups[slot - 1].service, v) ==> !Active(groups, v)
      {
        var active := GroupActive(groups[i]);
        if groups[i].slot == slot && active {
          ghost var iface :| ActiveIn(groups[i].members, iface);
          ghost var v := groups[i].service.(iface := iface);
          assert SameGroup(groups[slot - 1].service, v) && Active(groups, v);
          return Some(i);
        }
        forall v | slot == i + 1 && SameGroup(groups[i].service, v) ensures !Active(groups, v) {
          OwnGroup(groups, i, v);
        }
      }
      return None;
    }

    /** update_picker. */
    method Update(e: Event) returns (changed: bool)
      requires Valid()
      modifies this
      ensures Valid() && seen == old(seen) + [e] && Stays(old(groups), groups)
      ensures e.kind == ERROR ==> !changed && groups == old(groups)
      ensures e.kind != ERROR ==> Sets(old(groups), groups, e.service, e.kind != REMOVE)
      ensures e.kind != ERROR ==>
        (changed <==> e.kind == UPDATE || Active(groups, e.service) != old(Active(groups, e.service)))
    {
      hide Follows, GroupsOk, Sets, SetsMember, Active, ActiveIn, Shown, Stays, SameGroup;
      var v := e.service;
      ghost var was := groups;
      StayStill(was, v);
      seen := seen + [e];
      var found := FindGroup(v);
      var member: Option<nat> := None;
      if found.Some? {
        member := FindMember(groups[found.value], v);
      }
      if e.kind == REMOVE {
        changed := member.Some? && groups[found.value].members[member.value].active;
        if member.Some? {
          PutMember(groups, found.value, member.value, v, false);
        } else if found.Some? {
          PutNewMember(groups, found.value, v);
        } else {
          GroupAdded(groups, v);
        }
        if changed {
          var g := groups[found.value];
          groups := groups[found.value := g.(members := g.members[member.value := g.members[member.value].(active := false)])];
        }
        Follow(was, groups, old(seen), e);
        return;
      }
      if e.kind != ADD && e.kind != UPDATE {
        FollowsError(groups, old(seen), e);
        return false;
      }
      if member.Some? {
        var g := groups[found.value];
        PutMember(groups, found.value, member.value, v, true);
        changed := !g.members[member.value].active || e.kind == UPDATE;
        groups := groups[found.value := g.(members := g.members[member.value := Member(v, true)])];
      } else if found.Some? {
        var g := groups[found.value];
        PutNewMember(groups, found.value, v);
        groups := groups[found.value := g.(members := g.members + [Member(v, true)])];
        changed := true;
      } else {
        GroupAdded(groups, v);
        groups := groups + [Group(v, nextSlot, [Member(v, true)])];
        nextSlot := nextSlot + 1;
        changed := true;
      }
      Follow(was, groups, old(seen), e);
    }
  }
}
