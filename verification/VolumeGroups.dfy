/** Volume groups of the observer's topology: reciprocal, disjoint, and determined by the volume rows. */
module VolumeGroups {
  import opened Prelude

  /** The association statuses of the wire format. */
  datatype Association = NoGroup | Malformed | Ambiguous | Incomplete | ValidSystemData

  datatype Volume = Volume(
    id: string, container: string, uuid: string, role: string, groupBit: bool,
    groupId: Option<string>, groupUuid: Option<string>, metadataValid: Option<bool>, status: Option<Association>)

  datatype Group = Group(
    id: string, uuid: string, volumeIds: seq<string>, container: Option<string>,
    status: Option<Association>, systemId: Option<string>, dataId: Option<string>)

  datatype Evidence = Evidence(extended: bool, volumes: seq<Volume>, groups: seq<Group>, containers: seq<string>)

  const PREFIX: string := "apfs-group:"

  predicate IsHex32(s: string) {
    |s| == 32 && forall i :: 0 <= i < 32 ==> '0' <= s[i] <= '9' || 'a' <= s[i] <= 'f'
  }

  predicate IsZero(s: string) {
    forall i :: 0 <= i < |s| ==> s[i] == '0'
  }

  predicate ParsesAs(id: string, uuid: string) {
    PREFIX <= id && id[|PREFIX|..] == uuid && IsHex32(uuid)
  }

  ghost predicate UniqueIds(vs: seq<Volume>) {
    forall i, j :: 0 <= i < j < |vs| ==> vs[i].id != vs[j].id
  }

  // ---- Classes of equal group uuid ----

  function Class(vs: seq<Volume>, container: string, uuid: string): seq<Volume> {
    if vs == [] then []
    else
      var last := vs[|vs| - 1];
      var rest := Class(vs[..|vs| - 1], container, uuid);
      if last.container == container && last.groupUuid == Some(uuid) then rest + [last] else rest
  }

  function WithRole(vs: seq<Volume>, role: string): seq<Volume> {
    if vs == [] then []
    else
      var rest := WithRole(vs[..|vs| - 1], role);
      if vs[|vs| - 1].role == role then rest + [vs[|vs| - 1]] else rest
  }

  /** The association status of a class, from its volume rows alone. */
  function StatusOf(grouped: seq<Volume>): (s: Association)
    ensures s == ValidSystemData ==> |WithRole(grouped, "system")| == 1 && |WithRole(grouped, "data")| == 1
  {
    if exists i :: 0 <= i < |grouped| && (grouped[i].metadataValid != Some(true) || grouped[i].uuid == "") then Malformed
    else if |WithRole(grouped, "system")| > 1 || |WithRole(grouped, "data")| > 1 then Ambiguous
    else if |WithRole(grouped, "system")| == 1 && |WithRole(grouped, "data")| == 1 then ValidSystemData
    else Incomplete
  }

  function SystemOf(grouped: seq<Volume>): Option<string> {
    if StatusOf(grouped) == ValidSystemData then Some(WithRole(grouped, "system")[0].id) else None
  }

  function DataOf(grouped: seq<Volume>): Option<string> {
    if StatusOf(grouped) == ValidSystemData then Some(WithRole(grouped, "data")[0].id) else None
  }

  ghost function Ids(vs: seq<Volume>): set<string> {
    set i | 0 <= i < |vs| :: vs[i].id
  }

  lemma {:induction false} ClassMembers(vs: seq<Volume>, container: string, uuid: string)
    ensures forall v :: v in Class(vs, container, uuid) <==> v in vs && v.container == container && v.groupUuid == Some(uuid)
  {
    if vs != [] {
      ClassMembers(vs[..|vs| - 1], container, uuid);
      assert vs == vs[..|vs| - 1] + [vs[|vs| - 1]];
    }
  }

  // ---- What acceptance means ----

  ghost predicate IsMember(e: Evidence, g: Group, v: Volume) {
    v in e.volumes && v.id in g.volumeIds
  }

  ghost predicate Known(vs: seq<Volume>, id: string) {
    exists j :: 0 <= j < |vs| && vs[j].id == id
  }

  /** The index of the first volume with an id, or -1. */
  function Find(vs: seq<Volume>, id: string): (j: int)
    ensures -1 <= j < |vs| && (j >= 0 ==> vs[j].id == id)
    ensures j < 0 ==> !Known(vs, id)
  {
    if vs == [] then -1
    else
      var p := Find(vs[..|vs| - 1], id);
      if p >= 0 then p
      else
        assert forall i :: 0 <= i < |vs| - 1 ==> vs[..|vs| - 1][i] == vs[i];
        if vs[|vs| - 1].id == id then |vs| - 1 else -1
  }

  /** The container of a record's first member. */
  function Home(e: Evidence, g: Group): string {
    if g.volumeIds == [] || Find(e.volumes, g.volumeIds[0]) < 0 then ""
    else e.volumes[Find(e.volumes, g.volumeIds[0])].container
  }

  predicate ShapeOk(g: Group) {
    && ParsesAs(g.id, g.uuid) && !IsZero(g.uuid) && |g.volumeIds| >= 2
    && (forall i, j :: 0 <= i < j < |g.volumeIds| ==> g.volumeIds[i] != g.volumeIds[j])
  }

  /** One group record on its own: identity, at least two distinct known members, one container, reciprocal ids. */
  ghost predicate GroupValid(e: Evidence, g: Group) {
    && ShapeOk(g)
    && (forall i :: 0 <= i < |g.volumeIds| ==> Known(e.volumes, g.volumeIds[i]))
    && (forall v :: IsMember(e, g, v) ==> v.container == Home(e, g) && v.groupId == Some(g.id))
    && (e.extended ==> g.container == Some(Home(e, g)))
  }

  /** Group k is the record registered for its container and id. */
  predicate Keyed(e: Evidence, k: int, home: string, id: string) {
    0 <= k < |e.groups| && e.groups[k].id == id && Home(e, e.groups[k]) == home
  }

  ghost predicate EachValid(e: Evidence, n: nat)
    requires n <= |e.groups|
  {
    forall k :: 0 <= k < n ==> GroupValid(e, e.groups[k])
  }

  ghost predicate NoSharedMember(e: Evidence, n: nat)
    requires n <= |e.groups|
  {
    forall k, l, id :: 0 <= k < l < n && id in e.groups[k].volumeIds ==> id !in e.groups[l].volumeIds
  }

  ghost predicate NoSharedKey(e: Evidence, n: nat)
    requires n <= |e.groups|
  {
    forall k, l :: 0 <= k < l < n ==> !Keyed(e, k, Home(e, e.groups[l]), e.groups[l].id)
  }

  ghost predicate GroupsValid(e: Evidence, n: nat)
    requires n <= |e.groups|
  {
    EachValid(e, n) && NoSharedMember(e, n) && NoSharedKey(e, n)
  }

  ghost predicate VolumeRoutes(e: Evidence, v: Volume) {
    v.groupId.Some? && (e.extended || v.groupId.value != "") ==>
      exists k :: Keyed(e, k, v.container, v.groupId.value) && v.id in e.groups[k].volumeIds
  }

  predicate MetadataValid(v: Volume) {
    v.groupBit == v.groupUuid.Some? && (v.groupUuid.None? || v.role == "system" || v.role == "data")
  }

  predicate RowValid(v: Volume) {
    && (v.groupUuid.Some? ==> IsHex32(v.groupUuid.value) && !IsZero(v.groupUuid.value))
    && v.metadataValid == Some(MetadataValid(v))
    && (v.groupUuid.None? ==> v.groupId.None? && v.status == Some(if MetadataValid(v) then NoGroup else Malformed))
  }

  ghost predicate ClassValid(e: Evidence, container: string, uuid: string) {
    var grouped := Class(e.volumes, container, uuid);
    var id := PREFIX + uuid;
    && (forall i :: 0 <= i < |grouped| ==> grouped[i].status == Some(StatusOf(grouped)))
    && (|grouped| == 1 ==> grouped[0].groupId.None? && forall k :: !Keyed(e, k, container, id))
    && (|grouped| > 1 ==> exists k :: Keyed(e, k, container, id) && GroupMatches(e.groups[k], grouped))
  }

  ghost predicate GroupMatches(g: Group, grouped: seq<Volume>) {
    && (forall id :: id in g.volumeIds <==> id in Ids(grouped))
    && g.status == Some(StatusOf(grouped))
    && g.systemId == SystemOf(grouped) && g.dataId == DataOf(grouped)
  }

  ghost predicate ContainerValid(e: Evidence, container: string) {
    && (forall i :: 0 <= i < |e.volumes| && e.volumes[i].container == container ==> RowValid(e.volumes[i]))
    && (forall i :: 0 <= i < |e.volumes| && e.volumes[i].container == container && e.volumes[i].groupUuid.Some? ==>
         ClassValid(e, container, e.volumes[i].groupUuid.value))
  }

  ghost predicate Consistent(e: Evidence) {
    && UniqueIds(e.volumes)
    && GroupsValid(e, |e.groups|)
    && (forall i :: 0 <= i < |e.volumes| ==> VolumeRoutes(e, e.volumes[i]))
    && (e.extended ==> forall i :: 0 <= i < |e.containers| ==> ContainerValid(e, e.containers[i]))
  }

  predicate Asked(e: Evidence) {
    true
  }

  /** Acceptable evidence is consistent evidence; Asked keeps the definition folded until AcceptedIs is called. */
  ghost predicate Accepted(e: Evidence) {
    forall f {:trigger Asked(f)} :: Asked(f) && f == e ==> Consistent(f)
  }

  lemma AcceptedIs(e: Evidence)
    ensures Accepted(e) <==> Consistent(e)
  {
    assert Asked(e);
  }

  // ---- What acceptance implies ----

  lemma SomeMember(e: Evidence, g: Group) returns (i: nat)
    requires GroupValid(e, g)
    ensures i < |e.volumes| && e.volumes[i].id in g.volumeIds
    ensures e.volumes[i].container == Home(e, g) && e.volumes[i].groupId == Some(g.id)
  {
    assert Known(e.volumes, g.volumeIds[0]);
    i := Find(e.volumes, g.volumeIds[0]);
    assert IsMember(e, g, e.volumes[i]);
  }

  lemma InClass(vs: seq<Volume>, i: nat, uuid: string) returns (j: nat)
    requires i < |vs| && vs[i].groupUuid == Some(uuid)
    ensures j < |Class(vs, vs[i].container, uuid)| && Class(vs, vs[i].container, uuid)[j] == vs[i]
  {
    ClassMembers(vs, vs[i].container, uuid);
    assert vs[i] in Class(vs, vs[i].container, uuid);
    j :| 0 <= j < |Class(vs, vs[i].container, uuid)| && Class(vs, vs[i].container, uuid)[j] == vs[i];
  }

  lemma RoutedClassIsNotSingle(e: Evidence, home: string, uuid: string, j: nat)
    requires ClassValid(e, home, uuid) && j < |Class(e.volumes, home, uuid)|
    requires Class(e.volumes, home, uuid)[j].groupId.Some?
    ensures |Class(e.volumes, home, uuid)| >= 2
  {
  }

  lemma ClassOfMember(e: Evidence, home: string, i: nat) returns (uuid: string, j: nat)
    requires Accepted(e) && e.extended && home in e.containers
    requires i < |e.volumes| && e.volumes[i].container == home && e.volumes[i].groupId.Some?
    ensures ClassValid(e, home, uuid) && |Class(e.volumes, home, uuid)| >= 2
    ensures j < |Class(e.volumes, home, uuid)| && Class(e.volumes, home, uuid)[j] == e.volumes[i]
  {
    AcceptedIs(e);
    uuid := e.volumes[i].groupUuid.value;
    j := InClass(e.volumes, i, uuid);
    RoutedClassIsNotSingle(e, home, uuid, j);
  }

  lemma OneRecordPerMember(e: Evidence, k: nat, l: nat, id: string)
    requires GroupsValid(e, |e.groups|) && k < |e.groups| && l < |e.groups|
    requires id in e.groups[k].volumeIds && id in e.groups[l].volumeIds
    ensures k == l
  {
  }

  /** In a listed container every group record is the record of exactly one class of at least two volumes. */
  lemma GroupsAreClasses(e: Evidence, k: nat) returns (uuid: string)
    requires Accepted(e) && e.extended && k < |e.groups| && Home(e, e.groups[k]) in e.containers
    ensures e.groups[k].id == PREFIX + uuid && e.groups[k].uuid == uuid && e.groups[k].container == Some(Home(e, e.groups[k]))
    ensures |Class(e.volumes, Home(e, e.groups[k]), uuid)| >= 2
    ensures GroupMatches(e.groups[k], Class(e.volumes, Home(e, e.groups[k]), uuid))
  {
    AcceptedIs(e);
    var home := Home(e, e.groups[k]);
    var i := SomeMember(e, e.groups[k]);
    var j: nat;
    uuid, j := ClassOfMember(e, home, i);
    var l := RecordOfClass(e, home, uuid);
    assert e.volumes[i].id in Ids(Class(e.volumes, home, uuid));
    OneRecordPerMember(e, k, l, e.volumes[i].id);
    assert (PREFIX + uuid)[|PREFIX|..] == uuid;
  }

  lemma RecordOfClass(e: Evidence, home: string, uuid: string) returns (l: nat)
    requires ClassValid(e, home, uuid) && |Class(e.volumes, home, uuid)| >= 2
    ensures Keyed(e, l, home, PREFIX + uuid) && GroupMatches(e.groups[l], Class(e.volumes, home, uuid))
  {
    var n :| Keyed(e, n, home, PREFIX + uuid) && GroupMatches(e.groups[n], Class(e.volumes, home, uuid));
    l := n;
  }

  /** And every class of at least two volumes in a listed container has its record. */
  lemma ClassesHaveGroups(e: Evidence, home: string, uuid: string) returns (k: nat)
    requires Accepted(e) && e.extended && home in e.containers && |Class(e.volumes, home, uuid)| >= 2
    ensures Keyed(e, k, home, PREFIX + uuid) && GroupMatches(e.groups[k], Class(e.volumes, home, uuid))
  {
    AcceptedIs(e);
    ClassMembers(e.volumes, home, uuid);
    var v := Class(e.volumes, home, uuid)[0];
    assert v in Class(e.volumes, home, uuid);
    var i :| 0 <= i < |e.volumes| && e.volumes[i] == v;
    k := RecordOfClass(e, home, uuid);
  }

  /** Two group records that a consumer cannot tell apart, up to the order of their members. */
  ghost predicate SameGroup(g: Group, h: Group) {
    && g.id == h.id && g.uuid == h.uuid && g.container == h.container && g.status == h.status
    && g.systemId == h.systemId && g.dataId == h.dataId
    && (forall id :: id in g.volumeIds <==> id in h.volumeIds)
  }

  /** What the evidence parser has refused before: a volume whose container has no row. */
  ghost predicate ContainersListed(e: Evidence) {
    forall i :: 0 <= i < |e.volumes| ==> e.volumes[i].container in e.containers
  }

  lemma HomeListed(e: Evidence, k: nat)
    requires Accepted(e) && ContainersListed(e) && k < |e.groups|
    ensures Home(e, e.groups[k]) in e.containers
  {
    AcceptedIs(e);
    var i := SomeMember(e, e.groups[k]);
  }

  /** Accepted evidence with equal volume rows has the same group record. */
  lemma SameRecord(e: Evidence, f: Evidence, k: nat) returns (l: nat)
    requires Accepted(e) && Accepted(f) && e.extended && f.extended && e.volumes == f.volumes
    requires k < |e.groups| && Home(e, e.groups[k]) in e.containers && Home(e, e.groups[k]) in f.containers
    ensures l < |f.groups| && SameGroup(e.groups[k], f.groups[l])
  {
    var home := Home(e, e.groups[k]);
    var uuid := GroupsAreClasses(e, k);
    l := ClassesHaveGroups(f, home, uuid);
    AcceptedIs(f);
    var again := GroupsAreClasses(f, l);
    assert f.groups[l].id[|PREFIX|..] == uuid && f.groups[l].id[|PREFIX|..] == again;
  }

  ghost predicate Injective(to: seq<nat>) {
    forall i, j :: 0 <= i < j < |to| ==> to[i] != to[j]
  }

  /** Record k of one evidence is record to[k] of the other, and no two share one. */
  ghost predicate Matching(e: Evidence, f: Evidence, to: seq<nat>) {
    && |to| <= |e.groups| && Injective(to)
    && (forall k :: 0 <= k < |to| ==> to[k] < |f.groups| && SameGroup(e.groups[k], f.groups[to[k]]))
  }

  lemma {:induction false} MatchRecords(e: Evidence, f: Evidence, n: nat) returns (to: seq<nat>)
    requires Accepted(e) && Accepted(f) && e.extended && f.extended && e.volumes == f.volumes
    requires ContainersListed(e) && ContainersListed(f) && n <= |e.groups|
    ensures |to| == n && Matching(e, f, to)
  {
    to := [];
    if n != 0 {
      to := MatchRecords(e, f, n - 1);
      HomeListed(e, n - 1);
      var i := MemberContainer(e, n - 1);
      var l := SameRecord(e, f, n - 1);
      forall k | 0 <= k < n - 1 ensures to[k] != l {
        if to[k] == l {
          TwinRecords(e, k, n - 1, f.groups[l]);
        }
      }
      to := to + [l];
    }
  }

  lemma MemberContainer(e: Evidence, k: nat) returns (i: nat)
    requires Accepted(e) && k < |e.groups|
    ensures i < |e.volumes| && e.volumes[i].container == Home(e, e.groups[k])
  {
    AcceptedIs(e);
    i := SomeMember(e, e.groups[k]);
  }

  /** Two records that both look like a third are the same record. */
  lemma TwinRecords(e: Evidence, k: nat, l: nat, g: Group)
    requires Accepted(e) && k < |e.groups| && l < |e.groups| && SameGroup(e.groups[k], g) && SameGroup(e.groups[l], g)
    ensures k == l
  {
    AcceptedIs(e);
    var i := SomeMember(e, e.groups[k]);
    OneRecordPerMember(e, k, l, e.volumes[i].id);
  }

  lemma {:induction false} Pigeonhole(to: seq<nat>, m: nat)
    requires Injective(to) && forall k :: 0 <= k < |to| ==> to[k] < m
    ensures |to| <= m
  {
    if m == 0 {
      assert to == [];
    } else if exists i :: 0 <= i < |to| && to[i] == m - 1 {
      var i :| 0 <= i < |to| && to[i] == m - 1;
      Pigeonhole(to[..i] + to[i + 1..], m - 1);
    } else {
      Pigeonhole(to, m - 1);
    }
  }

  /**
   * Determinism: accepted evidence with equal volume rows has the same groups. Their lists are as long
   * and match one to one, whatever their order and the order of members in a record.
   */
  lemma VolumeRowsDetermineGroups(e: Evidence, f: Evidence) returns (to: seq<nat>)
    requires Accepted(e) && Accepted(f) && e.extended && f.extended && e.volumes == f.volumes
    requires ContainersListed(e) && ContainersListed(f)
    ensures |e.groups| == |f.groups| == |to| && Matching(e, f, to)
    ensures forall l :: 0 <= l < |f.groups| ==> l in to
  {
    to := MatchRecords(e, f, |e.groups|);
    Pigeonhole(to, |f.groups|);
    var back := MatchRecords(f, e, |f.groups|);
    Pigeonhole(back, |e.groups|);
    forall l | 0 <= l < |f.groups| ensures l in to {
      if l !in to {
        Pigeonhole(to + [l], |f.groups|);
      }
    }
  }

  /** Membership is reciprocal and disjoint: a volume's group id names the one record that lists it. */
  lemma MembershipIsReciprocal(e: Evidence, i: nat, k: nat)
    requires Accepted(e) && i < |e.volumes| && k < |e.groups|
    ensures e.volumes[i].id in e.groups[k].volumeIds
       <==> e.volumes[i].groupId == Some(e.groups[k].id) && e.volumes[i].container == Home(e, e.groups[k])
    ensures forall l :: 0 <= l < |e.groups| && e.volumes[i].id in e.groups[k].volumeIds && e.volumes[i].id in e.groups[l].volumeIds ==> l == k
  {
    AcceptedIs(e);
    var v, g := e.volumes[i], e.groups[k];
    if v.id in g.volumeIds {
      assert IsMember(e, g, v);
    }
    if v.groupId == Some(g.id) && v.container == Home(e, g) {
      assert VolumeRoutes(e, e.volumes[i]);
      var l :| Keyed(e, l, v.container, v.groupId.value) && v.id in e.groups[l].volumeIds;
      assert Keyed(e, k, v.container, g.id);
      assert l == k;
    }
  }

  // ---- The validator ----

  ghost predicate MemberOk(e: Evidence, g: Group, i: int)
    requires 0 <= i < |g.volumeIds|
  {
    var j := Find(e.volumes, g.volumeIds[i]);
    j >= 0 && e.volumes[j].container == Home(e, g) && e.volumes[j].groupId == Some(g.id)
  }

  lemma MemberwiseValid(e: Evidence, g: Group)
    requires UniqueIds(e.volumes)
    ensures GroupValid(e, g) <==>
      ShapeOk(g) && (forall i :: 0 <= i < |g.volumeIds| ==> MemberOk(e, g, i)) && (e.extended ==> g.container == Some(Home(e, g)))
  {
    if GroupValid(e, g) {
      forall i | 0 <= i < |g.volumeIds| ensures MemberOk(e, g, i) {
        assert Known(e.volumes, g.volumeIds[i]);
        assert IsMember(e, g, e.volumes[Find(e.volumes, g.volumeIds[i])]);
      }
    }
    if ShapeOk(g) && forall i :: 0 <= i < |g.volumeIds| ==> MemberOk(e, g, i) {
      forall i | 0 <= i < |g.volumeIds| ensures Known(e.volumes, g.volumeIds[i]) {
        assert MemberOk(e, g, i);
      }
      forall v | IsMember(e, g, v) ensures v.container == Home(e, g) && v.groupId == Some(g.id) {
        var i :| 0 <= i < |g.volumeIds| && g.volumeIds[i] == v.id;
        assert MemberOk(e, g, i);
        var j :| 0 <= j < |e.volumes| && e.volumes[j] == v;
      }
    }
  }

  /** One group record: shape, known members of one container that name the group back, and the declared container. */
  method CheckGroup(e: Evidence, g: Group) returns (ok: bool)
    requires UniqueIds(e.volumes)
    ensures ok <==> GroupValid(e, g)
  {
    MemberwiseValid(e, g);
    if !ShapeOk(g) { return false; }
    var home := Home(e, g);
    for i := 0 to |g.volumeIds|
      invariant forall k :: 0 <= k < i ==> MemberOk(e, g, k)
    {
      var j := Find(e.volumes, g.volumeIds[i]);
      if j < 0 || e.volumes[j].container != home || e.volumes[j].groupId != Some(g.id) {
        assert !MemberOk(e, g, i);
        return false;
      }
    }
    ok := e.extended ==> g.container == Some(home);
  }

  /** The dictionary of groups by container and id, for the first n records. */
  ghost predicate Registered(e: Evidence, groups: map<(string, string), int>, n: nat)
    requires n <= |e.groups|
  {
    && (forall key :: key in groups ==> 0 <= groups[key] < n && Keyed(e, groups[key], key.0, key.1))
    && (forall k :: 0 <= k < n ==> (Home(e, e.groups[k]), e.groups[k].id) in groups && groups[(Home(e, e.groups[k]), e.groups[k].id)] == k)
  }

  ghost predicate ListedBefore(e: Evidence, n: nat, id: string)
    requires n <= |e.groups|
  {
    exists k :: 0 <= k < n && id in e.groups[k].volumeIds
  }

  /** Adds a record's members to the assignments, unless one is assigned already. */
  method Assign(e: Evidence, n: nat, assignments: set<string>) returns (ok: bool, after: set<string>)
    requires n < |e.groups|
    requires forall i, j :: 0 <= i < j < |e.groups[n].volumeIds| ==> e.groups[n].volumeIds[i] != e.groups[n].volumeIds[j]
    requires forall id :: id in assignments <==> ListedBefore(e, n, id)
    ensures ok <==> forall i :: 0 <= i < |e.groups[n].volumeIds| ==> !ListedBefore(e, n, e.groups[n].volumeIds[i])
    ensures ok ==> forall id :: id in after <==> ListedBefore(e, n + 1, id)
  {
    after := assignments;
    var ids := e.groups[n].volumeIds;
    for i := 0 to |ids|
      invariant forall k :: 0 <= k < i ==> !ListedBefore(e, n, ids[k])
      invariant forall id :: id in after <==> ListedBefore(e, n, id) || id in ids[..i]
    {
      if ids[i] in after {
        assert ids[i] !in ids[..i];
        return false, after;
      }
      assert ids[..i + 1] == ids[..i] + [ids[i]];
      after := after + {ids[i]};
    }
    assert ids[..|ids|] == ids;
    forall id ensures ListedBefore(e, n + 1, id) <==> ListedBefore(e, n, id) || id in ids {
    }
    ok := true;
  }

  lemma SharedMemberStep(e: Evidence, n: nat)
    requires n < |e.groups| && NoSharedMember(e, n)
    ensures NoSharedMember(e, n + 1) <==>
      forall i :: 0 <= i < |e.groups[n].volumeIds| ==> !ListedBefore(e, n, e.groups[n].volumeIds[i])
  {
    if forall i :: 0 <= i < |e.groups[n].volumeIds| ==> !ListedBefore(e, n, e.groups[n].volumeIds[i]) {
      forall k, id | 0 <= k < n && id in e.groups[k].volumeIds ensures id !in e.groups[n].volumeIds {
        assert ListedBefore(e, n, id);
      }
    }
  }

  lemma SharedKeyStep(e: Evidence, n: nat, groups: map<(string, string), int>)
    requires n < |e.groups| && NoSharedKey(e, n) && Registered(e, groups, n)
    ensures NoSharedKey(e, n + 1) <==> (Home(e, e.groups[n]), e.groups[n].id) !in groups
    ensures NoSharedKey(e, n + 1) ==> Registered(e, groups[(Home(e, e.groups[n]), e.groups[n].id) := n], n + 1)
  {
    var key := (Home(e, e.groups[n]), e.groups[n].id);
    if key in groups {
      assert Keyed(e, groups[key], Home(e, e.groups[n]), e.groups[n].id);
    } else {
      forall k | 0 <= k < n ensures !Keyed(e, k, Home(e, e.groups[n]), e.groups[n].id) {
        assert (Home(e, e.groups[k]), e.groups[k].id) in groups;
      }
    }
  }

  lemma {:induction false} GroupsPrefix(e: Evidence, n: nat)
    requires n <= |e.groups| && GroupsValid(e, |e.groups|)
    ensures GroupsValid(e, n)
  {
  }

  /** The group loop: each record alone, its members not yet assigned, its key not yet taken. */
  method CheckGroups(e: Evidence) returns (ok: bool, groups: map<(string, string), int>)
    requires UniqueIds(e.volumes)
    ensures ok <==> GroupsValid(e, |e.groups|)
    ensures ok ==> Registered(e, groups, |e.groups|)
  {
    groups := map[];
    var assignments: set<string> := {};
    for n := 0 to |e.groups|
      invariant GroupsValid(e, n) && Registered(e, groups, n)
      invariant forall id :: id in assignments <==> ListedBefore(e, n, id)
    {
      SharedMemberStep(e, n);
      SharedKeyStep(e, n, groups);
      if GroupsValid(e, |e.groups|) { GroupsPrefix(e, n + 1); }
      ok := CheckGroup(e, e.groups[n]);
      if !ok { return; }
      ok, assignments := Assign(e, n, assignments);
      if !ok { return; }
      var key := (Home(e, e.groups[n]), e.groups[n].id);
      if key in groups { return false, groups; }
      groups := groups[key := n];
    }
    ok := true;
  }

  /** A volume that names a group must be listed by that group's record in its own container. */
  method CheckRoutes(e: Evidence, groups: map<(string, string), int>) returns (ok: bool)
    requires GroupsValid(e, |e.groups|) && Registered(e, groups, |e.groups|)
    ensures ok <==> forall i :: 0 <= i < |e.volumes| ==> VolumeRoutes(e, e.volumes[i])
  {
    for i := 0 to |e.volumes|
      invariant forall k :: 0 <= k < i ==> VolumeRoutes(e, e.volumes[k])
    {
      var v := e.volumes[i];
      if v.groupId.Some? && (e.extended || v.groupId.value != "") {
        var key := (v.container, v.groupId.value);
        if key !in groups || v.id !in e.groups[groups[key]].volumeIds {
          assert !VolumeRoutes(e, e.volumes[i]);
          return false;
        }
      }
    }
    ok := true;
  }

  /** One class: every row's status, then either no record (a single volume) or exactly the matching one. */
  method CheckClass(e: Evidence, groups: map<(string, string), int>, container: string, uuid: string) returns (ok: bool)
    requires Registered(e, groups, |e.groups|) && NoSharedKey(e, |e.groups|)
    ensures ok <==> ClassValid(e, container, uuid)
  {
    var grouped := Class(e.volumes, container, uuid);
    var key := (container, PREFIX + uuid);
    var status := StatusOf(grouped);
    for i := 0 to |grouped|
      invariant forall k :: 0 <= k < i ==> grouped[k].status == Some(status)
    {
      if grouped[i].status != Some(status) { return false; }
    }
    if |grouped| == 0 { return true; }
    if |grouped| == 1 { return grouped[0].groupId.None? && key !in groups; }
    if key !in groups { return false; }
    var g := e.groups[groups[key]];
    var ids := set i | 0 <= i < |grouped| :: grouped[i].id;
    ok := (set id | id in g.volumeIds) == ids && g.status == Some(status)
      && g.systemId == SystemOf(grouped) && g.dataId == DataOf(grouped);
  }

  /** One listed container: every row on its own, then every class once. */
  method CheckContainer(e: Evidence, groups: map<(string, string), int>, container: string) returns (ok: bool)
    requires Registered(e, groups, |e.groups|) && NoSharedKey(e, |e.groups|)
    ensures ok <==> ContainerValid(e, container)
  {
    for i := 0 to |e.volumes|
      invariant forall k :: 0 <= k < i && e.volumes[k].container == container ==> RowValid(e.volumes[k])
    {
      if e.volumes[i].container == container && !RowValid(e.volumes[i]) { return false; }
    }
    var checked: set<string> := {};
    for i := 0 to |e.volumes|
      invariant forall uuid :: uuid in checked ==> ClassValid(e, container, uuid)
      invariant forall k :: 0 <= k < i && e.volumes[k].container == container && e.volumes[k].groupUuid.Some? ==>
        e.volumes[k].groupUuid.value in checked
    {
      var v := e.volumes[i];
      if v.container == container && v.groupUuid.Some? && v.groupUuid.value !in checked {
        ok := CheckClass(e, groups, container, v.groupUuid.value);
        if !ok { return; }
        checked := checked + {v.groupUuid.value};
      }
    }
    ok := true;
  }

  method UniqueVolumes(vs: seq<Volume>) returns (ok: bool)
    ensures ok <==> UniqueIds(vs)
  {
    var seen: set<string> := {};
    for i := 0 to |vs|
      invariant UniqueIds(vs[..i])
      invariant forall id :: id in seen <==> Known(vs[..i], id)
    {
      if vs[i].id in seen {
        var k :| 0 <= k < i && vs[..i][k].id == vs[i].id;
        assert vs[k].id == vs[i].id;
        return false;
      }
      forall id ensures Known(vs[..i + 1], id) <==> Known(vs[..i], id) || id == vs[i].id {
      }
      forall k | 0 <= k < i ensures vs[k].id != vs[i].id {
        assert vs[..i][k].id == vs[k].id;
        assert Known(vs[..i], vs[k].id);
      }
      seen := seen + {vs[i].id};
    }
    assert vs[..|vs|] == vs;
    ok := true;
  }

  /** The whole validation accepts exactly the evidence described by Accepted. */
  method Validate(e: Evidence) returns (ok: bool)
    ensures ok <==> Accepted(e)
  {
    AcceptedIs(e);
    ok := UniqueVolumes(e.volumes);
    if !ok { return; }
    var groups: map<(string, string), int>;
    ok, groups := CheckGroups(e);
    if !ok { return; }
    ok := CheckRoutes(e, groups);
    if !ok || !e.extended { return; }
    for i := 0 to |e.containers|
      invariant forall k :: 0 <= k < i ==> ContainerValid(e, e.containers[k])
    {
      ok := CheckContainer(e, groups, e.containers[i]);
      if !ok { return; }
    }
    ok := true;
  }
}
