/** What accepted evidence says of group records, told from the volume rows and a record's member list alone. */
module GroupTargets {
  import opened Prelude
  import opened VolumeGroups

  /** A member of the record with this role. */
  ghost predicate Holds(e: Evidence, g: Group, role: string, v: Volume) {
    IsMember(e, g, v) && v.role == role
  }

  ghost predicate One(e: Evidence, g: Group, role: string) {
    exists v :: Holds(e, g, role, v) && forall u :: Holds(e, g, role, u) ==> u == v
  }

  ghost predicate Several(e: Evidence, g: Group, role: string) {
    exists u, v :: Holds(e, g, role, u) && Holds(e, g, role, v) && u.id != v.id
  }

  ghost predicate Lacking(e: Evidence, g: Group, role: string) {
    forall v :: !Holds(e, g, role, v)
  }

  /** Every member has valid group metadata and an identity of its own. */
  ghost predicate MembersSound(e: Evidence, g: Group) {
    forall v :: IsMember(e, g, v) ==> v.metadataValid == Some(true) && v.uuid != ""
  }

  /** The record's container has been reported, so its groups are checked in full. */
  ghost predicate Checked(e: Evidence, k: nat) {
    && Accepted(e) && e.extended && k < |e.groups|
    && e.groups[k].container.Some? && e.groups[k].container.value in e.containers
  }

  // ---- Members ----

  lemma {:induction false} ClassUnique(vs: seq<Volume>, container: string, uuid: string)
    requires UniqueIds(vs)
    ensures UniqueIds(Class(vs, container, uuid))
  {
    if vs != [] {
      ClassUnique(vs[..|vs| - 1], container, uuid);
      ClassMembers(vs[..|vs| - 1], container, uuid);
      var rest := Class(vs[..|vs| - 1], container, uuid);
      forall i | 0 <= i < |rest| ensures rest[i].id != vs[|vs| - 1].id {
        assert rest[i] in vs[..|vs| - 1];
      }
    }
  }

  lemma SameIdSameVolume(vs: seq<Volume>, u: Volume, v: Volume)
    requires UniqueIds(vs) && u in vs && v in vs && u.id == v.id
    ensures u == v
  {
  }

  /** A record that lists the ids of a class lists no other volume. */
  lemma ClassIsMembers(e: Evidence, g: Group, grouped: seq<Volume>)
    requires UniqueIds(e.volumes) && (forall v :: v in grouped ==> v in e.volumes)
    requires forall id :: id in g.volumeIds <==> id in Ids(grouped)
    ensures forall v :: v in grouped <==> IsMember(e, g, v)
  {
    forall v ensures v in grouped <==> IsMember(e, g, v) {
      if v in grouped {
        var i :| 0 <= i < |grouped| && grouped[i] == v;
        assert v.id in Ids(grouped);
      }
      if IsMember(e, g, v) {
        assert v.id in Ids(grouped);
        var i :| 0 <= i < |grouped| && grouped[i].id == v.id;
        assert grouped[i] in grouped;
        SameIdSameVolume(e.volumes, grouped[i], v);
      }
    }
  }

  lemma CheckedRecord(e: Evidence, k: nat)
    requires Checked(e, k)
    ensures UniqueIds(e.volumes) && GroupValid(e, e.groups[k]) && e.groups[k].container == Some(Home(e, e.groups[k]))
  {
    AcceptedIs(e);
    assert GroupValid(e, e.groups[k]);
  }

  /** The record's class: the volumes of its container with its uuid, which are its members and no others. */
  lemma RecordClass(e: Evidence, k: nat) returns (grouped: seq<Volume>)
    requires Checked(e, k)
    ensures var g := e.groups[k];
      && grouped == Class(e.volumes, g.container.value, g.uuid) && g.id == PREFIX + g.uuid
      && GroupMatches(g, grouped) && |grouped| >= 2 && UniqueIds(grouped)
      && (forall v :: v in grouped <==> IsMember(e, g, v))
      && (forall v :: v in grouped <==> v in e.volumes && v.container == g.container.value && v.groupUuid == Some(g.uuid))
  {
    CheckedRecord(e, k);
    var uuid := GroupsAreClasses(e, k);
    var g := e.groups[k];
    grouped := Class(e.volumes, g.container.value, g.uuid);
    ClassMembers(e.volumes, g.container.value, g.uuid);
    ClassUnique(e.volumes, g.container.value, g.uuid);
    ClassIsMembers(e, g, grouped);
  }

  /** Every row of a record's class has the record's status. */
  lemma ClassStatus(e: Evidence, k: nat, grouped: seq<Volume>, v: Volume)
    requires Checked(e, k) && v in grouped
    requires grouped == Class(e.volumes, e.groups[k].container.value, e.groups[k].uuid) && GroupMatches(e.groups[k], grouped)
    ensures v.status == e.groups[k].status
  {
    AcceptedIs(e);
    var c := e.groups[k].container.value;
    ClassMembers(e.volumes, c, e.groups[k].uuid);
    var i :| 0 <= i < |e.volumes| && e.volumes[i] == v;
    var n :| 0 <= n < |e.containers| && e.containers[n] == c;
    assert ContainerValid(e, e.containers[n]);
    assert ClassValid(e, c, e.volumes[i].groupUuid.value);
    var j :| 0 <= j < |grouped| && grouped[j] == v;
  }

  /** A record's members are the volumes of its container with its uuid, at least two of them, each with the record's own status. */
  lemma RecordMembers(e: Evidence, k: nat)
    requires Checked(e, k)
    ensures var g := e.groups[k];
      && g.id == "apfs-group:" + g.uuid
      && (forall v :: v in e.volumes ==>
           (v.id in g.volumeIds <==> v.container == g.container.value && v.groupUuid == Some(g.uuid)))
      && (exists u, v :: IsMember(e, g, u) && IsMember(e, g, v) && u.id != v.id)
      && (forall v :: IsMember(e, g, v) ==> v.status == g.status && v.groupId == Some(g.id))
  {
    var grouped := RecordClass(e, k);
    var g := e.groups[k];
    forall v | v in e.volumes
      ensures v.id in g.volumeIds <==> v.container == g.container.value && v.groupUuid == Some(g.uuid)
    {
      assert v.id in g.volumeIds <==> IsMember(e, g, v);
    }
    assert grouped[0] in grouped && grouped[1] in grouped;
    assert IsMember(e, g, grouped[0]) && IsMember(e, g, grouped[1]);
    CheckedRecord(e, k);
    forall v | IsMember(e, g, v) ensures v.status == g.status && v.groupId == Some(g.id) {
      ClassStatus(e, k, grouped, v);
    }
  }

  /** Every record of accepted evidence, checked in full or not: its identity, and at least two distinct members that name it, of one container. */
  lemma RecordShape(e: Evidence, k: nat)
    requires Accepted(e) && k < |e.groups|
    ensures var g := e.groups[k];
      && g.id == "apfs-group:" + g.uuid && |g.uuid| == 32
      && (forall i :: 0 <= i < 32 ==> '0' <= g.uuid[i] <= '9' || 'a' <= g.uuid[i] <= 'f')
      && (exists i :: 0 <= i < 32 && g.uuid[i] != '0')
      && |g.volumeIds| >= 2 && (forall i, j :: 0 <= i < j < |g.volumeIds| ==> g.volumeIds[i] != g.volumeIds[j])
      && (forall i :: 0 <= i < |g.volumeIds| ==> Known(e.volumes, g.volumeIds[i]))
    ensures var g := e.groups[k]; forall u, v :: IsMember(e, g, u) && IsMember(e, g, v) ==>
      && u.container == v.container && v.groupId == Some(g.id) && (e.extended ==> g.container == Some(v.container))
  {
    AcceptedIs(e);
    assert GroupValid(e, e.groups[k]);
  }

  /** A volume that names a group is listed by exactly one record of its container, which has that name. */
  lemma NamedGroupExists(e: Evidence, v: Volume) returns (k: nat)
    requires Accepted(e) && v in e.volumes && v.groupId.Some? && (e.extended || v.groupId.value != "")
    ensures k < |e.groups| && e.groups[k].id == v.groupId.value && IsMember(e, e.groups[k], v)
    ensures forall l :: 0 <= l < |e.groups| && v.id in e.groups[l].volumeIds ==> l == k
  {
    AcceptedIs(e);
    var i :| 0 <= i < |e.volumes| && e.volumes[i] == v;
    assert VolumeRoutes(e, e.volumes[i]);
    var n :| Keyed(e, n, v.container, v.groupId.value) && v.id in e.groups[n].volumeIds;
    k := n;
    forall l | 0 <= l < |e.groups| && v.id in e.groups[l].volumeIds ensures l == k {
      OneRecordPerMember(e, l, k, v.id);
    }
  }

  // ---- Roles ----

  lemma {:induction false} RoleMembers(vs: seq<Volume>, role: string)
    requires UniqueIds(vs)
    ensures forall v :: v in WithRole(vs, role) <==> v in vs && v.role == role
    ensures UniqueIds(WithRole(vs, role))
  {
    if vs != [] {
      var before := vs[..|vs| - 1];
      RoleMembers(before, role);
      assert vs == before + [vs[|vs| - 1]];
      var rest := WithRole(before, role);
      forall i | 0 <= i < |rest| ensures rest[i].id != vs[|vs| - 1].id {
        assert rest[i] in before;
      }
    }
  }

  /** How many members have a role, in terms of the members. */
  lemma RoleCounts(e: Evidence, g: Group, grouped: seq<Volume>, role: string)
    requires UniqueIds(grouped) && forall v :: v in grouped <==> IsMember(e, g, v)
    ensures var found := WithRole(grouped, role);
      && (|found| == 0 <==> Lacking(e, g, role)) && (|found| == 1 <==> One(e, g, role)) && (|found| > 1 <==> Several(e, g, role))
      && (|found| == 1 ==> Holds(e, g, role, found[0]))
  {
    RoleMembers(grouped, role);
    var found := WithRole(grouped, role);
    assert forall v :: v in found <==> Holds(e, g, role, v);
    if |found| > 0 {
      assert found[0] in found;
    }
    if |found| > 1 {
      assert found[1] in found && found[0].id != found[1].id;
    }
    if |found| == 1 {
      forall u | Holds(e, g, role, u) ensures u == found[0] {
        assert u in found;
      }
    }
  }

  lemma SoundIs(e: Evidence, g: Group, grouped: seq<Volume>)
    requires forall v :: v in grouped <==> IsMember(e, g, v)
    ensures MembersSound(e, g) <==> forall i :: 0 <= i < |grouped| ==> grouped[i].metadataValid == Some(true) && grouped[i].uuid != ""
  {
    if MembersSound(e, g) {
      forall i | 0 <= i < |grouped| ensures grouped[i].metadataValid == Some(true) && grouped[i].uuid != "" {
        assert IsMember(e, g, grouped[i]);
      }
    }
    if forall i :: 0 <= i < |grouped| ==> grouped[i].metadataValid == Some(true) && grouped[i].uuid != "" {
      forall v | IsMember(e, g, v) ensures v.metadataValid == Some(true) && v.uuid != "" {
        assert v in grouped;
      }
    }
  }

  lemma StatusByCount(grouped: seq<Volume>, sound: bool, systems: nat, datas: nat)
    requires sound <==> forall i :: 0 <= i < |grouped| ==> grouped[i].metadataValid == Some(true) && grouped[i].uuid != ""
    requires systems == |WithRole(grouped, "system")| && datas == |WithRole(grouped, "data")|
    ensures StatusOf(grouped) == StatusFrom(sound, systems, datas)
    ensures StatusOf(grouped) == ValidSystemData ==>
      SystemOf(grouped) == Some(WithRole(grouped, "system")[0].id) && DataOf(grouped) == Some(WithRole(grouped, "data")[0].id)
    ensures StatusOf(grouped) != ValidSystemData ==> SystemOf(grouped) == None && DataOf(grouped) == None
  {
  }

  /** The status by the soundness of the members and the numbers of system and data members. */
  ghost function StatusFrom(sound: bool, systems: nat, datas: nat): Association {
    if !sound then Malformed
    else if systems > 1 || datas > 1 then Ambiguous
    else if systems == 1 && datas == 1 then ValidSystemData
    else Incomplete
  }

  /** The number of members with a role, and the target a record may name for it. */
  ghost predicate Counted(e: Evidence, g: Group, role: string, n: nat, target: Option<string>) {
    && (n == 1 <==> One(e, g, role)) && (n > 1 <==> Several(e, g, role))
    && (n == 1 ==> exists v :: Holds(e, g, role, v) && target == Some(v.id))
  }

  lemma RoleCounted(e: Evidence, g: Group, grouped: seq<Volume>, role: string, n: nat, target: Option<string>)
    requires UniqueIds(grouped) && (forall v :: v in grouped <==> IsMember(e, g, v)) && n == |WithRole(grouped, role)|
    requires n == 1 ==> target == Some(WithRole(grouped, role)[0].id)
    ensures Counted(e, g, role, n, target)
  {
    RoleCounts(e, g, grouped, role);
    if n == 1 {
      assert Holds(e, g, role, WithRole(grouped, role)[0]);
    }
  }

  /** The number of members with a role and the id of the first of them. */
  lemma RoleNumber(e: Evidence, g: Group, grouped: seq<Volume>, role: string) returns (n: nat, target: Option<string>)
    requires UniqueIds(grouped) && (forall v :: v in grouped <==> IsMember(e, g, v))
    ensures n == |WithRole(grouped, role)| && (n > 0 ==> target == Some(WithRole(grouped, role)[0].id))
    ensures Counted(e, g, role, n, target)
  {
    var found := WithRole(grouped, role);
    n := |found|;
    target := if n > 0 then Some(found[0].id) else None;
    RoleCounted(e, g, grouped, role, n, target);
  }

  /** The record's status and targets by the two numbers; what they count is another matter. */
  lemma RecordFrom(g: Group, grouped: seq<Volume>, sound: bool, systems: nat, datas: nat, system: Option<string>, data: Option<string>)
    requires g.status == Some(StatusOf(grouped)) && g.systemId == SystemOf(grouped) && g.dataId == DataOf(grouped)
    requires sound <==> forall i :: 0 <= i < |grouped| ==> grouped[i].metadataValid == Some(true) && grouped[i].uuid != ""
    requires systems == |WithRole(grouped, "system")| && (systems > 0 ==> system == Some(WithRole(grouped, "system")[0].id))
    requires datas == |WithRole(grouped, "data")| && (datas > 0 ==> data == Some(WithRole(grouped, "data")[0].id))
    ensures g.status == Some(StatusFrom(sound, systems, datas))
    ensures g.status == Some(ValidSystemData) ==> g.systemId == system && g.dataId == data
    ensures g.status != Some(ValidSystemData) ==> g.systemId == None && g.dataId == None
  {
    StatusByCount(grouped, sound, systems, datas);
  }

  /** What a class says of its record, in numbers of members. */
  lemma ClassCounts(e: Evidence, g: Group, grouped: seq<Volume>) returns (systems: nat, datas: nat, system: Option<string>, data: Option<string>)
    requires UniqueIds(grouped) && (forall v :: v in grouped <==> IsMember(e, g, v)) && GroupMatches(g, grouped)
    ensures Counted(e, g, "system", systems, system) && Counted(e, g, "data", datas, data)
    ensures g.status == Some(StatusFrom(MembersSound(e, g), systems, datas))
    ensures g.status == Some(ValidSystemData) ==> g.systemId == system && g.dataId == data
    ensures g.status != Some(ValidSystemData) ==> g.systemId == None && g.dataId == None
  {
    systems, system := RoleNumber(e, g, grouped, "system");
    datas, data := RoleNumber(e, g, grouped, "data");
    SoundIs(e, g, grouped);
    RecordFrom(g, grouped, MembersSound(e, g), systems, datas, system, data);
  }

  lemma RecordCounts(e: Evidence, k: nat) returns (systems: nat, datas: nat, system: Option<string>, data: Option<string>)
    requires Checked(e, k)
    ensures var g := e.groups[k];
      && Counted(e, g, "system", systems, system) && Counted(e, g, "data", datas, data)
      && g.status == Some(StatusFrom(MembersSound(e, g), systems, datas))
      && (g.status == Some(ValidSystemData) ==> g.systemId == system && g.dataId == data)
      && (g.status != Some(ValidSystemData) ==> g.systemId == None && g.dataId == None)
  {
    var grouped := RecordClass(e, k);
    systems, datas, system, data := ClassCounts(e, e.groups[k], grouped);
  }

  /** The record's status, told from its members: malformed, ambiguous, valid or, if none of these, incomplete. */
  lemma RecordStatus(e: Evidence, k: nat)
    requires Checked(e, k)
    ensures var g := e.groups[k];
      && (g.status == Some(Malformed) <==> !MembersSound(e, g))
      && (g.status == Some(Ambiguous) <==> MembersSound(e, g) && (Several(e, g, "system") || Several(e, g, "data")))
      && (g.status == Some(ValidSystemData) <==> MembersSound(e, g) && One(e, g, "system") && One(e, g, "data"))
      && g.status != None && g.status != Some(NoGroup)
  {
    var systems, datas, system, data := RecordCounts(e, k);
  }

  /** Only a valid record has targets: its one system member and its one data member. */
  lemma RecordTargets(e: Evidence, k: nat)
    requires Checked(e, k)
    ensures var g := e.groups[k];
      && (g.status == Some(ValidSystemData) ==>
           && (exists v :: Holds(e, g, "system", v) && g.systemId == Some(v.id))
           && (exists v :: Holds(e, g, "data", v) && g.dataId == Some(v.id)))
      && (g.status != Some(ValidSystemData) ==> g.systemId.None? && g.dataId.None?)
  {
    var systems, datas, system, data := RecordCounts(e, k);
  }

  // ---- Volumes without a record ----

  /** A checked row states its own metadata validity, and without a uuid it has no group. */
  lemma RowAlone(e: Evidence, v: Volume)
    requires Accepted(e) && e.extended && v in e.volumes && v.container in e.containers
    ensures v.metadataValid == Some(v.groupBit == v.groupUuid.Some? && (v.groupUuid.Some? ==> v.role == "system" || v.role == "data"))
    ensures v.groupUuid.None? ==> v.groupId.None? && v.status == Some(if v.groupBit then Malformed else NoGroup)
  {
    AcceptedIs(e);
    var i :| 0 <= i < |e.volumes| && e.volumes[i] == v;
    var c :| 0 <= c < |e.containers| && e.containers[c] == v.container;
    assert ContainerValid(e, e.containers[c]);
    assert RowValid(e.volumes[i]);
  }

  /** A volume that shares its uuid with no other of its container routes to no record, and is incomplete at best. */
  lemma SingleVolume(e: Evidence, v: Volume)
    requires Accepted(e) && e.extended && v in e.volumes && v.container in e.containers && v.groupUuid.Some?
    requires forall u :: u in e.volumes && u.container == v.container && u.groupUuid == v.groupUuid ==> u == v
    ensures v.groupId.None?
    ensures v.status == Some(if v.metadataValid != Some(true) || v.uuid == "" then Malformed else Incomplete)
    ensures forall k :: 0 <= k < |e.groups| && e.groups[k].container == Some(v.container) ==>
      e.groups[k].id != "apfs-group:" + v.groupUuid.value
  {
    AcceptedIs(e);
    var i :| 0 <= i < |e.volumes| && e.volumes[i] == v;
    var c :| 0 <= c < |e.containers| && e.containers[c] == v.container;
    assert ContainerValid(e, e.containers[c]);
    assert ClassValid(e, v.container, e.volumes[i].groupUuid.value);
    var grouped := Class(e.volumes, v.container, v.groupUuid.value);
    SingleClass(e.volumes, v);
    SingleStatus(v, grouped);
    forall k | 0 <= k < |e.groups| && e.groups[k].container == Some(v.container)
      ensures e.groups[k].id != "apfs-group:" + v.groupUuid.value
    {
      assert GroupValid(e, e.groups[k]);
      assert !Keyed(e, k, v.container, PREFIX + v.groupUuid.value);
    }
  }

  lemma SingleClass(vs: seq<Volume>, v: Volume)
    requires UniqueIds(vs) && v in vs && v.groupUuid.Some?
    requires forall u :: u in vs && u.container == v.container && u.groupUuid == v.groupUuid ==> u == v
    ensures Class(vs, v.container, v.groupUuid.value) == [v]
  {
    var grouped := Class(vs, v.container, v.groupUuid.value);
    ClassMembers(vs, v.container, v.groupUuid.value);
    ClassUnique(vs, v.container, v.groupUuid.value);
    assert v in grouped;
    forall i | 0 <= i < |grouped| ensures grouped[i] == v {
      assert grouped[i] in grouped;
    }
    assert |grouped| > 1 ==> grouped[0].id != grouped[1].id;
  }

  lemma SingleStatus(v: Volume, grouped: seq<Volume>)
    requires grouped == [v]
    ensures StatusOf(grouped) == if v.metadataValid != Some(true) || v.uuid == "" then Malformed else Incomplete
  {
    assert grouped[0] == v;
    StatusByCount(grouped, v.metadataValid == Some(true) && v.uuid != "",
                  |WithRole(grouped, "system")|, |WithRole(grouped, "data")|);
    assert grouped[..|grouped| - 1] == [];
    SingleRole(v, grouped, "system");
    SingleRole(v, grouped, "data");
    assert "system" != "data" by {
      assert "system"[0] != "data"[0];
    }
  }

  lemma SingleRole(v: Volume, grouped: seq<Volume>, role: string)
    requires grouped == [v]
    ensures |WithRole(grouped, role)| == if v.role == role then 1 else 0
  {
    assert grouped[..|grouped| - 1] == [];
    assert WithRole([], role) == [];
  }
}
