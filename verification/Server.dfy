/**
 The authoritative node as an object over the store: how each handler
 builds the wraps it hands to a transaction, and that handling a request
 does exactly what the request machine says.
 */
module Server {
  import opened Base
  import opened Crypto
  import opened Encoding
  import opened Tables
  import opened Transactions
  import opened Requests
  import opened Audit
  import opened RequestLog
  import opened Storage

  // ---- wrap lists ----

  /** `wraps` holds one wrap of `dek` for operational, backup and each reader. */
  ghost predicate IsWrapSet(wraps: WrapList, op: Key, backup: Key, dek: Dek, readers: set<Endpoint>) {
    && (forall i, j :: 0 <= i < j < |wraps| ==> wraps[i].0 != wraps[j].0)
    && (forall r :: r in Recipients(readers) <==> exists i :: 0 <= i < |wraps| && wraps[i].0 == r)
    && (forall i :: 0 <= i < |wraps| ==> wraps[i].1 == Wrap(dek, KeyFor(op, backup, wraps[i].0)))
  }

  lemma {:induction false} AddRowsAt(rows: map<(nat, Recipient), Wrap>, version: nat, wraps: WrapList, k: (nat, Recipient), w: Wrap)
    requires k in AddRows(rows, version, wraps)
    requires forall i :: 0 <= i < |wraps| && (version, wraps[i].0) == k ==> wraps[i].1 == w
    ensures AddRows(rows, version, wraps)[k] == w || (k in rows && AddRows(rows, version, wraps)[k] == rows[k]
                                                      && forall i :: 0 <= i < |wraps| ==> (version, wraps[i].0) != k)
  {
    if wraps != [] {
      var front, last := wraps[..|wraps| - 1], wraps[|wraps| - 1];
      if (version, last.0) != k {
        AddRowsAt(rows, version, front, k, w);
        assert forall i :: 0 <= i < |front| ==> front[i] == wraps[i];
      }
    }
  }

  lemma WrapSetRowAt(
    rows: map<(nat, Recipient), Wrap>, version: nat, wraps: WrapList, op: Key, backup: Key, dek: Dek, readers: set<Endpoint>,
    v: nat, r: Recipient)
    requires IsWrapSet(wraps, op, backup, dek, readers)
    requires v == version ==> (v, r) !in rows
    ensures (v, r) in AddRows(rows, version, wraps) <==> (v, r) in rows || (v == version && r in Recipients(readers))
    ensures (v, r) in AddRows(rows, version, wraps) ==>
              AddRows(rows, version, wraps)[(v, r)] == if v == version then Wrap(dek, KeyFor(op, backup, r)) else rows[(v, r)]
  {
    AddRowsKeys(rows, version, wraps, (v, r));
    if (v, r) in AddRows(rows, version, wraps) {
      if v == version {
        AddRowsAt(rows, version, wraps, (v, r), Wrap(dek, KeyFor(op, backup, r)));
      } else {
        AddRowsAt(rows, version, wraps, (v, r), rows[(v, r)]);
      }
    }
  }

  lemma WrapSetNoClash(
    rows: map<(nat, Recipient), Wrap>, version: nat, wraps: WrapList, op: Key, backup: Key, dek: Dek, readers: set<Endpoint>)
    requires IsWrapSet(wraps, op, backup, dek, readers)
    requires forall k :: k in rows ==> k.0 != version
    ensures wraps != [] && NoClash(rows, version, wraps)
  {
    assert Operational in Recipients(readers);
  }

  /** Inserting a complete list of wraps adds the full wrap set of the version. */
  lemma WrapSetRows(
    rows: map<(nat, Recipient), Wrap>, version: nat, wraps: WrapList, op: Key, backup: Key, dek: Dek, readers: set<Endpoint>)
    requires IsWrapSet(wraps, op, backup, dek, readers)
    requires forall k :: k in rows ==> k.0 != version
    ensures AddRows(rows, version, wraps) == rows + WrapSet(op, backup, dek, version, readers)
  {
    var added := AddRows(rows, version, wraps);
    forall v: nat, r: Recipient
      ensures (v, r) in added <==> (v, r) in rows || (v == version && r in Recipients(readers))
      ensures (v, r) in added ==> added[(v, r)] == if v == version then Wrap(dek, KeyFor(op, backup, r)) else rows[(v, r)]
    {
      WrapSetRowAt(rows, version, wraps, op, backup, dek, readers, v, r);
    }
    SameRows(added, rows, version, op, backup, dek, readers);
  }

  lemma SameRows(
    added: map<(nat, Recipient), Wrap>, rows: map<(nat, Recipient), Wrap>, version: nat,
    op: Key, backup: Key, dek: Dek, readers: set<Endpoint>)
    requires forall v: nat, r: Recipient :: (v, r) in added <==> (v, r) in rows || (v == version && r in Recipients(readers))
    requires forall v: nat, r: Recipient :: (v, r) in added ==>
               added[(v, r)] == if v == version then Wrap(dek, KeyFor(op, backup, r)) else rows[(v, r)]
    requires forall k :: k in rows ==> k.0 != version
    ensures added == rows + WrapSet(op, backup, dek, version, readers)
  {
    var full := WrapSet(op, backup, dek, version, readers);
    forall k: (nat, Recipient)
      ensures k in added <==> k in rows + full
      ensures k in added ==> added[k] == (rows + full)[k]
    {
      assert k == (k.0, k.1);
    }
  }

  lemma {:induction false} ReaderRowsAt(rows: map<(nat, Recipient), Wrap>, e: Endpoint, wraps: VersionList, k: (nat, Recipient))
    ensures k in AddReaderRows(rows, e, wraps) <==> k in rows || (k.1 == Reader(e) && exists i :: 0 <= i < |wraps| && wraps[i].0 == k.0)
    ensures (forall i :: 0 <= i < |wraps| ==> (wraps[i].0, Reader(e)) != k) && k in rows ==> AddReaderRows(rows, e, wraps)[k] == rows[k]
    ensures forall i :: 0 <= i < |wraps| && (wraps[i].0, Reader(e)) == k && (forall j :: i < j < |wraps| ==> wraps[j].0 != k.0) ==>
              AddReaderRows(rows, e, wraps)[k] == wraps[i].1
  {
    if wraps != [] {
      var front := wraps[..|wraps| - 1];
      ReaderRowsAt(rows, e, front, k);
      assert forall i :: 0 <= i < |front| ==> front[i] == wraps[i];
    }
  }

  /** `wraps` re-wraps every retained version to `e`, once. */
  ghost predicate RewrapsAll(wraps: VersionList, grp: Group, e: Endpoint) {
    && (forall i, j :: 0 <= i < j < |wraps| ==> wraps[i].0 != wraps[j].0)
    && (forall v :: v in grp.deks <==> exists i :: 0 <= i < |wraps| && wraps[i].0 == v)
    && (forall i :: 0 <= i < |wraps| ==>
          (wraps[i].0, Operational) in grp.wraps && wraps[i].1 == Wrap(DekOf(grp, wraps[i].0), EndpointKey(e)))
  }

  lemma ReaderRows(grp: Group, e: Endpoint, wraps: VersionList)
    requires RewrapsAll(wraps, grp, e)
    ensures AddReaderRows(grp.wraps, e, wraps) == grp.wraps + ReaderWraps(grp, e)
  {
    var added, more := AddReaderRows(grp.wraps, e, wraps), ReaderWraps(grp, e);
    forall k: (nat, Recipient)
      ensures k in added <==> k in grp.wraps + more
      ensures k in added ==> added[k] == (grp.wraps + more)[k]
    {
      ReaderRowsAt(grp.wraps, e, wraps, k);
      assert k == (k.0, k.1);
      assert k in more <==> k.0 in grp.deks && k.1 == Reader(e);
    }
  }

  /** The operational and backup wraps every DEK version carries. */
  method BaseWraps(op: Key, backup: Key, dek: Dek) returns (wraps: WrapList)
    ensures IsWrapSet(wraps, op, backup, dek, {})
  {
    wraps := [(Operational, Wrap(dek, op)), (Backup, Wrap(dek, backup))];
    assert wraps[0].0 == Operational && wraps[1].0 == Backup;
    assert Recipients({}) == {Operational, Backup};
  }

  /** Wraps `dek` to operational, backup and every explicit reader of the
      group, skipping the identity being revoked. */
  method WrapSetForGroup(grp: Group, op: Key, backup: Key, dek: Dek, exclude: Option<Endpoint>) returns (wraps: WrapList)
    ensures IsWrapSet(wraps, op, backup, dek, Readers(grp) - if exclude.Some? then {exclude.value} else {})
  {
    wraps := BaseWraps(op, backup, dek);
    var readers := Enumerate(Readers(grp));
    ghost var skip := if exclude.Some? then {exclude.value} else {};
    assert Elements(readers[..0]) - skip == {};
    for i := 0 to |readers|
      invariant IsWrapSet(wraps, op, backup, dek, Elements(readers[..i]) - skip)
    {
      ElementsAppend(readers[..i + 1]);
      assert readers[..i + 1][..i] == readers[..i] && readers[i] !in readers[..i];
      if exclude != Some(readers[i]) {
        AppendReader(wraps, op, backup, dek, Elements(readers[..i]) - skip, readers[i]);
        assert Elements(readers[..i + 1]) - skip == Elements(readers[..i]) - skip + {readers[i]};
        wraps := wraps + [(Reader(readers[i]), Wrap(dek, EndpointKey(readers[i])))];
      } else {
        assert Elements(readers[..i + 1]) - skip == Elements(readers[..i]) - skip;
      }
    }
    assert readers[..|readers|] == readers && Elements(readers) == Readers(grp);
  }

  lemma AppendReader(wraps: WrapList, op: Key, backup: Key, dek: Dek, readers: set<Endpoint>, e: Endpoint)
    requires IsWrapSet(wraps, op, backup, dek, readers) && e !in readers
    ensures IsWrapSet(wraps + [(Reader(e), Wrap(dek, EndpointKey(e)))], op, backup, dek, readers + {e})
  {
    var more := wraps + [(Reader(e), Wrap(dek, EndpointKey(e)))];
    assert Reader(e) !in Recipients(readers);
    forall r: Recipient
      ensures r in Recipients(readers + {e}) <==> exists i :: 0 <= i < |more| && more[i].0 == r
    {
      assert r in Recipients(readers + {e}) <==> r in Recipients(readers) || r == Reader(e);
      if r in Recipients(readers) {
        var i :| 0 <= i < |wraps| && wraps[i].0 == r;
        assert more[i].0 == r;
      }
      if r == Reader(e) {
        assert more[|wraps|].0 == r;
      }
    }
  }

  /** Every retained DEK version re-wrapped to a new reader; needs the
      operational key for each of them. */
  method WrapsForNewReader(grp: Group, op: Key, e: Endpoint) returns (r: Option<VersionList>)
    ensures r.Some? <==> forall v :: v in grp.deks ==> (v, Operational) in grp.wraps && Unwrap(grp.wraps[(v, Operational)], op).Some?
    ensures r.Some? ==> RewrapsAll(r.value, grp, e)
  {
    var versions := Enumerate(grp.deks);
    var wraps: VersionList := [];
    for i := 0 to |versions|
      invariant |wraps| == i
      invariant forall k :: 0 <= k < i ==>
                  && wraps[k].0 == versions[k]
                  && (versions[k], Operational) in grp.wraps
                  && Unwrap(grp.wraps[(versions[k], Operational)], op).Some?
                  && wraps[k].1 == Wrap(DekOf(grp, versions[k]), EndpointKey(e))
    {
      var v := versions[i];
      assert v in grp.deks;
      if (v, Operational) !in grp.wraps {
        return None;
      }
      var dek := Unwrap(grp.wraps[(v, Operational)], op);
      if dek.None? {
        return None;
      }
      wraps := wraps + [(v, Wrap(dek.value, EndpointKey(e)))];
    }
    forall v | v in grp.deks
      ensures (v, Operational) in grp.wraps && Unwrap(grp.wraps[(v, Operational)], op).Some?
      ensures exists i :: 0 <= i < |wraps| && wraps[i].0 == v
    {
      var i :| 0 <= i < |versions| && versions[i] == v;
      assert wraps[i].0 == v;
    }
    r := Some(wraps);
  }

  /** The wraps of a new group's first DEK version. */
  method CreatorWraps(op: Key, backup: Key, dek: Dek, e: Endpoint) returns (wraps: WrapList)
    ensures wraps != [] && NoClash(map[], 1, wraps)
    ensures AddRows(map[], 1, wraps) == WrapSet(op, backup, dek, 1, {e})
  {
    wraps := BaseWraps(op, backup, dek);
    AppendReader(wraps, op, backup, dek, {}, e);
    assert {} + {e} == {e};
    wraps := wraps + [(Reader(e), Wrap(dek, EndpointKey(e)))];
    WrapSetNoClash(map[], 1, wraps, op, backup, dek, {e});
    WrapSetRows(map[], 1, wraps, op, backup, dek, {e});
    assert map[] + WrapSet(op, backup, dek, 1, {e}) == WrapSet(op, backup, dek, 1, {e});
  }

  // ---- handlers ----

  /** No wrap row names a version that is not retained. */
  ghost predicate Retained(groups: map<Name, Group>) {
    forall g :: g in groups ==> RetainedIn(groups[g])
  }

  ghost predicate RetainedIn(grp: Group) {
    forall k :: k in grp.wraps ==> k.0 in grp.deks
  }

  /** The handler committed what `d` decides and answers accordingly. */
  ghost predicate Carried(db: Db, db': Db, d: Decision, response: Response, tick: nat) {
    TxOk(db, d.tx) && db' == Commit(db, d.tx, tick) && response == d.response
  }

  /** The next DEK version with a complete wrap list is a rotation. */
  lemma InsertedIsRotate(grp: Group, wraps: WrapList, op: Key, backup: Key, dek: Dek, readers: set<Endpoint>)
    requires IsWrapSet(wraps, op, backup, dek, readers)
    requires forall k :: k in grp.wraps ==> k.0 in grp.deks
    ensures wraps != [] && NoClash(grp.wraps, NextVersion(grp.deks), wraps)
    ensures Inserted(grp, wraps) == Rotate(op, backup, grp, dek, readers)
  {
    WrapSetNoClash(grp.wraps, NextVersion(grp.deks), wraps, op, backup, dek, readers);
    WrapSetRows(grp.wraps, NextVersion(grp.deks), wraps, op, backup, dek, readers);
  }

  class Bunker {
    const store: Store
    const log: AuditLog
    const op: Key
    const backup: Key
    var tick: nat

    /** The node holds the operational key the database records. */
    ghost predicate Valid()
      reads this, store
    {
      store.op == op && store.backup == backup && UniqueNames(store.ids) && Retained(store.groups)
    }

    constructor (store: Store, log: AuditLog, op: Key)
      requires store.op == op && UniqueNames(store.ids) && Retained(store.groups)
      ensures this.store == store && this.log == log && Valid()
    {
      this.store, this.log := store, log;
      this.op, backup := op, store.backup;
      tick := 0;
    }

    method Put(e: Endpoint, group: Name, name: Name, value: Bytes, expected: nat) returns (response: Response)
      requires Valid() && e in store.ids
      modifies store
      ensures Carried(old(store.State()), store.State(), DecidePut(old(store.State()), e, group, name, value, expected), response, tick)
    {
      if !Authorized(store.State(), e, group, WRITE, store.ids[e].serviceAdmin) {
        return Denied;
      }
      var grp := store.groups[group];
      if grp.deks == {} {
        return Failed(Internal);
      }
      var next := NextDekVersion(grp.deks);
      var dekVersion := next - 1;
      if (dekVersion, Operational) !in grp.wraps {
        return Failed(Internal);
      }
      var newVersion := VersionOf(grp, name) + 1;
      if expected == U64_MAX {
        return VersionConflict(newVersion - 1);
      }
      var target := expected + 1;
      if target != newVersion && expected != 0 {
        return VersionConflict(newVersion - 1);
      }
      var dek := Unwrap(grp.wraps[(dekVersion, Operational)], op);
      if dek.None? {
        return Failed(Internal);
      }
      var aad := BuildSecretAad(group, name, target, dekVersion);
      var row := Row(dekVersion, tick, Sealed(dek.value, aad, tick, value), store.ids[e].name);
      var ok, version := store.PutSecret(group, name, expected, row);
      if !ok {
        return VersionConflict(version);
      }
      response := NewVersion(version);
    }

    method Delete(e: Endpoint, group: Name, name: Name, expected: nat) returns (response: Response)
      requires Valid() && e in store.ids
      modifies store
      ensures Carried(old(store.State()), store.State(), DecideDelete(old(store.State()), e, group, name, expected), response, tick)
    {
      if !Authorized(store.State(), e, group, WRITE, store.ids[e].serviceAdmin) {
        return Denied;
      }
      var ok, current := store.DeleteSecret(group, name, expected);
      if !ok {
        return VersionConflict(current);
      }
      response := Ok;
    }

    method CreateGroup(e: Endpoint, name: Name) returns (response: Response)
      requires Valid() && e in store.ids
      modifies store
      ensures Carried(old(store.State()), store.State(), DecideCreate(old(store.State()), e, name), response, tick)
    {
      if !store.ids[e].serviceAdmin {
        return Denied;
      }
      if name in store.groups {
        return Failed(GroupExists);
      }
      var dek := Dek(tick, name);
      var wraps := CreatorWraps(op, backup, dek, e);
      var ok := store.CreateGroup(name, wraps, e, ALL_PERMS);
      if !ok {
        return Failed(Internal);
      }
      response := Ok;
    }

    method AddIdentity(e: Endpoint, name: Name, parsed: Option<Endpoint>, flag: bool) returns (response: Response)
      requires Valid() && e in store.ids
      modifies store
      ensures Carried(old(store.State()), store.State(), DecideAdd(old(store.State()), e, name, parsed, flag), response, tick)
    {
      if !store.ids[e].serviceAdmin {
        return Denied;
      }
      if parsed.None? {
        return Failed(InvalidEndpoint);
      }
      var ok := store.AddIdentity(name, parsed.value, flag);
      if !ok {
        return Failed(AlreadyRegistered);
      }
      response := Ok;
    }

    method SetServiceAdmin(e: Endpoint, name: Name, flag: bool) returns (response: Response)
      requires Valid() && e in store.ids
      modifies store
      ensures Carried(old(store.State()), store.State(), DecideSetAdmin(old(store.State()), e, name, flag), response, tick)
    {
      if !store.ids[e].serviceAdmin {
        return Denied;
      }
      var target := store.IdentityByName(name);
      if target.None? {
        return Failed(NoSuchIdentity);
      }
      if store.ids[target.value].serviceAdmin && !flag {
        var admins := |ServiceAdmins(store.State())|;
        if admins <= 1 {
          return Failed(LastServiceAdmin);
        }
      }
      var ok := store.SetServiceAdmin(name, flag);
      if !ok {
        return Failed(Internal);
      }
      response := Ok;
    }

    method Rotate(e: Endpoint, group: Name) returns (response: Response)
      requires Valid() && e in store.ids
      modifies store
      ensures Carried(old(store.State()), store.State(), DecideRotate(old(store.State()), e, group), response, tick)
    {
      if !Authorized(store.State(), e, group, ADMIN, store.ids[e].serviceAdmin) {
        return Denied;
      }
      var dek := Dek(tick, group);
      var wraps := WrapSetForGroup(store.groups[group], op, backup, dek, None);
      assert Readers(store.groups[group]) - {} == Readers(store.groups[group]);
      InsertedIsRotate(store.groups[group], wraps, op, backup, dek, Readers(store.groups[group]));
      var ok := store.AddDek(group, wraps);
      if !ok {
        return Failed(Internal);
      }
      response := Ok;
    }

    /** Gains read: hands the grantee every retained DEK version. */
    method GrantRead(group: Name, target: Endpoint, perms: Perms) returns (response: Response)
      requires Valid() && group in store.groups && target in store.ids
      requires !HasRead(store.groups[group], target) && perms.read
      modifies store
      ensures Carried(old(store.State()), store.State(), GrantTx(old(store.State()), group, target, perms), response, tick)
    {
      var grp := store.groups[group];
      var wraps := WrapsForNewReader(grp, op, target);
      if wraps.None? {
        return Failed(Internal);
      }
      ReaderRows(grp, target, wraps.value);
      var ok := store.GrantWithWraps(target, group, perms, wraps.value);
      if !ok {
        return Failed(Internal);
      }
      response := Ok;
    }

    /** Loses read: drops the wraps of the target and rotates away from it. */
    method RevokeRead(group: Name, target: Endpoint, perms: Perms) returns (response: Response)
      requires Valid() && group in store.groups && target in store.ids
      requires HasRead(store.groups[group], target) && !perms.read
      modifies store
      ensures Carried(old(store.State()), store.State(), GrantTx(old(store.State()), group, target, perms), response, tick)
    {
      var grp := store.groups[group];
      var dek := Dek(tick, group);
      var wraps := WrapSetForGroup(grp, op, backup, dek, Some(target));
      InsertedIsRotate(grp.(acl := SetAcl(grp.acl, target, perms), wraps := DropWraps(grp.wraps, target)),
                       wraps, op, backup, dek, Readers(grp) - {target});
      var ok := store.RevokeReadAndRotate(group, target, perms, wraps);
      if !ok {
        return Failed(Internal);
      }
      response := Ok;
    }

    method Grant(e: Endpoint, group: Name, identity: Name, perms: Perms) returns (response: Response, rotated: seq<Name>)
      requires Valid() && e in store.ids
      modifies store
      ensures Carried(old(store.State()), store.State(), DecideGrant(old(store.State()), e, group, identity, perms), response, tick)
      ensures Lists(rotated, RotatedGroups(old(store.State()), DecideGrant(old(store.State()), e, group, identity, perms).tx))
    {
      rotated := [];
      if !Authorized(store.State(), e, group, ADMIN, store.ids[e].serviceAdmin) {
        return Denied, rotated;
      }
      if perms.other != 0 {
        return Failed(InvalidPermBits), rotated;
      }
      var target := store.IdentityByName(identity);
      if target.None? {
        return Failed(NoSuchIdentity), rotated;
      }
      var current := PermsIn(store.groups[group], target.value);
      if current.admin && !perms.admin {
        var admins := |Admins(store.groups[group])|;
        if admins <= 1 {
          return Failed(LastGroupAdmin), rotated;
        }
      }
      if !current.read && perms.read {
        response := GrantRead(group, target.value, perms);
      } else if current.read && !perms.read {
        response := RevokeRead(group, target.value, perms);
        rotated := [group];
      } else {
        store.SetPerms(target.value, group, perms);
        response := Ok;
      }
    }

    /** One rotation per group the identity can read. */
    method RotationsFor(target: Endpoint) returns (rotations: seq<Rotation>, names: seq<Name>)
      requires Valid()
      ensures Lists(names, set g | g in store.groups && HasRead(store.groups[g], target))
      ensures IsRotationPlan(rotations, store.groups, op, backup, target, tick)
    {
      rotations := [];
      var readable := set g | g in store.groups && HasRead(store.groups[g], target);
      names := Enumerate(readable);
      for i := 0 to |names|
        invariant |rotations| == i
        invariant forall k :: 0 <= k < i ==>
                    rotations[k].group == names[k] && RotatesAway(rotations[k], store.groups, op, backup, target, tick)
      {
        var g := names[i];
        assert g in readable;
        var dek := Dek(tick, g);
        var wraps := WrapSetForGroup(store.groups[g], op, backup, dek, Some(target));
        rotations := rotations + [Rotation(g, target, wraps)];
      }
      forall g | g in store.groups && HasRead(store.groups[g], target)
        ensures exists i :: 0 <= i < |rotations| && rotations[i].group == g
      {
        assert g in readable;
        var i :| 0 <= i < |names| && names[i] == g;
        assert rotations[i].group == g;
      }
      forall i | 0 <= i < |rotations|
        ensures rotations[i].group in store.groups && HasRead(store.groups[rotations[i].group], target)
      {
        assert names[i] in readable;
      }
    }

    method RemoveIdentity(e: Endpoint, name: Name) returns (response: Response, rotated: seq<Name>)
      requires Valid() && e in store.ids
      modifies store
      ensures Carried(old(store.State()), store.State(), DecideRemove(old(store.State()), e, name), response, tick)
      ensures Lists(rotated, RotatedGroups(old(store.State()), DecideRemove(old(store.State()), e, name).tx))
    {
      rotated := [];
      if !store.ids[e].serviceAdmin {
        return Denied, rotated;
      }
      var target := store.IdentityByName(name);
      if target.None? {
        return Failed(NoSuchIdentity), rotated;
      }
      if store.ids[target.value].serviceAdmin {
        var admins := |ServiceAdmins(store.State())|;
        if admins <= 1 {
          return Failed(LastServiceAdmin), rotated;
        }
      }
      var rotations, names := RotationsFor(target.value);
      PlanClashFree(store.groups, op, backup, target.value, rotations, tick);
      PlanRemoves(store.groups, op, backup, target.value, rotations, tick);
      var removed := store.RemoveIdentityWithRotations(name, rotations);
      match removed {
        case Removed =>
          rotated := names;
          response := Ok;
        case NoIdentity => response := Failed(NoSuchIdentity);
        case Aborted => response := Failed(Internal);
      }
    }

    /** Answers one request; every handler carries out its decision. */
    method Dispatch(remote: Endpoint, req: Request) returns (response: Response, rotated: seq<Name>)
      requires Valid()
      modifies store
      ensures Carried(old(store.State()), store.State(), Decide(old(store.State()), remote, req), response, tick)
      ensures Lists(rotated, RotatedGroups(old(store.State()), Decide(old(store.State()), remote, req).tx))
    {
      rotated := [];
      if remote !in store.ids {
        return Denied, rotated;
      }
      match req {
        case RemoveIdentityReq(name) => response, rotated := RemoveIdentity(remote, name);
        case Grant(g, identity, perms) => response, rotated := Grant(remote, g, identity, perms);
        case _ => response := DispatchPlain(remote, req);
      }
    }

    /** The requests that rotate no DEK on the side. */
    method DispatchPlain(remote: Endpoint, req: Request) returns (response: Response)
      requires Valid() && remote in store.ids && !req.RemoveIdentityReq? && !req.Grant?
      modifies store
      ensures Carried(old(store.State()), store.State(), Decide(old(store.State()), remote, req), response, tick)
      ensures RotatedGroups(old(store.State()), Decide(old(store.State()), remote, req).tx) == {}
    {
      match req {
        case Put(g, n, value, expected) => response := Put(remote, g, n, value, expected);
        case Delete(g, n, expected) => response := Delete(remote, g, n, expected);
        case CreateGroupReq(name) => response := CreateGroup(remote, name);
        case AddIdentityReq(name, parsed, flag) => response := AddIdentity(remote, name, parsed, flag);
        case RotateDek(g) => response := Rotate(remote, g);
        case SetServiceAdminReq(name, flag) => response := SetServiceAdmin(remote, name, flag);
        case _ => response := Read(remote, req);
      }
    }

    /** The requests that change nothing. */
    method Read(remote: Endpoint, req: Request) returns (response: Response)
      requires Valid() && remote in store.ids
      requires req.Get? || req.List? || req.ListIdentities? || req.ListGroups? || req.GroupAcl? || req.ListIdentityNames?
      ensures Decide(store.State(), remote, req) == Decision(NoTx, response)
    {
      var db := store.State();
      var implicit := store.ids[remote].serviceAdmin;
      match req {
        case Get(g, n) => response := ReadSecret(db, remote, g, n, Operational, op, implicit);
        case List(g) => response := ListSecrets(db, remote, g, implicit);
        case ListIdentities => response := AnswerIdentities(db, remote);
        case ListGroups => response := AnswerGroups(db, remote);
        case GroupAcl(g) => response := ListAcl(db, remote, g, implicit);
        case ListIdentityNames(g) => response := ListNames(db, remote, g, implicit);
      }
    }

    /** Handling a request is one step of the request machine: the tables, the
        answer, the announced groups and the audit rows are the ones it prescribes. */
    method Handle(remote: Endpoint, req: Request, ts: int) returns (response: Response, published: seq<Name>, rotated: seq<Name>)
      requires Valid() && log.Valid() && TimestampFits(ts)
      modifies store, log`rows, this`tick
      ensures Valid() && log.Valid()
      ensures Node(store.State(), tick) == After(Node(old(store.State()), old(tick)), remote, req)
      ensures response == Answer(Node(old(store.State()), old(tick)), remote, req)
      ensures Lists(published, Published(Node(old(store.State()), old(tick)), remote, req))
      ensures Lists(rotated, RotatedGroups(old(store.State()), Decide(old(store.State()), remote, req).tx))
      ensures Recorded(old(log.rows), log.rows, remote, rotated, OpName(req), TargetName(req), OutcomeName(response))
      ensures Chained(log.hash, old(log.rows)) ==> Chained(log.hash, log.rows)
    {
      response, published, rotated := Step(remote, req);
      Record(log, ts, remote, rotated, OpName(req), TargetName(req), OutcomeName(response));
    }

    /** The part of it that concerns the tables and the event channel. */
    method Step(remote: Endpoint, req: Request) returns (response: Response, published: seq<Name>, rotated: seq<Name>)
      requires Valid()
      modifies store, this`tick
      ensures Valid()
      ensures Node(store.State(), tick) == After(Node(old(store.State()), old(tick)), remote, req)
      ensures response == Answer(Node(old(store.State()), old(tick)), remote, req)
      ensures Lists(published, Published(Node(old(store.State()), old(tick)), remote, req))
      ensures Lists(rotated, RotatedGroups(old(store.State()), Decide(old(store.State()), remote, req).tx))
    {
      ghost var before := store.State();
      var scope := ScopeOfRemoval(req);
      response, rotated := Dispatch(remote, req);
      CommitKeepsValid(before, Decide(before, remote, req).tx, tick);
      tick := tick + 1;
      published := [];
      if Succeeded(response) {
        published := Enumerate(TouchedGroups(req, scope));
      }
    }

    /** The groups a removal touches, resolved while the identity still exists. */
    method ScopeOfRemoval(req: Request) returns (scope: set<Name>)
      requires UniqueNames(store.ids)
      ensures scope == RemovalScope(store.State(), req)
    {
      scope := {};
      if req.RemoveIdentityReq? {
        var target := store.IdentityByName(req.name);
        if target.Some? {
          scope := GroupsOf(store.State(), target.value);
        }
      }
    }
  }

  lemma CommitKeepsValid(db: Db, tx: Tx, tick: nat)
    requires TxOk(db, tx) && UniqueNames(db.ids) && Retained(db.groups)
    ensures UniqueNames(Commit(db, tx, tick).ids) && Retained(Commit(db, tx, tick).groups)
    ensures Commit(db, tx, tick).op == db.op && Commit(db, tx, tick).backup == db.backup
  {
    forall g | g in Commit(db, tx, tick).groups
      ensures RetainedIn(Commit(db, tx, tick).groups[g])
    {
      CommitKeepsRetained(db, tx, tick, g);
    }
  }

  lemma CommitKeepsRetained(db: Db, tx: Tx, tick: nat, g: Name)
    requires TxOk(db, tx) && g in Commit(db, tx, tick).groups
    requires g in db.groups ==> RetainedIn(db.groups[g])
    ensures RetainedIn(Commit(db, tx, tick).groups[g])
  {
  }

  // ---- a removal's rotations ----

  /** `r` drops the target's wraps and wraps a new DEK to everyone who remains. */
  ghost predicate RotatesAway(r: Rotation, groups: map<Name, Group>, op: Key, backup: Key, target: Endpoint, tick: nat) {
    && r.group in groups && r.revoked == target
    && IsWrapSet(r.wraps, op, backup, Dek(tick, r.group), Readers(groups[r.group]) - {target})
  }

  ghost predicate IsRotationPlan(
    rotations: seq<Rotation>, groups: map<Name, Group>, op: Key, backup: Key, target: Endpoint, tick: nat) {
    && (forall i, j :: 0 <= i < j < |rotations| ==> rotations[i].group != rotations[j].group)
    && (forall i :: 0 <= i < |rotations| ==> RotatesAway(rotations[i], groups, op, backup, target, tick))
    && (forall i :: 0 <= i < |rotations| ==> rotations[i].group in groups && HasRead(groups[rotations[i].group], target))
    && (forall g :: g in groups && HasRead(groups[g], target) ==> exists i :: 0 <= i < |rotations| && rotations[i].group == g)
  }

  lemma {:induction false} RotateAllOnce(groups: map<Name, Group>, rotations: seq<Rotation>, i: nat)
    requires AllIn(groups, rotations) && i < |rotations|
    requires forall j, k :: 0 <= j < k < |rotations| ==> rotations[j].group != rotations[k].group
    ensures RotateAll(groups, rotations)[rotations[i].group] == RotateOne(groups[rotations[i].group], rotations[i])
  {
    var front := rotations[..|rotations| - 1];
    if i == |front| {
      RotateAllAt(groups, front, rotations[i].group);
    } else {
      RotateAllOnce(groups, front, i);
    }
  }

  lemma RotatedIsRemoved(groups: map<Name, Group>, op: Key, backup: Key, target: Endpoint, r: Rotation, tick: nat)
    requires RotatesAway(r, groups, op, backup, target, tick) && HasRead(groups[r.group], target)
    requires forall k :: k in groups[r.group].wraps ==> k.0 in groups[r.group].deks
    ensures RotateOne(groups[r.group].(acl := groups[r.group].acl - {target}), r)
         == RemoveFrom(op, backup, groups[r.group], target, Dek(tick, r.group))
    ensures r.wraps != [] && NoClash(groups[r.group].wraps, NextVersion(groups[r.group].deks), r.wraps)
  {
    var grp := groups[r.group];
    var readers := Readers(grp) - {target};
    InsertedIsRotate(grp, r.wraps, op, backup, Dek(tick, r.group), readers);
    InsertedIsRotate(grp.(acl := grp.acl - {target}, wraps := DropWraps(grp.wraps, target)),
                     r.wraps, op, backup, Dek(tick, r.group), readers);
  }

  lemma PlanClashFree(groups: map<Name, Group>, op: Key, backup: Key, target: Endpoint, rotations: seq<Rotation>, tick: nat)
    requires IsRotationPlan(rotations, groups, op, backup, target, tick) && Retained(groups)
    ensures AllIn(groups, rotations) && ClashFree(groups, rotations)
  {
    forall i | 0 <= i < |rotations|
      ensures rotations[i].wraps != []
      ensures NoClash(groups[rotations[i].group].wraps, NextVersion(groups[rotations[i].group].deks), rotations[i].wraps)
    {
      RotatedIsRemoved(groups, op, backup, target, rotations[i], tick);
    }
  }

  /** Carrying out the plan on the cascaded tables is the removal. */
  lemma PlanRemoves(groups: map<Name, Group>, op: Key, backup: Key, target: Endpoint, rotations: seq<Rotation>, tick: nat)
    requires IsRotationPlan(rotations, groups, op, backup, target, tick) && Retained(groups)
    ensures AllIn(Cascade(groups, target), rotations)
    ensures RotateAll(Cascade(groups, target), rotations)
         == map g | g in groups :: RemoveFrom(op, backup, groups[g], target, Dek(tick, g))
  {
    assert AllIn(Cascade(groups, target), rotations);
    var r := RotateAll(Cascade(groups, target), rotations);
    forall g | g in groups
      ensures r[g] == RemoveFrom(op, backup, groups[g], target, Dek(tick, g))
    {
      PlanRemovesAt(groups, op, backup, target, rotations, tick, g);
    }
  }

  lemma PlanRemovesAt(
    groups: map<Name, Group>, op: Key, backup: Key, target: Endpoint, rotations: seq<Rotation>, tick: nat, g: Name)
    requires IsRotationPlan(rotations, groups, op, backup, target, tick) && Retained(groups) && g in groups
    requires AllIn(Cascade(groups, target), rotations)
    ensures RotateAll(Cascade(groups, target), rotations)[g] == RemoveFrom(op, backup, groups[g], target, Dek(tick, g))
  {
    if HasRead(groups[g], target) {
      var i :| 0 <= i < |rotations| && rotations[i].group == g;
      RotateAllOnce(Cascade(groups, target), rotations, i);
      RotatedIsRemoved(groups, op, backup, target, rotations[i], tick);
    } else {
      RotateAllAt(Cascade(groups, target), rotations, g);
    }
  }
}
