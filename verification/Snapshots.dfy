/** Reading one group's manifest: what the server sends is a snapshot of
    exactly what a replica mirrors. */
module Snapshots {
  import opened Base
  import opened Crypto
  import opened Tables
  import opened Notification
  import opened Mirror
  import opened Storage
  import opened Server

  method ListAclRows(db: Db, grp: Group) returns (acl: seq<AclEntry>)
    requires grp.acl.Keys <= db.ids.Keys
    ensures ListsAcl(acl, AclRows(db, grp))
  {
    acl := [];
    var holders := Enumerate(grp.acl.Keys);
    for i := 0 to |holders|
      invariant |acl| == i
      invariant forall k :: 0 <= k < i ==>
                  && holders[k] in grp.acl
                  && acl[k] == AclEntry(db.ids[holders[k]].name, holders[k], grp.acl[holders[k]])
    {
      var e := holders[i];
      assert e in grp.acl.Keys;
      acl := acl + [AclEntry(db.ids[e].name, e, grp.acl[e])];
    }
    forall e | e in AclRows(db, grp)
      ensures EndpointIn(acl, e)
    {
      assert e in grp.acl.Keys;
      var i :| 0 <= i < |holders| && holders[i] == e;
      assert acl[i].endpoint == e;
    }
  }

  /** The caller's own wraps; a version without one is omitted. */
  method ListOwnWraps(grp: Group, own: Endpoint) returns (deks: seq<DekEntry>)
    requires RetainedIn(grp)
    ensures ListsDeks(deks, OwnWraps(grp, own))
  {
    deks := [];
    var versions := Enumerate(grp.deks);
    for i := 0 to |versions|
      invariant forall k :: 0 <= k < |deks| ==>
                  (deks[k].version, Reader(own)) in grp.wraps && deks[k].wrapped == grp.wraps[(deks[k].version, Reader(own))]
      invariant forall j :: 0 <= j < i && (versions[j], Reader(own)) in grp.wraps ==> versions[j] in Versions(deks)
    {
      var v := versions[i];
      if (v, Reader(own)) in grp.wraps {
        ghost var shorter := deks;
        deks := deks + [DekEntry(v, grp.wraps[(v, Reader(own))])];
        VersionsOfLonger(shorter, deks[|shorter|]);
      }
    }
    forall v | v in OwnWraps(grp, own)
      ensures v in Versions(deks)
    {
      assert (v, Reader(own)) in grp.wraps;
      assert v in grp.deks;
      var j :| 0 <= j < |versions| && versions[j] == v;
    }
    assert Versions(deks) == OwnWraps(grp, own).Keys;
  }

  method ListCurrent(grp: Group) returns (entries: seq<SecretEntry>)
    ensures ListsSecrets(entries, CurrentRows(grp))
  {
    entries := [];
    var rows := CurrentRows(grp);
    var names := Enumerate(rows.Keys);
    for i := 0 to |names|
      invariant |entries| == i
      invariant forall k :: 0 <= k < i ==>
                  && names[k] in rows
                  && entries[k] == SecretEntry(names[k], rows[names[k]].version, rows[names[k]].row.dekVersion, rows[names[k]].row.nonce)
    {
      var n := names[i];
      assert n in rows.Keys;
      entries := entries + [SecretEntry(n, rows[n].version, rows[n].row.dekVersion, rows[n].row.nonce)];
    }
    forall n | n in rows
      ensures n in Listed(entries)
    {
      assert n in rows.Keys;
      var i :| 0 <= i < |names| && names[i] == n;
      assert entries[i].name == n;
    }
    assert Listed(entries) == rows.Keys;
  }

  method SnapshotGroup(db: Db, group: Name, remote: Endpoint) returns (st: GroupState)
    requires group in db.groups && db.groups[group].acl.Keys <= db.ids.Keys && RetainedIn(db.groups[group])
    ensures st.name == group && Snapshot(st, ViewOf(db, db.groups[group], remote))
  {
    var grp := db.groups[group];
    var acl := ListAclRows(db, grp);
    var deks := ListOwnWraps(grp, remote);
    var secrets := ListCurrent(grp);
    st := GroupState(group, acl, deks, secrets);
  }
}
