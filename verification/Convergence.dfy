/** Applying a snapshot makes the mirrored group equal upstream's, and leaves compatible groups alone. */
module Convergence {
  import opened Base
  import opened Crypto
  import opened Tables
  import opened Notification
  import opened Mirror

  /** Referential integrity and completeness of a mirror. */
  ghost predicate RefsOk(db: Db) {
    forall g :: g in db.groups ==> db.groups[g].acl.Keys <= db.ids.Keys
  }

  ghost predicate RowsPresent(grp: Group) {
    forall n :: n in grp.secrets ==> grp.secrets[n].current in grp.secrets[n].versions
  }

  ghost predicate MirrorOk(db: Db) {
    && RefsOk(db)
    && UniqueNames(db.ids)
    && forall g :: g in db.groups ==> RowsPresent(db.groups[g])
  }

  // ---- identity rows ----

  /** An entry and a set of ACL rows could come from one identity table. */
  ghost predicate Compatible(entry: AclEntry, rows: map<Endpoint, (Name, Perms)>) {
    forall e :: e in rows ==> (entry.endpoint == e <==> entry.name == rows[e].0)
  }

  ghost predicate AllCompatible(acl: seq<AclEntry>, rows: map<Endpoint, (Name, Perms)>) {
    forall i :: 0 <= i < |acl| ==> Compatible(acl[i], rows)
  }

  lemma UpsertKeepsInvariants(db: Db, entry: AclEntry)
    requires RefsOk(db) && UniqueNames(db.ids)
    ensures RefsOk(Upsert(db, entry)) && UniqueNames(Upsert(db, entry).ids)
  {
  }

  /** A compatible entry neither deletes nor renames the identities of a group. */
  lemma UpsertKeepsRows(db: Db, entry: AclEntry, g: Name)
    requires g in db.groups && db.groups[g].acl.Keys <= db.ids.Keys
    requires Compatible(entry, AclRows(db, db.groups[g]))
    ensures Upsert(db, entry).groups[g] == db.groups[g]
    ensures AclRows(Upsert(db, entry), db.groups[g]) == AclRows(db, db.groups[g])
    ensures db.groups[g].acl.Keys <= Upsert(db, entry).ids.Keys
  {
    var rows := AclRows(db, db.groups[g]);
    assert forall e :: e in db.groups[g].acl ==> e in rows && rows[e].0 == db.ids[e].name;
    var stale := StaleHolders(db.ids, entry);
    assert forall e :: e in db.groups[g].acl ==> e !in stale;
    assert db.groups[g].acl - stale == db.groups[g].acl;
  }

  lemma {:induction false} UpsertAllKeepsRows(db: Db, acl: seq<AclEntry>, g: Name)
    requires g in db.groups && db.groups[g].acl.Keys <= db.ids.Keys
    requires AllCompatible(acl, AclRows(db, db.groups[g]))
    ensures g in UpsertAll(db, acl).groups && UpsertAll(db, acl).groups[g] == db.groups[g]
    ensures AclRows(UpsertAll(db, acl), db.groups[g]) == AclRows(db, db.groups[g])
    decreases |acl|
  {
    if acl != [] {
      UpsertKeepsRows(db, acl[0], g);
      assert forall i :: 0 <= i < |acl[1..]| ==> acl[1..][i] == acl[i + 1];
      UpsertAllKeepsRows(Upsert(db, acl[0]), acl[1..], g);
    }
  }

  lemma {:induction false} UpsertAllGroups(db: Db, acl: seq<AclEntry>)
    ensures UpsertAll(db, acl).groups.Keys == db.groups.Keys
    ensures forall g :: g in db.groups ==>
              && UpsertAll(db, acl).groups[g].secrets == db.groups[g].secrets
              && UpsertAll(db, acl).groups[g].wraps == db.groups[g].wraps
    decreases |acl|
  {
    if acl != [] {
      UpsertAllGroups(Upsert(db, acl[0]), acl[1..]);
    }
  }

  /** The identity row of `e` carries `name`. */
  ghost predicate Bound(ids: map<Endpoint, Identity>, e: Endpoint, name: Name) {
    e in ids && ids[e] == Identity(name, false)
  }

  ghost predicate AllBound(ids: map<Endpoint, Identity>, acl: seq<AclEntry>) {
    forall i :: 0 <= i < |acl| ==> Bound(ids, acl[i].endpoint, acl[i].name)
  }

  lemma {:induction false} UpsertAllKeepsBound(db: Db, acl: seq<AclEntry>, e: Endpoint, name: Name)
    requires Bound(db.ids, e, name)
    requires forall i :: 0 <= i < |acl| ==> (acl[i].endpoint == e <==> acl[i].name == name)
    ensures Bound(UpsertAll(db, acl).ids, e, name)
    decreases |acl|
  {
    if acl != [] {
      assert acl[0].endpoint == e <==> acl[0].name == name;
      assert Bound(Upsert(db, acl[0]).ids, e, name);
      assert forall i :: 0 <= i < |acl[1..]| ==> acl[1..][i] == acl[i + 1];
      UpsertAllKeepsBound(Upsert(db, acl[0]), acl[1..], e, name);
    }
  }

  /** Rule 1 over a collision-free list binds every endpoint to its name, so
      rule 2 finds an identity row for every entry. */
  lemma {:induction false} UpsertAllBinds(db: Db, acl: seq<AclEntry>, i: nat)
    requires CollisionFree(acl) && i < |acl|
    ensures Bound(UpsertAll(db, acl).ids, acl[i].endpoint, acl[i].name)
    decreases |acl|
  {
    var db1 := Upsert(db, acl[0]);
    assert forall j :: 0 <= j < |acl[1..]| ==> acl[1..][j] == acl[j + 1];
    if i == 0 {
      UpsertAllKeepsBound(db1, acl[1..], acl[0].endpoint, acl[0].name);
    } else {
      UpsertAllBinds(db1, acl[1..], i - 1);
    }
  }

  lemma {:induction false} UpsertAllKeepsInvariants(db: Db, acl: seq<AclEntry>)
    requires RefsOk(db) && UniqueNames(db.ids)
    ensures RefsOk(UpsertAll(db, acl)) && UniqueNames(UpsertAll(db, acl).ids)
    decreases |acl|
  {
    if acl != [] {
      UpsertKeepsInvariants(db, acl[0]);
      UpsertAllKeepsInvariants(Upsert(db, acl[0]), acl[1..]);
    }
  }

  lemma {:induction false} AclMapSpec(acl: seq<AclEntry>)
    ensures forall e :: e in AclMap(acl) <==> EndpointIn(acl, e)
    ensures (forall i, j :: 0 <= i < j < |acl| ==> acl[i].endpoint != acl[j].endpoint) ==>
              forall i :: 0 <= i < |acl| ==> acl[i].endpoint in AclMap(acl) && AclMap(acl)[acl[i].endpoint] == acl[i].perms
  {
    if acl != [] {
      var front := acl[..|acl| - 1];
      AclMapSpec(front);
      forall e
        ensures e in AclMap(acl) <==> EndpointIn(acl, e)
      {
        if EndpointIn(front, e) {
          var i :| 0 <= i < |front| && front[i].endpoint == e;
          assert acl[i].endpoint == e;
        }
        if e == acl[|acl| - 1].endpoint {
          assert EndpointIn(acl, e);
        }
        if i :| 0 <= i < |acl| && acl[i].endpoint == e && i < |acl| - 1 {
          assert front[i].endpoint == e;
        }
      }
      assert forall i :: 0 <= i < |front| ==> front[i] == acl[i];
    }
  }

  /** For any input ACL and any local identities, the apply succeeds: every
      kept entry finds its identity row under its own name, names stay unique
      and no ACL row dangles. */
  lemma ApplyNeverWedges(db: Db, own: Endpoint, st: GroupState, fetched: seq<Fetched>)
    requires RefsOk(db) && UniqueNames(db.ids)
    ensures var db', acl := ApplySync(db, own, st, fetched), EffectiveAcl(st.acl);
            RefsOk(db') && UniqueNames(db'.ids) && AllBound(db'.ids, acl)
  {
    var acl := EffectiveAcl(st.acl);
    EffectiveCollisionFree(st.acl);
    UpsertAllKeepsInvariants(db, acl);
    forall i | 0 <= i < |acl|
      ensures Bound(UpsertAll(db, acl).ids, acl[i].endpoint, acl[i].name)
    {
      UpsertAllBinds(db, acl, i);
    }
    AclMapSpec(acl);
  }

  // ---- the applied group ----

  lemma ListedIsCollisionFree(acl: seq<AclEntry>, rows: map<Endpoint, (Name, Perms)>)
    requires ListsAcl(acl, rows) && NamesDistinct(rows)
    ensures CollisionFree(acl) && EffectiveAcl(acl) == acl
  {
    forall i, j | 0 <= i < j < |acl|
      ensures acl[i].name != acl[j].name && acl[i].endpoint != acl[j].endpoint
    {
      assert rows[acl[i].endpoint] == (acl[i].name, acl[i].perms) && rows[acl[j].endpoint] == (acl[j].name, acl[j].perms);
    }
    EffectiveOfCollisionFree(acl);
  }

  /** A snapshot's ACL is mirrored exactly, names included. */
  lemma ApplyMirrorsAcl(db: Db, own: Endpoint, st: GroupState, fetched: seq<Fetched>, rows: map<Endpoint, (Name, Perms)>)
    requires ListsAcl(st.acl, rows) && NamesDistinct(rows)
    ensures var db' := ApplySync(db, own, st, fetched);
            AclRows(db', db'.groups[st.name]) == rows
  {
    ListedIsCollisionFree(st.acl, rows);
    forall i | 0 <= i < |st.acl|
      ensures Bound(UpsertAll(db, st.acl).ids, st.acl[i].endpoint, st.acl[i].name)
    {
      UpsertAllBinds(db, st.acl, i);
    }
    var db' := ApplySync(db, own, st, fetched);
    RowsOfListing(db', db'.groups[st.name], st.acl, rows);
  }

  lemma RowsOfListing(db: Db, grp: Group, acl: seq<AclEntry>, rows: map<Endpoint, (Name, Perms)>)
    requires ListsAcl(acl, rows) && grp.acl == AclMap(acl)
    requires forall i :: 0 <= i < |acl| ==> Bound(db.ids, acl[i].endpoint, acl[i].name)
    ensures AclRows(db, grp) == rows
  {
    AclMapSpec(acl);
    assert forall e :: e in grp.acl <==> e in rows;
    forall e | e in rows
      ensures e in db.ids && (db.ids[e].name, grp.acl[e]) == rows[e]
    {
      var i :| 0 <= i < |acl| && acl[i].endpoint == e;
      assert Bound(db.ids, acl[i].endpoint, acl[i].name);
    }
  }

  lemma {:induction false} WrapMapSpec(own: Endpoint, deks: seq<DekEntry>)
    ensures forall k :: k in WrapMap(own, deks) <==> k.1 == Reader(own) && k.0 in Versions(deks)
    ensures forall v: nat :: v in Versions(deks) ==>
              (v, Reader(own)) in WrapMap(own, deks) && DekEntry(v, WrapMap(own, deks)[(v, Reader(own))]) in deks
  {
    if deks != [] {
      var front, last := deks[..|deks| - 1], deks[|deks| - 1];
      WrapMapSpec(own, front);
      assert deks == front + [last];
      VersionsOfLonger(front, last);
    }
  }

  lemma ApplyMirrorsWraps(own: Endpoint, grp: Group, st: GroupState, fetched: seq<Fetched>, wraps: map<nat, Wrap>)
    requires ListsDeks(st.deks, wraps)
    ensures OwnWraps(AppliedGroup(own, grp, st, fetched), own) == wraps
  {
    WrapMapSpec(own, st.deks);
    var w := WrapMap(own, st.deks);
    var o := OwnWraps(AppliedGroup(own, grp, st, fetched), own);
    forall v: nat
      ensures v in o <==> v in wraps
      ensures v in wraps ==> o[v] == wraps[v]
    {
      if v in wraps {
        var k := (v, Reader(own));
        assert k in w && DekEntry(v, w[k]) in st.deks;
      }
    }
  }

  // ---- secrets ----

  lemma {:induction false} StoreFetchedSpec(secrets: map<Name, Secret>, fetched: seq<Fetched>, n: Name)
    ensures n in StoreFetched(secrets, fetched) <==> n in secrets || exists i :: 0 <= i < |fetched| && fetched[i].name == n
    ensures (forall i :: 0 <= i < |fetched| ==> fetched[i].name != n) ==>
              (n in secrets ==> n in StoreFetched(secrets, fetched) && StoreFetched(secrets, fetched)[n] == secrets[n])
    ensures (exists i :: 0 <= i < |fetched| && fetched[i].name == n) ==>
              exists i :: 0 <= i < |fetched| && fetched[i].name == n && StoreFetched(secrets, fetched)[n] == Single(fetched[i].cur)
  {
    if fetched != [] {
      var front, k := fetched[..|fetched| - 1], |fetched| - 1;
      StoreFetchedSpec(secrets, front, n);
      assert forall i :: 0 <= i < k ==> front[i] == fetched[i];
      if fetched[k].name == n {
        assert StoreFetched(secrets, fetched)[n] == Single(fetched[k].cur);
      } else if i :| 0 <= i < |front| && front[i].name == n && StoreFetched(secrets, front)[n] == Single(front[i].cur) {
        assert fetched[i].name == n && StoreFetched(secrets, fetched)[n] == Single(fetched[i].cur);
      }
    }
  }

  lemma {:induction false} NeedFetchSpec(grp: Group, entries: seq<SecretEntry>, n: Name)
    ensures n in NeedFetch(grp, entries) <==> exists i :: 0 <= i < |entries| && entries[i].name == n && !Matches(grp, entries[i])
  {
    if entries != [] {
      var front, k := entries[..|entries| - 1], |entries| - 1;
      NeedFetchSpec(grp, front, n);
      assert forall i :: 0 <= i < k ==> front[i] == entries[i];
      if n in NeedFetch(grp, front) {
        var i :| 0 <= i < |front| && front[i].name == n && !Matches(grp, front[i]);
        assert entries[i].name == n && !Matches(grp, entries[i]);
      }
    }
  }

  /** The rows fetched are the view's rows of the names asked for. */
  ghost predicate FetchedFrom(fetched: seq<Fetched>, names: seq<Name>, secrets: map<Name, Current>) {
    && |fetched| == |names|
    && forall i :: 0 <= i < |names| ==> names[i] in secrets && fetched[i] == Fetched(names[i], secrets[names[i]])
  }

  /** Rows of the same secret with the same nonce are the same row. */
  ghost predicate NonceCoherent(local: map<Name, Current>, secrets: map<Name, Current>) {
    forall n :: n in local && n in secrets && local[n].row.nonce == secrets[n].row.nonce ==> local[n] == secrets[n]
  }

  lemma AppliedSecret(grp: Group, own: Endpoint, st: GroupState, fetched: seq<Fetched>, secrets: map<Name, Current>, n: Name)
    requires ListsSecrets(st.secrets, secrets) && RowsPresent(grp)
    requires NonceCoherent(CurrentRows(grp), secrets)
    requires FetchedFrom(fetched, NeedFetch(grp, st.secrets), secrets)
    requires n in secrets
    ensures var r := AppliedGroup(own, grp, st, fetched);
            n in r.secrets && CurrentOf(r, n) == Some(secrets[n])
  {
    var names := NeedFetch(grp, st.secrets);
    NeedFetchSpec(grp, st.secrets, n);
    assert n in Listed(st.secrets);
    if n in names {
      FetchedSecret(grp, fetched, names, secrets, n);
    } else {
      var i :| 0 <= i < |st.secrets| && st.secrets[i].name == n;
      assert Matches(grp, st.secrets[i]);
      assert n in CurrentRows(grp) && CurrentRows(grp)[n] == secrets[n];
      KeptSecret(grp, fetched, names, secrets, n);
    }
  }

  lemma FetchedSecret(grp: Group, fetched: seq<Fetched>, names: seq<Name>, secrets: map<Name, Current>, n: Name)
    requires FetchedFrom(fetched, names, secrets) && n in names && n in secrets
    ensures n in StoreFetched(grp.secrets, fetched) && StoreFetched(grp.secrets, fetched)[n] == Single(secrets[n])
  {
    StoreFetchedSpec(grp.secrets, fetched, n);
    var j :| 0 <= j < |names| && names[j] == n;
    assert fetched[j].name == n;
  }

  lemma KeptSecret(grp: Group, fetched: seq<Fetched>, names: seq<Name>, secrets: map<Name, Current>, n: Name)
    requires FetchedFrom(fetched, names, secrets) && n !in names && n in grp.secrets
    ensures n in StoreFetched(grp.secrets, fetched) && StoreFetched(grp.secrets, fetched)[n] == grp.secrets[n]
  {
    StoreFetchedSpec(grp.secrets, fetched, n);
    assert forall j :: 0 <= j < |fetched| ==> fetched[j].name == names[j];
    assert forall j :: 0 <= j < |fetched| ==> fetched[j].name in names;
  }

  /** Fetching only what the diff lists gives the same secrets as a full copy. */
  lemma ApplyMirrorsSecrets(grp: Group, own: Endpoint, st: GroupState, fetched: seq<Fetched>, secrets: map<Name, Current>)
    requires ListsSecrets(st.secrets, secrets) && RowsPresent(grp)
    requires NonceCoherent(CurrentRows(grp), secrets)
    requires FetchedFrom(fetched, NeedFetch(grp, st.secrets), secrets)
    ensures CurrentRows(AppliedGroup(own, grp, st, fetched)) == secrets
  {
    var r := AppliedGroup(own, grp, st, fetched);
    forall n | n in secrets
      ensures n in r.secrets && CurrentOf(r, n) == Some(secrets[n])
    {
      AppliedSecret(grp, own, st, fetched, secrets, n);
    }
    assert forall n :: n in r.secrets ==> n in Listed(st.secrets);
  }

  /** The diff is as good as a full copy: applying a snapshot with just the
      rows its fetch list names makes the mirrored group equal the view. */
  lemma ApplyConverges(db: Db, own: Endpoint, st: GroupState, fetched: seq<Fetched>, view: GroupView)
    requires Snapshot(st, view) && NamesDistinct(view.rows)
    requires RowsPresent(LocalGroup(db, st.name))
    requires NonceCoherent(CurrentRows(LocalGroup(db, st.name)), view.secrets)
    requires FetchedFrom(fetched, NeedFetch(LocalGroup(db, st.name), st.secrets), view.secrets)
    ensures var db' := ApplySync(db, own, st, fetched);
            ViewOf(db', db'.groups[st.name], own) == view
  {
    ApplyMirrorsAcl(db, own, st, fetched, view.rows);
    ApplyMirrorsWraps(own, LocalGroup(db, st.name), st, fetched, view.wraps);
    ApplyMirrorsSecrets(LocalGroup(db, st.name), own, st, fetched, view.secrets);
  }

  /** Applying one group leaves the view of every compatible other group alone. */
  lemma ApplyLeavesOthers(db: Db, own: Endpoint, st: GroupState, fetched: seq<Fetched>, g: Name)
    requires g in db.groups && g != st.name && RefsOk(db)
    requires AllCompatible(st.acl, AclRows(db, db.groups[g]))
    ensures var db' := ApplySync(db, own, st, fetched);
            && g in db'.groups && db'.groups[g] == db.groups[g]
            && ViewOf(db', db'.groups[g], own) == ViewOf(db, db.groups[g], own)
  {
    var acl := EffectiveAcl(st.acl);
    forall i | 0 <= i < |acl|
      ensures Compatible(acl[i], AclRows(db, db.groups[g]))
    {
      var j :| 0 <= j < |st.acl| && st.acl[j] == acl[i];
    }
    UpsertAllKeepsRows(db, acl, g);
  }

  lemma ApplyKeepsMirrorOk(db: Db, own: Endpoint, st: GroupState, fetched: seq<Fetched>)
    requires MirrorOk(db)
    ensures MirrorOk(ApplySync(db, own, st, fetched))
  {
    ApplyNeverWedges(db, own, st, fetched);
    UpsertAllGroups(db, EffectiveAcl(st.acl));
    var grp, r := LocalGroup(db, st.name), AppliedGroup(own, LocalGroup(db, st.name), st, fetched);
    forall n | n in r.secrets
      ensures r.secrets[n].current in r.secrets[n].versions
    {
      StoreFetchedSpec(grp.secrets, fetched, n);
    }
    var db' := ApplySync(db, own, st, fetched);
    forall g | g in db'.groups
      ensures RowsPresent(db'.groups[g])
    {
      if g != st.name {
        assert db'.groups[g].secrets == db.groups[g].secrets;
      }
    }
  }

  lemma DropKeepsMirrorOk(db: Db, g: Name)
    requires MirrorOk(db)
    ensures MirrorOk(DropGroup(db, g)) && MirrorOk(SweepIdentities(db))
  {
    var s := SweepIdentities(db);
    forall h | h in s.groups
      ensures s.groups[h].acl.Keys <= s.ids.Keys
    {
      forall e | e in s.groups[h].acl
        ensures e in s.ids
      {
        assert Referenced(db, e);
      }
    }
  }

  /** Sweeping unreferenced identities changes no group's view. */
  lemma SweepKeepsViews(db: Db, own: Endpoint, g: Name)
    requires g in db.groups
    ensures ViewOf(SweepIdentities(db), db.groups[g], own) == ViewOf(db, db.groups[g], own)
  {
    var s := SweepIdentities(db);
    forall e | e in db.groups[g].acl && e in db.ids
      ensures e in s.ids && s.ids[e] == db.ids[e]
    {
      assert Referenced(db, e);
    }
  }

  // ---- what an apply leaves, row by row ----

  /** Every secret whose current row changed can be opened through a wrap the
      replica now holds: rows without one were withheld. */
  ghost predicate ChangedRowsOpen(before: Group, after: Group, own: Endpoint) {
    forall n :: CurrentOf(after, n).Some? && CurrentOf(after, n) != CurrentOf(before, n) ==>
      (CurrentOf(after, n).value.row.dekVersion, Reader(own)) in after.wraps
  }

  lemma WithheldUntilWrapped(db: Db, own: Endpoint, st: GroupState, fetched: seq<Fetched>)
    ensures var db' := ApplySync(db, own, st, Decryptable(fetched, st.deks));
            ChangedRowsOpen(LocalGroup(db, st.name), db'.groups[st.name], own)
  {
    var kept := Decryptable(fetched, st.deks);
    var before, after := LocalGroup(db, st.name), ApplySync(db, own, st, kept).groups[st.name];
    forall n | CurrentOf(after, n).Some? && CurrentOf(after, n) != CurrentOf(before, n)
      ensures (CurrentOf(after, n).value.row.dekVersion, Reader(own)) in after.wraps
    {
      ChangedRowOpens(before, own, st, fetched, n);
    }
  }

  lemma {:induction false} KeptIsCarried(fetched: seq<Fetched>, deks: seq<DekEntry>, i: nat)
    requires i < |Decryptable(fetched, deks)|
    ensures CarriesDek(deks, Decryptable(fetched, deks)[i].cur.row.dekVersion)
  {
    if i < |Decryptable(fetched[..|fetched| - 1], deks)| {
      KeptIsCarried(fetched[..|fetched| - 1], deks, i);
    }
  }

  lemma ChangedRowOpens(before: Group, own: Endpoint, st: GroupState, fetched: seq<Fetched>, n: Name)
    requires var after := AppliedGroup(own, before, st, Decryptable(fetched, st.deks));
             CurrentOf(after, n).Some? && CurrentOf(after, n) != CurrentOf(before, n)
    ensures var after := AppliedGroup(own, before, st, Decryptable(fetched, st.deks));
            (CurrentOf(after, n).value.row.dekVersion, Reader(own)) in after.wraps
  {
    var kept := Decryptable(fetched, st.deks);
    StoreFetchedSpec(before.secrets, kept, n);
    var i :| 0 <= i < |kept| && kept[i].name == n && StoreFetched(before.secrets, kept)[n] == Single(kept[i].cur);
    KeptIsCarried(fetched, st.deks, i);
    WrapMapSpec(own, st.deks);
    assert kept[i].cur.row.dekVersion in Versions(st.deks);
  }

  /** Rows are withheld exactly when some fetched row's DEK version is not
      carried by the state. */
  lemma WithholdsIff(fetched: seq<Fetched>, deks: seq<DekEntry>)
    ensures |Decryptable(fetched, deks)| != |fetched| <==>
              exists k :: 0 <= k < |fetched| && !CarriesDek(deks, fetched[k].cur.row.dekVersion)
  {
    if k: nat :| k < |fetched| && !CarriesDek(deks, fetched[k].cur.row.dekVersion) {
      Withheld(fetched, deks, k);
    } else {
      forall k | 0 <= k < |fetched|
        ensures fetched[k].cur.row.dekVersion in Versions(deks)
      {
        assert CarriesDek(deks, fetched[k].cur.row.dekVersion);
      }
      AllDecryptable(fetched, deks);
    }
  }

  lemma {:induction false} Withheld(fetched: seq<Fetched>, deks: seq<DekEntry>, k: nat)
    requires k < |fetched| && !CarriesDek(deks, fetched[k].cur.row.dekVersion)
    ensures |Decryptable(fetched, deks)| < |fetched|
  {
    if k == |fetched| - 1 {
      assert fetched[k].cur.row.dekVersion !in Versions(deks);
    } else {
      Withheld(fetched[..|fetched| - 1], deks, k);
    }
  }

  /** An apply keeps every DEK row, adds the listed ones, and leaves a listed
      secret that was not fetched as it was. */
  lemma ApplyKeepsTheRest(db: Db, own: Endpoint, st: GroupState, fetched: seq<Fetched>, n: Name)
    ensures var before, after := LocalGroup(db, st.name), ApplySync(db, own, st, fetched).groups[st.name];
            && (forall v :: v in after.deks <==> v in before.deks || CarriesDek(st.deks, v))
            && (n in after.secrets ==> exists i :: 0 <= i < |st.secrets| && st.secrets[i].name == n)
            && ((forall i :: 0 <= i < |fetched| ==> fetched[i].name != n) && (exists i :: 0 <= i < |st.secrets| && st.secrets[i].name == n) ==>
                  (n in after.secrets <==> n in before.secrets) && (n in after.secrets ==> after.secrets[n] == before.secrets[n]))
  {
    StoreFetchedSpec(LocalGroup(db, st.name).secrets, fetched, n);
  }

  /** The local current row of an entry's name differs from the entry. */
  ghost predicate Differs(grp: Group, entry: SecretEntry) {
    !(&& entry.name in grp.secrets
      && var s := grp.secrets[entry.name];
      && s.current in s.versions && s.current == entry.version
      && s.versions[s.current].dekVersion == entry.dekVersion && s.versions[s.current].nonce == entry.nonce)
  }

  ghost predicate MarksDiffering(marked: seq<bool>, grp: Group, entries: seq<SecretEntry>) {
    |marked| == |entries| && forall k :: 0 <= k < |entries| ==> (marked[k] <==> Differs(grp, entries[k]))
  }

  function EntryNames(entries: seq<SecretEntry>): seq<Name> {
    seq(|entries|, i requires 0 <= i < |entries| => entries[i].name)
  }

  /** The fetch list is, in order, exactly the names whose row differs. */
  lemma NeedFetchRows(grp: Group, entries: seq<SecretEntry>, marked: seq<bool>)
    requires MarksDiffering(marked, grp, entries)
    ensures Chooses(NeedFetch(grp, entries), EntryNames(entries), marked)
  {
    NeedFetchFilters(grp, entries, marked);
    var at := FilteredChooses(EntryNames(entries), marked);
  }

  lemma {:induction false} NeedFetchFilters(grp: Group, entries: seq<SecretEntry>, marked: seq<bool>)
    requires MarksDiffering(marked, grp, entries)
    ensures NeedFetch(grp, entries) == Filtered(EntryNames(entries), marked)
  {
    if entries != [] {
      var n := |entries| - 1;
      NeedFetchFilters(grp, entries[..n], marked[..n]);
      assert EntryNames(entries)[..n] == EntryNames(entries[..n]);
      assert marked[n] <==> !Matches(grp, entries[n]);
    }
  }

  /** A sweep deletes exactly the identities no ACL row names. */
  lemma SweepDeletesExactly(db: Db, e: Endpoint)
    ensures var s := SweepIdentities(db);
            && s.groups == db.groups
            && (e in s.ids <==> e in db.ids && exists g :: g in db.groups && e in db.groups[g].acl)
            && (e in s.ids ==> s.ids[e] == db.ids[e])
  {
  }
}
