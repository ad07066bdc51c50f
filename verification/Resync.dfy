/** States drawn from one identity table, and the fixed point an apply reaches. */
module Resync {
  import opened Base
  import opened Crypto
  import opened Tables
  import opened Notification
  import opened Mirror
  import opened Convergence

  /** The rows name each endpoint as the identity table does. */
  ghost predicate FromTable(rows: map<Endpoint, (Name, Perms)>, table: map<Endpoint, Name>) {
    forall e :: e in rows ==> e in table && table[e] == rows[e].0
  }

  ghost predicate Injective(table: map<Endpoint, Name>) {
    forall e, f :: e in table && f in table && table[e] == table[f] ==> e == f
  }

  lemma TableCompatible(acl: seq<AclEntry>, listed: map<Endpoint, (Name, Perms)>, rows: map<Endpoint, (Name, Perms)>, table: map<Endpoint, Name>)
    requires ListsAcl(acl, listed) && FromTable(listed, table) && FromTable(rows, table) && Injective(table)
    ensures AllCompatible(acl, rows)
    ensures NamesDistinct(listed)
  {
    forall i | 0 <= i < |acl|
      ensures Compatible(acl[i], rows)
    {
      assert listed[acl[i].endpoint] == (acl[i].name, acl[i].perms);
    }
  }

  // ---- the fixed point ----

  /** After an apply of a snapshot the fetch list is empty. */
  lemma {:induction false} NothingLeftToFetch(grp: Group, entries: seq<SecretEntry>, secrets: map<Name, Current>)
    requires CurrentRows(grp) == secrets
    requires forall i :: 0 <= i < |entries| ==>
               entries[i].name in secrets
               && entries[i] == SecretEntry(entries[i].name, secrets[entries[i].name].version,
                                            secrets[entries[i].name].row.dekVersion, secrets[entries[i].name].row.nonce)
    ensures NeedFetch(grp, entries) == []
  {
    if entries != [] {
      var last := entries[|entries| - 1];
      NothingLeftToFetch(grp, entries[..|entries| - 1], secrets);
      assert CurrentRows(grp)[last.name] == CurrentOf(grp, last.name).value;
      assert Matches(grp, last);
    }
  }

  lemma {:induction false} UpsertBoundIsNoop(db: Db, acl: seq<AclEntry>)
    requires UniqueNames(db.ids) && AllBound(db.ids, acl)
    ensures UpsertAll(db, acl) == db
    decreases |acl|
  {
    if acl != [] {
      var entry := acl[0];
      assert Bound(db.ids, entry.endpoint, entry.name);
      assert StaleHolders(db.ids, entry) == {};
      assert db.ids - {} == db.ids;
      assert db.ids[entry.endpoint := Identity(entry.name, false)] == db.ids;
      assert (map g | g in db.groups :: db.groups[g].(acl := db.groups[g].acl - {})) == db.groups by {
        assert forall g :: g in db.groups ==> db.groups[g].acl - {} == db.groups[g].acl;
      }
      assert Upsert(db, entry) == db;
      UpsertBoundIsNoop(db, acl[1..]);
    }
  }

  /** Re-applying the state just applied, with nothing fetched, changes
      nothing: not one row, hence not one event. */
  lemma ReapplyIsNoop(db: Db, own: Endpoint, st: GroupState, fetched: seq<Fetched>)
    requires RefsOk(db) && UniqueNames(db.ids)
    ensures var db' := ApplySync(db, own, st, fetched);
            && ApplySync(db', own, st, []) == db'
            && Unlisted(db'.groups[st.name].secrets, st.secrets) == {}
  {
    var db' := ApplySync(db, own, st, fetched);
    ApplyNeverWedges(db, own, st, fetched);
    UpsertBoundIsNoop(db', EffectiveAcl(st.acl));
    var r := db'.groups[st.name];
    assert Unlisted(r.secrets, st.secrets) == {};
    assert r.secrets - {} == r.secrets;
    assert r.deks + Versions(st.deks) == r.deks;
    assert AppliedGroup(own, r, st, []) == r;
    assert db'.groups[st.name := r] == db'.groups;
  }

  /** The diff, end to end: applying a snapshot with the rows its fetch list
      names gives upstream's view, leaves nothing to fetch, and a second
      apply is a no-op. */
  lemma DiffReachesFixedPoint(db: Db, own: Endpoint, st: GroupState, fetched: seq<Fetched>, view: GroupView)
    requires MirrorOk(db) && Snapshot(st, view) && NamesDistinct(view.rows)
    requires NonceCoherent(CurrentRows(LocalGroup(db, st.name)), view.secrets)
    requires FetchedFrom(fetched, NeedFetch(LocalGroup(db, st.name), st.secrets), view.secrets)
    ensures var db' := ApplySync(db, own, st, fetched);
            && ViewOf(db', db'.groups[st.name], own) == view
            && NeedFetch(db'.groups[st.name], st.secrets) == []
            && ApplySync(db', own, st, []) == db'
  {
    ApplyConverges(db, own, st, fetched, view);
    var db' := ApplySync(db, own, st, fetched);
    assert ViewOf(db', db'.groups[st.name], own).secrets == CurrentRows(db'.groups[st.name]);
    NothingLeftToFetch(db'.groups[st.name], st.secrets, view.secrets);
    ReapplyIsNoop(db, own, st, fetched);
  }
}
