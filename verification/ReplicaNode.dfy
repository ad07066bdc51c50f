/**
 The replica as an object: the mirror's tables and the events it has
 published. Its methods carry out the mirror's specification step by step,
 and replaying the published events always gives the current listing.
 */
module ReplicaNode {
  import opened Base
  import opened Crypto
  import opened Tables
  import opened Mirror
  import opened Convergence
  import opened Replay
  import opened Storage

  // ---- the steps of one apply, on the transaction's own rows ----

  /** Scans backwards, keeping the first sighting of each name and endpoint. */
  method KeepLast(acl: seq<AclEntry>) returns (kept: seq<AclEntry>)
    ensures kept == EffectiveAcl(acl)
  {
    kept := [];
    var names: set<Name>, endpoints: set<Endpoint> := {}, {};
    var i := |acl|;
    while i > 0
      invariant 0 <= i <= |acl|
      invariant kept == EffectiveAcl(acl[i..])
      invariant forall n :: n in names <==> NamedIn(acl[i..], n)
      invariant forall e :: e in endpoints <==> EndpointIn(kept, e)
    {
      var tail := acl[i..];
      i := i - 1;
      var entry := acl[i];
      assert acl[i..] == [entry] + tail && acl[i..][1..] == tail;
      NamedInCons(entry, tail);
      if entry.name !in names {
        names := names + {entry.name};
        if entry.endpoint !in endpoints {
          endpoints := endpoints + {entry.endpoint};
          forall e ensures EndpointIn([entry] + kept, e) <==> e == entry.endpoint || EndpointIn(kept, e) {
            EndpointInCons(entry, kept, e);
          }
          kept := [entry] + kept;
        }
      }
    }
    assert acl[0..] == acl;
  }

  lemma NamedInCons(entry: AclEntry, rest: seq<AclEntry>)
    ensures forall n :: NamedIn([entry] + rest, n) <==> n == entry.name || NamedIn(rest, n)
  {
    var all := [entry] + rest;
    forall n
      ensures NamedIn(all, n) <==> n == entry.name || NamedIn(rest, n)
    {
      if NamedIn(rest, n) {
        var i :| 0 <= i < |rest| && rest[i].name == n;
        assert all[i + 1].name == n;
      }
      if n == entry.name {
        assert all[0].name == n;
      }
    }
  }

  /** Rule 1: deletes stale holders of each name, then upserts its row. */
  method UpsertRows(db: Db, acl: seq<AclEntry>) returns (work: Db)
    ensures work == UpsertAll(db, acl)
  {
    work := db;
    for i := 0 to |acl|
      invariant UpsertAll(db, acl) == UpsertAll(work, acl[i..])
    {
      var stale := StaleHolders(work.ids, acl[i]);
      work := work.(ids := work.ids - stale,
                    groups := map g | g in work.groups :: work.groups[g].(acl := work.groups[g].acl - stale));
      work := work.(ids := work.ids[acl[i].endpoint := Identity(acl[i].name, false)]);
      assert acl[i..][1..] == acl[i + 1..];
    }
  }

  /** Rule 2: the ACL, wholesale; an entry without an identity row aborts. */
  method AclFrom(ids: map<Endpoint, Identity>, acl: seq<AclEntry>) returns (r: Option<map<Endpoint, Perms>>)
    ensures r.Some? <==> forall i :: 0 <= i < |acl| ==> acl[i].endpoint in ids
    ensures r.Some? ==> r.value == AclMap(acl)
  {
    var rows: map<Endpoint, Perms> := map[];
    for i := 0 to |acl|
      invariant rows == AclMap(acl[..i])
      invariant forall k :: 0 <= k < i ==> acl[k].endpoint in ids
    {
      if acl[i].endpoint !in ids {
        return None;
      }
      assert acl[..i + 1][..i] == acl[..i];
      rows := rows[acl[i].endpoint := acl[i].perms];
    }
    assert acl[..|acl|] == acl;
    r := Some(rows);
  }

  /** Rule 3: upserts the listed DEK versions and own wraps, then deletes
      every wrap the state does not carry. */
  method ApplyDeks(own: Endpoint, grp: Group, entries: seq<DekEntry>)
    returns (deks: set<nat>, rows: map<(nat, Recipient), Wrap>)
    ensures deks == grp.deks + Versions(entries)
    ensures rows == WrapMap(own, entries)
  {
    deks, rows := grp.deks, grp.wraps;
    for i := 0 to |entries|
      invariant deks == grp.deks + Versions(entries[..i])
      invariant rows == grp.wraps + WrapMap(own, entries[..i])
    {
      DekStep(grp.wraps, own, entries, i);
      deks := deks + {entries[i].version};
      rows := rows[(entries[i].version, Reader(own)) := entries[i].wrapped];
    }
    assert entries[..|entries|] == entries;
    WrapMapSpec(own, entries);
    rows := DropStale(rows, own, Versions(entries));
  }

  lemma DekStep(rows: map<(nat, Recipient), Wrap>, own: Endpoint, entries: seq<DekEntry>, i: nat)
    requires i < |entries|
    ensures Versions(entries[..i + 1]) == Versions(entries[..i]) + {entries[i].version}
    ensures rows + WrapMap(own, entries[..i + 1])
         == (rows + WrapMap(own, entries[..i]))[(entries[i].version, Reader(own)) := entries[i].wrapped]
  {
    VersionsOfLonger(entries[..i], entries[i]);
    assert entries[..i + 1] == entries[..i] + [entries[i]];
    assert entries[..i + 1][..i] == entries[..i];
  }

  /** Deletes wraps of other recipients and of versions not to be kept. */
  method DropStale(rows: map<(nat, Recipient), Wrap>, own: Endpoint, keep: set<nat>) returns (left: map<(nat, Recipient), Wrap>)
    ensures left == map k | k in rows && k.1 == Reader(own) && k.0 in keep :: rows[k]
  {
    left := DeleteRows(rows, set k | k in rows && (k.1 != Reader(own) || k.0 !in keep));
  }

  method DeleteRows(rows: map<(nat, Recipient), Wrap>, stale: set<(nat, Recipient)>) returns (left: map<(nat, Recipient), Wrap>)
    ensures left == rows - stale
  {
    left := rows;
    var doomed := Enumerate(stale);
    for i := 0 to |doomed|
      invariant forall k :: k in left <==> k in rows && k !in doomed[..i]
      invariant forall k :: k in left ==> left[k] == rows[k]
    {
      assert doomed[..i + 1] == doomed[..i] + [doomed[i]];
      left := left - {doomed[i]};
    }
    assert doomed[..|doomed|] == doomed;
  }

  /** Rules 4 and 5: replaces every fetched secret, deletes the unlisted ones
      and reports both. */
  method ApplySecrets(secrets: map<Name, Secret>, st: GroupState, fetched: seq<Fetched>)
    returns (stored: map<Name, Secret>, changes: seq<Event>, removed: seq<Name>)
    ensures stored == StoreFetched(secrets, fetched) - Unlisted(StoreFetched(secrets, fetched), st.secrets)
    ensures Elements(removed) == Unlisted(StoreFetched(secrets, fetched), st.secrets)
    ensures changes == Changes(st.name, fetched) + Deletions(st.name, removed)
  {
    stored, changes := secrets, [];
    for i := 0 to |fetched|
      invariant stored == StoreFetched(secrets, fetched[..i])
      invariant changes == Changes(st.name, fetched[..i])
    {
      assert fetched[..i + 1][..i] == fetched[..i];
      stored := stored - {fetched[i].name};
      stored := stored[fetched[i].name := Single(fetched[i].cur)];
      changes := changes + [SecretChanged(st.name, fetched[i].name, fetched[i].cur.version)];
    }
    assert fetched[..|fetched|] == fetched;
    ghost var all := stored;
    var gone := Unlisted(stored, st.secrets);
    removed := Enumerate(gone);
    for i := 0 to |removed|
      invariant stored == all - Elements(removed[..i])
      invariant changes == Changes(st.name, fetched) + Deletions(st.name, removed[..i])
    {
      ElementsAppend(removed[..i + 1]);
      assert removed[..i + 1][..i] == removed[..i];
      stored := stored - {removed[i]};
      changes := changes + [SecretDeleted(st.name, removed[i])];
    }
    assert removed[..|removed|] == removed;
    assert Elements(removed) == gone;
  }

  /** Keeps the fetched rows whose DEK version the state carries a wrap for. */
  method Retain(fetched: seq<Fetched>, deks: seq<DekEntry>) returns (kept: seq<Fetched>)
    ensures kept == Decryptable(fetched, deks)
  {
    var wrapped := Versions(deks);
    kept := [];
    for i := 0 to |fetched|
      invariant kept == Decryptable(fetched[..i], deks)
    {
      assert fetched[..i + 1][..i] == fetched[..i];
      if fetched[i].cur.row.dekVersion in wrapped {
        kept := kept + [fetched[i]];
      }
    }
    assert fetched[..|fetched|] == fetched;
  }

  /** The names whose local current row differs from the listing. */
  method SecretsNeedingFetch(db: Db, st: GroupState) returns (names: seq<Name>)
    ensures names == NeedFetch(LocalGroup(db, st.name), st.secrets)
  {
    names := [];
    var grp := LocalGroup(db, st.name);
    for i := 0 to |st.secrets|
      invariant names == NeedFetch(grp, st.secrets[..i])
    {
      var entry := st.secrets[i];
      assert st.secrets[..i + 1][..i] == st.secrets[..i];
      var local := CurrentOf(grp, entry.name);
      var same :=
        && local.Some? && local.value.version == entry.version
        && local.value.row.dekVersion == entry.dekVersion && local.value.row.nonce == entry.nonce;
      if !same {
        names := names + [entry.name];
      }
    }
    assert st.secrets[..|st.secrets|] == st.secrets;
  }

  // ---- what a whole exchange does to the mirror ----

  /** The upstream node's answers while one group is synchronised: to the
      first secret fetch, to the re-fetch of the group, and to the second
      secret fetch. `None` is a denial. */
  datatype Answers = Answers(reply: Option<seq<Fetched>>, refetched: Option<GroupState>, again: Option<seq<Fetched>>)

  /** Secrets are only fetched when some are needed. */
  function FetchedFor(db: Db, st: GroupState, reply: Option<seq<Fetched>>): Option<seq<Fetched>> {
    if NeedFetch(LocalGroup(db, st.name), st.secrets) == [] then Some([]) else reply
  }

  function SyncedOne(db: Db, own: Endpoint, st: GroupState, a: Answers): Db {
    match FetchedFor(db, st, a.reply)
    case None => DropAndSweep(db, st.name)
    case Some(fetched) =>
      var db1 := ApplySync(db, own, st, Decryptable(fetched, st.deks));
      if |Decryptable(fetched, st.deks)| == |fetched| then db1
      else
        match a.refetched
        case None => DropAndSweep(db1, st.name)
        case Some(latest) =>
          match FetchedFor(db1, latest, a.again)
          case None => DropAndSweep(db1, st.name)
          case Some(more) => ApplySync(db1, own, latest, Decryptable(more, latest.deks))
  }

  function SyncedAll(db: Db, own: Endpoint, states: seq<GroupState>, answers: seq<Answers>): Db
    requires |answers| == |states|
  {
    if states == [] then db
    else
      var n := |states| - 1;
      SyncedOne(SyncedAll(db, own, states[..n], answers[..n]), own, states[n], answers[n])
  }

  /** A completed manifest: converge its groups, drop the others, sweep. */
  function Resynced(db: Db, own: Endpoint, states: seq<GroupState>, answers: seq<Answers>): Db
    requires |answers| == |states|
  {
    var synced := SyncedAll(db, own, states, answers);
    SweepIdentities(synced.(groups := synced.groups - (synced.groups.Keys - StateNames(states))))
  }

  class Replica {
    const own: Endpoint
    const store: Store
    var events: seq<Event>
    ghost const first: Listing

    /** The mirror is consistent, and a subscriber that has folded every
        event since the start holds its listing. */
    ghost predicate Valid()
      reads this, store
    {
      MirrorOk(store.State()) && NoteAll(first, events) == ListingOf(store.State())
    }

    constructor (own: Endpoint, store: Store)
      requires MirrorOk(store.State())
      ensures Valid() && this.own == own && this.store == store
    {
      this.own, this.store := own, store;
      events := [];
      first := ListingOf(store.State());
    }

    /** Converges the local mirror of one group onto `st`. The abort that a
        missing identity row would cause is never taken. */
    method ApplyGroupSync(st: GroupState, fetched: seq<Fetched>) returns (ok: bool, changes: seq<Event>, removed: seq<Name>)
      requires MirrorOk(store.State())
      modifies store
      ensures ok && store.State() == ApplySync(old(store.State()), own, st, fetched)
      ensures OpOk(old(store.State()), ApplyOp(st, fetched, removed))
      ensures changes == Changes(st.name, fetched) + Deletions(st.name, removed)
    {
      ghost var before := store.State();
      var grp := LocalGroup(store.State(), st.name);
      var acl := KeepLast(st.acl);
      var work := UpsertRows(store.State(), acl);
      ApplyNeverWedges(before, own, st, fetched);
      var rows := AclFrom(work.ids, acl);
      if rows.None? {
        return false, [], [];
      }
      var deks, wraps := ApplyDeks(own, grp, st.deks);
      var secrets;
      secrets, changes, removed := ApplySecrets(grp.secrets, st, fetched);
      store.ids := work.ids;
      store.groups := work.groups[st.name := Group(rows.value, deks, wraps, secrets)];
      UpsertKeepsKeys(before, acl);
      ok := true;
    }

    /** Appends the events of one committed change. */
    method Emit(more: seq<Event>)
      modifies this`events
      ensures events == old(events) + more
    {
      for i := 0 to |more|
        invariant events == old(events) + more[..i]
      {
        events := events + [more[i]];
      }
    }

    /** Fetches what differs, withholds what cannot be decrypted, applies and
        publishes. */
    method ApplyGroupState(st: GroupState, reply: Option<seq<Fetched>>) returns (denied: bool, skipped: bool)
      requires Valid()
      modifies store, this`events
      ensures Valid()
      ensures denied <==> FetchedFor(old(store.State()), st, reply).None?
      ensures denied ==> store.State() == old(store.State())
      ensures !denied ==>
                var fetched := FetchedFor(old(store.State()), st, reply).value;
                && store.State() == ApplySync(old(store.State()), own, st, Decryptable(fetched, st.deks))
                && skipped == (|Decryptable(fetched, st.deks)| != |fetched|)
      ensures !denied ==>
                var fetched := FetchedFor(old(store.State()), st, reply).value;
                skipped <==> exists k :: 0 <= k < |fetched| && !CarriesDek(st.deks, fetched[k].cur.row.dekVersion)
      ensures !denied ==> ChangedRowsOpen(LocalGroup(old(store.State()), st.name), LocalGroup(store.State(), st.name), own)
    {
      ghost var before := store.State();
      var needed := SecretsNeedingFetch(store.State(), st);
      var fetched: seq<Fetched> := [];
      if needed != [] {
        if reply.None? {
          return true, false;
        }
        fetched := reply.value;
      }
      var kept := Retain(fetched, st.deks);
      skipped := |kept| != |fetched|;
      ApplyAndPublish(st, kept);
      WithholdsIff(fetched, st.deks);
      WithheldUntilWrapped(before, own, st, fetched);
      denied := false;
    }

    /** Events strictly after the commit. */
    method ApplyAndPublish(st: GroupState, kept: seq<Fetched>)
      requires Valid()
      modifies store, this`events
      ensures Valid() && store.State() == ApplySync(old(store.State()), own, st, kept)
    {
      ghost var before := store.State();
      var wasAbsent := st.name !in store.groups;
      var ok, changes, removed := ApplyGroupSync(st, kept);
      if wasAbsent {
        changes := [GroupAdded(st.name)] + changes;
      }
      Emit(changes);
      Published(before, ApplyOp(st, kept, removed), old(events), changes);
      ApplyKeepsMirrorOk(before, own, st, kept);
    }

    lemma Published(before: Db, op: Op, prior: seq<Event>, more: seq<Event>)
      requires OpOk(before, op) && more == OpEvents(before, op) && NoteAll(first, prior) == ListingOf(before)
      ensures NoteAll(first, prior + more) == ListingOf(OpResult(before, own, op))
    {
      ReplayOp(before, own, op);
      NoteAllAppend(first, prior, more);
    }

    method DropLocal(g: Name)
      requires Valid()
      modifies store, this`events
      ensures Valid() && store.State() == DropGroup(old(store.State()), g)
    {
      ghost var before := store.State();
      DropKeepsMirrorOk(before, g);
      if g in store.groups {
        store.groups := store.groups - {g};
        Emit([GroupRemoved(g)]);
        Published(before, DropOp(g), old(events), [GroupRemoved(g)]);
      }
    }

    method Sweep()
      requires Valid()
      modifies store
      ensures Valid() && store.State() == SweepIdentities(old(store.State()))
    {
      ghost var before := store.State();
      DropKeepsMirrorOk(before, []);
      store.ids := map e | e in store.ids && Referenced(store.State(), e) :: store.ids[e];
    }

    method DropGroupAndGc(g: Name)
      requires Valid()
      modifies store, this`events
      ensures Valid() && store.State() == DropAndSweep(old(store.State()), g)
    {
      DropLocal(g);
      Sweep();
    }

    /** Converges one group; undecryptable entries get one re-fetch. */
    method SyncOneGroup(st: GroupState, a: Answers)
      requires Valid()
      modifies store, this`events
      ensures Valid() && store.State() == SyncedOne(old(store.State()), own, st, a)
    {
      var denied, skipped := ApplyGroupState(st, a.reply);
      if denied {
        DropGroupAndGc(st.name);
        return;
      }
      if skipped {
        if a.refetched.None? {
          DropGroupAndGc(st.name);
          return;
        }
        denied, skipped := ApplyGroupState(a.refetched.value, a.again);
        if denied {
          DropGroupAndGc(st.name);
        }
      }
    }

    /** A completed manifest: converges every group it carries, drops the
        local groups it does not, and sweeps identities. */
    method FullResync(states: seq<GroupState>, answers: seq<Answers>)
      requires Valid() && |answers| == |states|
      modifies store, this`events
      ensures Valid()
      ensures store.State() == Resynced(old(store.State()), own, states, answers)
    {
      ghost var before := store.State();
      for i := 0 to |states|
        invariant Valid() && store.State() == SyncedAll(before, own, states[..i], answers[..i])
      {
        assert states[..i + 1][..i] == states[..i] && answers[..i + 1][..i] == answers[..i];
        SyncOneGroup(states[i], answers[i]);
      }
      assert states[..|states|] == states && answers[..|answers|] == answers;
      DropAll(store.groups.Keys - StateNames(states));
      Sweep();
    }

    method DropAll(stale: set<Name>)
      requires Valid()
      modifies store, this`events
      ensures Valid() && store.State() == old(store.State()).(groups := old(store.groups) - stale)
    {
      ghost var before := store.State();
      var names := Enumerate(stale);
      for i := 0 to |names|
        invariant Valid() && store.State() == before.(groups := before.groups - Elements(names[..i]))
      {
        ElementsAppend(names[..i + 1]);
        assert names[..i + 1][..i] == names[..i];
        DropLocal(names[i]);
      }
      assert names[..|names|] == names && Elements(names) == stale;
    }
  }

  lemma {:induction false} UpsertKeepsKeys(db: Db, acl: seq<AclEntry>)
    ensures UpsertAll(db, acl).op == db.op && UpsertAll(db, acl).backup == db.backup
    decreases |acl|
  {
    if acl != [] {
      UpsertKeepsKeys(Upsert(db, acl[0]), acl[1..]);
    }
  }
}
