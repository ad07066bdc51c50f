/** How recovery and the rescue grant run, and that the sync protocol admits them. */
module Recovery {
  import opened Base
  import opened Crypto
  import opened Encoding
  import opened Tables
  import opened Transactions
  import opened Requests
  import opened Maintenance
  import opened Access
  import opened Storage
  import opened Server
  import opened Protocol

  // ---- how recovery runs ----

  type Rewrap = (Name, nat, Wrap)

  ghost predicate Targets(groups: map<Name, Group>, list: seq<Rewrap>) {
    forall i :: 0 <= i < |list| ==> list[i].0 in groups && (list[i].1, Operational) in groups[list[i].0].wraps
  }

  ghost function Updated(groups: map<Name, Group>, list: seq<Rewrap>): (r: map<Name, Group>)
    requires Targets(groups, list)
    ensures r.Keys == groups.Keys
  {
    if list == [] then groups
    else
      var done, t := Updated(groups, list[..|list| - 1]), list[|list| - 1];
      done[t.0 := done[t.0].(wraps := done[t.0].wraps[(t.1, Operational) := t.2])]
  }

  /** The entry is about this wrap row. */
  ghost predicate Sets(t: Rewrap, g: Name, k: (nat, Recipient)) {
    t.0 == g && k == (t.1, Operational)
  }

  lemma {:induction false} UpdatedAt(groups: map<Name, Group>, list: seq<Rewrap>, g: Name, k: (nat, Recipient))
    requires Targets(groups, list) && g in groups
    ensures Updated(groups, list)[g] == groups[g].(wraps := Updated(groups, list)[g].wraps)
    ensures k in Updated(groups, list)[g].wraps <==> k in groups[g].wraps
    ensures k in groups[g].wraps && (forall i :: 0 <= i < |list| ==> !Sets(list[i], g, k)) ==>
              Updated(groups, list)[g].wraps[k] == groups[g].wraps[k]
  {
    if list != [] {
      var front := list[..|list| - 1];
      UpdatedAt(groups, front, g, k);
      assert forall i :: 0 <= i < |front| ==> front[i] == list[i];
    }
  }

  /** The last entry about a row decides it. */
  lemma {:induction false} UpdatedTo(groups: map<Name, Group>, list: seq<Rewrap>, g: Name, k: (nat, Recipient), i: nat)
    requires Targets(groups, list) && g in groups && i < |list|
    requires Sets(list[i], g, k) && forall j :: i < j < |list| ==> !Sets(list[j], g, k)
    ensures k in Updated(groups, list)[g].wraps && Updated(groups, list)[g].wraps[k] == list[i].2
  {
    if i < |list| - 1 {
      var front := list[..|list| - 1];
      assert !Sets(list[|list| - 1], g, k);
      UpdatedTo(groups, front, g, k, i);
    }
  }

  lemma UpdatedNext(groups: map<Name, Group>, list: seq<Rewrap>, i: nat)
    requires i < |list| && Targets(groups, list[..i])
    requires list[i].0 in groups && (list[i].1, Operational) in groups[list[i].0].wraps
    ensures Targets(groups, list[..i + 1])
    ensures var done, t := Updated(groups, list[..i]), list[i];
            Updated(groups, list[..i + 1]) == done[t.0 := done[t.0].(wraps := done[t.0].wraps[(t.1, Operational) := t.2])]
  {
    assert list[..i + 1][..i] == list[..i];
  }

  /** Updates row by row; a row that does not exist aborts. */
  method UpdateRows(groups: map<Name, Group>, list: seq<Rewrap>) returns (r: Option<map<Name, Group>>)
    ensures r.Some? <==> Targets(groups, list)
    ensures r.Some? ==> r.value == Updated(groups, list)
  {
    var work := groups;
    for i := 0 to |list|
      invariant Targets(groups, list[..i]) && work == Updated(groups, list[..i])
    {
      var t := list[i];
      if t.0 !in work {
        return None;
      }
      UpdatedAt(groups, list[..i], t.0, (t.1, Operational));
      if (t.1, Operational) !in work[t.0].wraps {
        return None;
      }
      UpdatedNext(groups, list, i);
      work := work[t.0 := work[t.0].(wraps := work[t.0].wraps[(t.1, Operational) := t.2])];
    }
    assert list[..|list|] == list;
    r := Some(work);
  }

  /** Replaces the listed operational wraps and records the new key, all or
      nothing. */
  method ApplyRecovery(store: Store, rewrapped: seq<Rewrap>, newOp: Key) returns (ok: bool)
    modifies store
    ensures ok <==> Targets(old(store.groups), rewrapped)
    ensures store.State() == if ok then old(store.State()).(op := newOp, groups := Updated(old(store.groups), rewrapped))
                             else old(store.State())
  {
    var work := UpdateRows(store.groups, rewrapped);
    if work.None? {
      return false;
    }
    store.groups := work.value;
    store.op := newOp;
    ok := true;
  }

  /** `list` re-wraps each backup row once to the new key. */
  ghost predicate RewrapsBackups(groups: map<Name, Group>, rows: seq<(Name, nat)>, list: seq<Rewrap>, newOp: Key) {
    && |list| == |rows|
    && forall i :: 0 <= i < |list| ==>
         && rows[i].0 in groups && (rows[i].1, Backup) in groups[rows[i].0].wraps
         && list[i] == (rows[i].0, rows[i].1, Wrap(groups[rows[i].0].wraps[(rows[i].1, Backup)].dek, newOp))
  }

  lemma UpdatedIsRecovered(groups: map<Name, Group>, rows: seq<(Name, nat)>, list: seq<Rewrap>, newOp: Key)
    requires Lists(rows, BackupRows(groups)) && RewrapsBackups(groups, rows, list, newOp) && Targets(groups, list)
    ensures Updated(groups, list) == map g | g in groups :: RecoveredGroup(groups[g], newOp)
  {
    var r := Updated(groups, list);
    forall g | g in groups
      ensures r[g] == RecoveredGroup(groups[g], newOp)
    {
      forall k: (nat, Recipient)
        ensures k in r[g].wraps <==> k in groups[g].wraps
        ensures k in r[g].wraps ==> r[g].wraps[k] == RecoveredGroup(groups[g], newOp).wraps[k]
      {
        UpdatedRow(groups, rows, list, newOp, g, k);
      }
      UpdatedAt(groups, list, g, (0, Operational));
      assert r[g].wraps == RecoveredGroup(groups[g], newOp).wraps;
    }
  }

  lemma UpdatedRow(groups: map<Name, Group>, rows: seq<(Name, nat)>, list: seq<Rewrap>, newOp: Key, g: Name, k: (nat, Recipient))
    requires Lists(rows, BackupRows(groups)) && RewrapsBackups(groups, rows, list, newOp) && Targets(groups, list)
    requires g in groups
    ensures k in Updated(groups, list)[g].wraps <==> k in groups[g].wraps
    ensures k in groups[g].wraps ==> Updated(groups, list)[g].wraps[k] == RecoveredGroup(groups[g], newOp).wraps[k]
  {
    UpdatedAt(groups, list, g, k);
    assert k == (k.0, k.1);
    if k in groups[g].wraps && k.1.Operational? && (k.0, Backup) in groups[g].wraps {
      assert (g, k.0) in BackupRows(groups);
      var i :| 0 <= i < |rows| && rows[i] == (g, k.0);
      assert list[i].0 == g && list[i].1 == k.0;
      forall j | i < j < |list| ensures !Sets(list[j], g, k) {
        assert rows[j] != rows[i];
      }
      UpdatedTo(groups, list, g, k, i);
    } else if k in groups[g].wraps {
      forall i | 0 <= i < |list| ensures !Sets(list[i], g, k) {
        assert rows[i] in BackupRows(groups);
      }
    }
  }

  /** Re-wraps everything in memory first, then applies it in one transaction. */
  method Recover(store: Store, backupKey: Key, newOp: Key) returns (ok: bool)
    modifies store
    ensures ok <==> Recoverable(old(store.groups), backupKey)
    ensures store.State() == if ok then Recovered(old(store.State()), newOp) else old(store.State())
  {
    ghost var before := store.groups;
    var rows := Enumerate(BackupRows(store.groups));
    var rewrapped: seq<Rewrap> := [];
    for i := 0 to |rows|
      invariant store.State() == old(store.State())
      invariant |rewrapped| == i && RewrapsBackups(before, rows[..i], rewrapped, newOp)
      invariant forall k :: 0 <= k < i ==> rows[k].0 in before && (rows[k].1, Backup) in before[rows[k].0].wraps
                                           && Unwrap(before[rows[k].0].wraps[(rows[k].1, Backup)], backupKey).Some?
    {
      var r := rows[i];
      assert r in BackupRows(before);
      var dek := Unwrap(store.groups[r.0].wraps[(r.1, Backup)], backupKey);
      if dek.None? {
        return false;
      }
      rewrapped := rewrapped + [(r.0, r.1, Wrap(dek.value, newOp))];
    }
    assert rows[..|rows|] == rows;
    TargetsIffRows(before, rows, rewrapped, newOp);
    ok := ApplyRecovery(store, rewrapped, newOp);
    if ok {
      UpdatedIsRecovered(before, rows, rewrapped, newOp);
    }
  }

  lemma TargetsIffRows(groups: map<Name, Group>, rows: seq<(Name, nat)>, list: seq<Rewrap>, newOp: Key)
    requires Lists(rows, BackupRows(groups)) && RewrapsBackups(groups, rows, list, newOp)
    ensures Targets(groups, list) <==> forall r :: r in BackupRows(groups) ==> (r.1, Operational) in groups[r.0].wraps
  {
    if Targets(groups, list) {
      forall r | r in BackupRows(groups) ensures (r.1, Operational) in groups[r.0].wraps {
        var i :| 0 <= i < |rows| && rows[i] == r;
        assert list[i].0 == r.0 && list[i].1 == r.1;
      }
    }
    if forall r :: r in BackupRows(groups) ==> (r.1, Operational) in groups[r.0].wraps {
      forall i | 0 <= i < |list| ensures list[i].0 in groups && (list[i].1, Operational) in groups[list[i].0].wraps {
        assert rows[i] in BackupRows(groups);
      }
    }
  }

  // ---- the rescue grant ----

  /** `db grant` leaves the database in the shape a wire grant would. */
  method DbGrant(store: Store, group: Name, identity: Name, perms: Perms, key: Option<Key>, tick: nat) returns (ok: bool)
    requires UniqueNames(store.ids) && Retained(store.groups) && perms.other == 0
    modifies store
    ensures ok <==> CanGrant(old(store.State()), group, identity, perms, key)
    ensures !ok ==> store.State() == old(store.State())
    ensures ok ==> TxOk(old(store.State()), RescueTx(old(store.State()), group, identity, perms))
                   && store.State() == Commit(old(store.State()), RescueTx(old(store.State()), group, identity, perms), tick)
    ensures ok ==> WritesPerms(old(store.State()), store.State(), group, identity, perms)
  {
    ghost var before := store.State();
    if group !in store.groups {
      return false;
    }
    var target := store.IdentityByName(identity);
    if target.None? {
      return false;
    }
    var grp := store.groups[group];
    var current := PermsIn(grp, target.value);
    if !current.read && perms.read {
      if key != Some(store.op) {
        return false;
      }
      var wraps := WrapsForNewReader(grp, store.op, target.value);
      if wraps.None? {
        return false;
      }
      ReaderRows(grp, target.value, wraps.value);
      ok := store.GrantWithWraps(target.value, group, perms, wraps.value);
    } else if current.read && !perms.read {
      var dek := Dek(tick, group);
      var wraps := WrapSetForGroup(grp, store.op, store.backup, dek, Some(target.value));
      InsertedIsRotate(grp.(acl := SetAcl(grp.acl, target.value, perms), wraps := DropWraps(grp.wraps, target.value)),
                       wraps, store.op, store.backup, dek, Readers(grp) - {target.value});
      ok := store.RevokeReadAndRotate(group, target.value, perms, wraps);
    } else {
      store.SetPerms(target.value, group, perms);
      ok := true;
    }
    if ok {
      RescueWritesPerms(before, group, identity, perms, key, tick);
    }
  }

  /** A rescue grant writes exactly the permissions it names. */
  lemma RescueWritesPerms(db: Db, group: Name, identity: Name, perms: Perms, key: Option<Key>, tick: nat)
    requires CanGrant(db, group, identity, perms, key)
    ensures TxOk(db, RescueTx(db, group, identity, perms))
    ensures WritesPerms(db, Commit(db, RescueTx(db, group, identity, perms), tick), group, identity, perms)
  {
    RescueOk(db, group, identity, perms, key);
    GrantTxWrites(db, group, IdByName(db.ids, identity).value, perms, tick);
  }

  // ---- maintenance as a step of the sync protocol ----

  /** Recovery is a maintenance step the sync protocol admits: it keeps the
      invariant and every secret row. */
  lemma RecoveryIsAdmitted(s: System, newOp: Key)
    requires DbInv(s.node.db, s.node.tick)
    ensures Enabled(s, Maintain(Recovered(s.node.db, newOp)))
  {
    RecoveredLater(s.node.db, newOp, s.node.tick);
    forall g
      ensures UpRows(Recovered(s.node.db, newOp), g) == UpRows(s.node.db, g)
    {
      RecoveredRows(s.node.db, newOp, g);
    }
  }

  /** So is a rescue grant. */
  lemma RescueIsAdmitted(s: System, group: Name, identity: Name, perms: Perms, key: Option<Key>)
    requires DbInv(s.node.db, s.node.tick) && CanGrant(s.node.db, group, identity, perms, key)
    ensures TxOk(s.node.db, RescueTx(s.node.db, group, identity, perms))
    ensures Enabled(s, Maintain(Commit(s.node.db, RescueTx(s.node.db, group, identity, perms), s.node.tick)))
  {
    var tx := RescueTx(s.node.db, group, identity, perms);
    RescueOk(s.node.db, group, identity, perms, key);
    GrantIsAdmitted(s, tx);
  }

  lemma GrantIsAdmitted(s: System, tx: Tx)
    requires DbInv(s.node.db, s.node.tick) && TxOk(s.node.db, tx)
    requires tx.SetPerms? || tx.GrantWithWraps? || tx.RevokeAndRotate?
    ensures Enabled(s, Maintain(Commit(s.node.db, tx, s.node.tick)))
  {
    CommitKeepsInv(s.node.db, tx, s.node.tick);
    forall g
      ensures UpRows(Commit(s.node.db, tx, s.node.tick), g) == UpRows(s.node.db, g)
    {
      GrantRows(s.node.db, tx, s.node.tick, g);
    }
  }

  lemma RecoveredRows(db: Db, newOp: Key, g: Name)
    ensures UpRows(Recovered(db, newOp), g) == UpRows(db, g)
  {
    if g in db.groups {
      SameSecretsSameRows(Recovered(db, newOp).groups[g], db.groups[g]);
    }
  }

  lemma GrantRows(db: Db, tx: Tx, tick: nat, g: Name)
    requires TxOk(db, tx) && (tx.SetPerms? || tx.GrantWithWraps? || tx.RevokeAndRotate?)
    ensures UpRows(Commit(db, tx, tick), g) == UpRows(db, g)
  {
    if g in db.groups {
      SameSecretsSameRows(Commit(db, tx, tick).groups[g], db.groups[g]);
    }
  }
}
