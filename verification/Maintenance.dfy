/** What recovery with the backup key and a rescue grant do to the tables. */
module Maintenance {
  import opened Base
  import opened Crypto
  import opened Encoding
  import opened Tables
  import opened Transactions
  import opened Requests

  // ---- recovery ----

  /** Every operational wrap is remade, for a new key, from the backup wrap. */
  function RecoveredGroup(grp: Group, newOp: Key): Group {
    grp.(wraps := map k | k in grp.wraps ::
                    if k.1.Operational? && (k.0, Backup) in grp.wraps then Wrap(grp.wraps[(k.0, Backup)].dek, newOp)
                    else grp.wraps[k])
  }

  function Recovered(db: Db, newOp: Key): Db {
    db.(op := newOp, groups := map g | g in db.groups :: RecoveredGroup(db.groups[g], newOp))
  }

  lemma RecoveredDeks(grp: Group, op: Key, backup: Key, newOp: Key)
    requires WrapsExact(grp) && OneDek(grp, op, backup)
    ensures forall v :: (v, Operational) in grp.wraps ==> DekOf(RecoveredGroup(grp, newOp), v) == DekOf(grp, v)
    ensures OneDek(RecoveredGroup(grp, newOp), newOp, backup)
  {
    var r := RecoveredGroup(grp, newOp);
    forall v | (v, Operational) in grp.wraps
      ensures (v, Backup) in grp.wraps && DekOf(r, v) == DekOf(grp, v)
    {
      assert v in grp.deks && Entitled(grp, Backup);
    }
    forall k | k in r.wraps
      ensures (k.0, Operational) in r.wraps && r.wraps[k] == Wrap(DekOf(r, k.0), KeyFor(newOp, backup, k.1))
    {
      assert k == (k.0, k.1);
    }
  }

  lemma RecoveredSealed(g: Name, grp: Group, op: Key, backup: Key, newOp: Key, tick: nat)
    requires WrapsExact(grp) && OneDek(grp, op, backup) && SecretsSealed(g, grp, tick)
    ensures SecretsSealed(g, RecoveredGroup(grp, newOp), tick)
  {
    var r := RecoveredGroup(grp, newOp);
    RecoveredDeks(grp, op, backup, newOp);
    forall n, v | n in r.secrets && v in r.secrets[n].versions
      ensures RowSealed(g, r, n, v, r.secrets[n].versions[v], tick)
    {
      assert RowSealed(g, grp, n, v, grp.secrets[n].versions[v], tick);
    }
  }

  lemma RecoveredKeys(g: Name, grp: Group, op: Key, backup: Key, newOp: Key, tick: nat)
    requires KeysInv(g, grp, op, backup, tick)
    ensures KeysInv(g, RecoveredGroup(grp, newOp), newOp, backup, tick)
  {
    var r := RecoveredGroup(grp, newOp);
    RecoveredDeks(grp, op, backup, newOp);
    RecoveredSealed(g, grp, op, backup, newOp, tick);
    assert WrapsExact(r) by { assert forall q :: Entitled(r, q) == Entitled(grp, q); }
    assert DeksDistinct(g, r, tick);
  }

  /** Recovery keeps the invariant of the whole database, under the new key. */
  lemma RecoveryKeepsInv(db: Db, newOp: Key, tick: nat)
    requires DbInv(db, tick)
    ensures DbInv(Recovered(db, newOp), tick)
  {
    var db' := Recovered(db, newOp);
    forall g | g in db'.groups
      ensures GroupInv(db', g, tick)
    {
      assert GroupInv(db, g, tick);
      RecoveredKeys(g, db.groups[g], db.op, db.backup, newOp, tick);
    }
  }

  /** After recovery the new key opens every secret the old key opened, to the
      same value. */
  lemma RecoveryKeepsSecrets(db: Db, newOp: Key, tick: nat, g: Name, name: Name)
    requires DbInv(db, tick) && g in db.groups && CurrentOf(db.groups[g], name).Some?
    ensures var grp, grp' := db.groups[g], Recovered(db, newOp).groups[g];
            && CurrentOf(grp', name) == CurrentOf(grp, name)
            && OpenSecret(g, grp', name, Operational, newOp) == OpenSecret(g, grp, name, Operational, db.op)
            && OpenSecret(g, grp', name, Operational, newOp).Some?
  {
    var grp := db.groups[g];
    assert WrapsExact(grp) && OneDek(grp, db.op, db.backup) && SecretsSealed(g, grp, tick) by {
      assert GroupInv(db, g, tick);
    }
    RecoveredOpens(g, grp, db.op, db.backup, newOp, tick, name);
  }

  lemma RecoveredOpens(g: Name, grp: Group, op: Key, backup: Key, newOp: Key, tick: nat, name: Name)
    requires WrapsExact(grp) && OneDek(grp, op, backup) && SecretsSealed(g, grp, tick) && name in grp.secrets
    ensures var r := RecoveredGroup(grp, newOp);
            && CurrentOf(grp, name).Some? && CurrentOf(r, name) == CurrentOf(grp, name)
            && OpenSecret(g, r, name, Operational, newOp) == OpenSecret(g, grp, name, Operational, op)
            && OpenSecret(g, r, name, Operational, newOp).Some?
  {
    var s := grp.secrets[name];
    var row := s.versions[s.current];
    assert RowSealed(g, grp, name, s.current, row, tick);
    assert grp.wraps[(row.dekVersion, Operational)].to == op;
    RecoveredWrap(grp, op, backup, newOp, row.dekVersion);
  }

  lemma RecoveredWrap(grp: Group, op: Key, backup: Key, newOp: Key, v: nat)
    requires WrapsExact(grp) && OneDek(grp, op, backup) && (v, Operational) in grp.wraps
    ensures var r := RecoveredGroup(grp, newOp);
            (v, Operational) in r.wraps && r.wraps[(v, Operational)] == Wrap(DekOf(grp, v), newOp)
  {
    RecoveredDeks(grp, op, backup, newOp);
  }

  /** Reader and backup wraps are untouched, and a lost key that is not the new
      one opens no DEK any more. */
  lemma RecoveryReplacesTheKey(db: Db, newOp: Key, tick: nat, g: Name)
    requires DbInv(db, tick) && g in db.groups
    ensures var grp, grp' := db.groups[g], Recovered(db, newOp).groups[g];
            && grp'.wraps.Keys == grp.wraps.Keys
            && (forall k :: k in grp.wraps && !k.1.Operational? ==> grp'.wraps[k] == grp.wraps[k])
            && (db.op != newOp ==> forall v :: (v, Operational) in grp'.wraps ==> Unwrap(grp'.wraps[(v, Operational)], db.op).None?)
  {
    assert WrapsExact(db.groups[g]) && OneDek(db.groups[g], db.op, db.backup) by {
      assert GroupInv(db, g, tick);
    }
    RecoveredDeks(db.groups[g], db.op, db.backup, newOp);
  }

  function BackupRows(groups: map<Name, Group>): set<(Name, nat)> {
    set g, k | g in groups && k in groups[g].wraps && k.1.Backup? :: (g, k.0)
  }

  /** The backup key opens every backup wrap, and each has an operational row to replace. */
  predicate Recoverable(groups: map<Name, Group>, backupKey: Key) {
    forall r :: r in BackupRows(groups) ==>
      Unwrap(groups[r.0].wraps[(r.1, Backup)], backupKey).Some? && (r.1, Operational) in groups[r.0].wraps
  }

  lemma LaterTick(db: Db, tick: nat)
    requires DbInv(db, tick)
    ensures DbInv(db, tick + 1)
  {
    forall g | g in db.groups
      ensures GroupInv(db, g, tick + 1)
    {
      assert GroupInv(db, g, tick);
      UntouchedKeeps(g, db.groups[g], db.op, db.backup, tick);
    }
  }

  lemma RecoveredLater(db: Db, newOp: Key, tick: nat)
    requires DbInv(db, tick)
    ensures DbInv(Recovered(db, newOp), tick + 1)
  {
    RecoveryKeepsInv(db, newOp, tick);
    LaterTick(Recovered(db, newOp), tick);
  }

  // ---- the rescue grant ----

  /** What stands in the way of a local grant. There is no check for the last
      group administrator, and only gaining read needs the private key. */
  ghost predicate CanGrant(db: Db, group: Name, identity: Name, perms: Perms, key: Option<Key>) {
    && group in db.groups && IdByName(db.ids, identity).Some?
    && (!HasRead(db.groups[group], IdByName(db.ids, identity).value) && perms.read ==>
          key == Some(db.op) && AllUnwrap(db, db.groups[group]))
  }

  /** The transaction a wire grant would commit once its checks have passed. */
  ghost function RescueTx(db: Db, group: Name, identity: Name, perms: Perms): Tx
    requires group in db.groups && IdByName(db.ids, identity).Some?
  {
    GrantTx(db, group, IdByName(db.ids, identity).value, perms).tx
  }

  lemma RescueOk(db: Db, group: Name, identity: Name, perms: Perms, key: Option<Key>)
    requires CanGrant(db, group, identity, perms, key)
    ensures TxOk(db, RescueTx(db, group, identity, perms)) && GrantTx(db, group, IdByName(db.ids, identity).value, perms).response == Ok
  {
  }
}
