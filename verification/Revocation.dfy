/** Losing read is final for everything written afterwards. */
module Revocation {
  import opened Base
  import opened Crypto
  import opened Tables
  import opened Transactions
  import opened Requests
  import opened Maintenance
  import opened Runs

  ghost predicate HasCurrent(grp: Group) {
    grp.deks != {} && (MaxVersion(grp.deks), Operational) in grp.wraps
  }

  /** The DEK new writes of a group are sealed under. */
  ghost function CurrentDek(grp: Group): Dek
    requires HasCurrent(grp)
  {
    DekOf(grp, MaxVersion(grp.deks))
  }

  /** Some wrap row addressed to `e` hides `dek`. */
  ghost predicate Holds(db: Db, e: Endpoint, dek: Dek) {
    exists h, v: nat :: h in db.groups && (v, Reader(e)) in db.groups[h].wraps && db.groups[h].wraps[(v, Reader(e))].dek == dek
  }

  lemma HeldDeks(n: Node, e: Endpoint, dek: Dek) returns (v: nat)
    requires Inv(n) && Holds(n.db, e, dek)
    ensures dek.tick < n.tick && dek.group in n.db.groups
    ensures (v, Reader(e)) in n.db.groups[dek.group].wraps
    ensures (v, Operational) in n.db.groups[dek.group].wraps && DekOf(n.db.groups[dek.group], v) == dek
  {
    var h, w: nat :| h in n.db.groups && (w, Reader(e)) in n.db.groups[h].wraps && n.db.groups[h].wraps[(w, Reader(e))].dek == dek;
    v := w;
    assert GroupInv(n.db, h, n.tick);
    var k := (v, Reader(e));
    assert k in n.db.groups[h].wraps;
  }

  lemma InvHasCurrent(n: Node, g: Name)
    requires Inv(n) && g in n.db.groups
    ensures HasCurrent(n.db.groups[g])
  {
    assert GroupInv(n.db, g, n.tick);
  }

  /** At any one moment, an endpoint without read holds no wrap of the current DEK. */
  lemma NonReaderLacksCurrent(n: Node, g: Name, e: Endpoint)
    requires Inv(n) && g in n.db.groups && !HasRead(n.db.groups[g], e)
    ensures HasCurrent(n.db.groups[g]) && !Holds(n.db, e, CurrentDek(n.db.groups[g]))
  {
    InvHasCurrent(n, g);
    assert GroupInv(n.db, g, n.tick);
    var dek := CurrentDek(n.db.groups[g]);
    if Holds(n.db, e, dek) {
      var v := HeldDeks(n, e, dek);
    }
  }

  /** Between two states of a group, either a fresh DEK became current or the
      current DEK stayed and `e` did not lose read. */
  ghost predicate FreshOrKept(g: Name, grp: Group, r: Group, tick: nat, e: Endpoint) {
    || CurrentIs(g, r, tick)
    || (r.deks == grp.deks && KeepsDeks(grp, r) && (HasRead(grp, e) ==> HasRead(r, e)))
  }

  lemma CommitCurrent(db: Db, tx: Tx, tick: nat, g: Name, e: Endpoint)
    requires TxOk(db, tx)
    requires g in db.groups && g in Commit(db, tx, tick).groups
    requires KeysInv(g, db.groups[g], db.op, db.backup, tick)
    ensures FreshOrKept(g, db.groups[g], Commit(db, tx, tick).groups[g], tick, e)
  {
    var grp, r := db.groups[g], Commit(db, tx, tick).groups[g];
    if tx.RemoveIdentity? {
      RemoveCurrent(db.op, db.backup, g, grp, tx.e, tick, e);
    } else if tx.RevokeAndRotate? && tx.g == g {
      RevokeKeeps(db.op, db.backup, g, grp, tx.e, tx.perms, tick);
    } else if tx.AddDek? && tx.g == g {
      RotateKeeps(db.op, db.backup, g, grp, tick);
    } else if tx.GrantWithWraps? && tx.g == g {
      GrantCurrent(g, grp, tx.e, tx.perms, tick, e);
    } else {
      OtherCurrent(db, tx, tick, g, e);
    }
  }

  /** Every other transaction leaves the group's keys alone. */
  lemma OtherCurrent(db: Db, tx: Tx, tick: nat, g: Name, e: Endpoint)
    requires TxOk(db, tx) && !tx.RemoveIdentity? && g in db.groups && g in Commit(db, tx, tick).groups
    requires !((tx.RevokeAndRotate? || tx.AddDek? || tx.GrantWithWraps?) && tx.g == g)
    ensures FreshOrKept(g, db.groups[g], Commit(db, tx, tick).groups[g], tick, e)
  {
    var grp, r := db.groups[g], Commit(db, tx, tick).groups[g];
    assert r.wraps == grp.wraps && r.deks == grp.deks;
  }

  lemma RemoveCurrent(op: Key, backup: Key, g: Name, grp: Group, f: Endpoint, tick: nat, e: Endpoint)
    requires KeysInv(g, grp, op, backup, tick)
    ensures FreshOrKept(g, grp, RemoveFrom(op, backup, grp, f, Dek(tick, g)), tick, e)
  {
    if HasRead(grp, f) {
      RevokeKeeps(op, backup, g, grp, f, NO_PERMS, tick);
    }
  }

  lemma GrantCurrent(g: Name, grp: Group, f: Endpoint, perms: Perms, tick: nat, e: Endpoint)
    requires perms.read
    ensures FreshOrKept(g, grp, grp.(acl := grp.acl[f := perms], wraps := grp.wraps + ReaderWraps(grp, f)), tick, e)
  {
    var w := ReaderWraps(grp, f);
    assert forall v: nat :: (v, Operational) !in w;
  }

  lemma RunTick(n: Node, steps: seq<Step>)
    ensures Run(n, steps).tick == n.tick + |steps|
  {
  }

  /** In every run, an endpoint that cannot read a group has never, in any
      earlier state, held a wrap of the DEK now current for that group. */
  lemma {:induction false} NeverHeld(n: Node, steps: seq<Step>, i: nat, g: Name, e: Endpoint)
    requires Inv(n) && i <= |steps|
    requires g in Run(n, steps).db.groups && !HasRead(Run(n, steps).db.groups[g], e)
    ensures HasCurrent(Run(n, steps).db.groups[g])
    ensures !Holds(Run(n, steps[..i]).db, e, CurrentDek(Run(n, steps).db.groups[g]))
    decreases |steps|
  {
    RunKeepsInv(n, steps);
    InvHasCurrent(Run(n, steps), g);
    if i == |steps| {
      assert steps[..i] == steps;
      NonReaderLacksCurrent(Run(n, steps), g, e);
    } else {
      var before := steps[..|steps| - 1];
      assert before[..i] == steps[..i];
      RunKeepsInv(n, before);
      RunKeepsInv(n, steps[..i]);
      var dek := CurrentDek(Run(n, steps).db.groups[g]);
      if dek == Dek(Run(n, before).tick, g) {
        RunTick(n, before);
        RunTick(n, steps[..i]);
        if Holds(Run(n, steps[..i]).db, e, dek) {
          var v := HeldDeks(Run(n, steps[..i]), e, dek);
        }
      } else {
        LastStepKept(n, steps, g, e);
        NeverHeld(n, before, i, g, e);
      }
    }
  }

  lemma LastStepKept(n: Node, steps: seq<Step>, g: Name, e: Endpoint)
    requires Inv(n) && steps != []
    requires g in Run(n, steps).db.groups && !HasRead(Run(n, steps).db.groups[g], e)
    requires HasCurrent(Run(n, steps).db.groups[g])
    requires CurrentDek(Run(n, steps).db.groups[g]) != Dek(Run(n, steps[..|steps| - 1]).tick, g)
    ensures var b := Run(n, steps[..|steps| - 1]).db;
            && g in b.groups && !HasRead(b.groups[g], e) && HasCurrent(b.groups[g])
            && CurrentDek(b.groups[g]) == CurrentDek(Run(n, steps).db.groups[g])
  {
    var last := steps[|steps| - 1];
    var b := Run(n, steps[..|steps| - 1]);
    RunKeepsInv(n, steps[..|steps| - 1]);
    var tx := NextCases(b, last);
    if g !in b.db.groups {
      assert tx == CreateGroup(g, tx.e);
      NewGroupCurrent(b.db.op, b.db.backup, Dek(b.tick, g), tx.e);
    } else {
      assert GroupInv(b.db, g, b.tick);
      InvHasCurrent(b, g);
      if Next(b, last) == Node(Commit(b.db, tx, b.tick), b.tick + 1) {
        CommitCurrent(b.db, tx, b.tick, g, e);
      } else {
        RecoveredCurrent(b.db.groups[g], b.db.op, b.db.backup, last.newOp, e);
      }
    }
  }

  lemma RecoveredCurrent(grp: Group, op: Key, backup: Key, newOp: Key, e: Endpoint)
    requires WrapsExact(grp) && OneDek(grp, op, backup) && HasCurrent(grp)
    ensures var r := RecoveredGroup(grp, newOp);
            HasRead(r, e) == HasRead(grp, e) && HasCurrent(r) && CurrentDek(r) == CurrentDek(grp)
  {
    RecoveredDeks(grp, op, backup, newOp);
  }

  lemma NewGroupCurrent(op: Key, backup: Key, dek: Dek, e: Endpoint)
    ensures HasCurrent(NewGroup(op, backup, dek, e)) && CurrentDek(NewGroup(op, backup, dek, e)) == dek
  {
    WrapSetKeys(op, backup, dek, 1, {e});
    assert MaxVersion({1}) == 1;
  }

  /** Revocation is forward: whatever the run, a write to a group is sealed
      under a DEK that an endpoint without read has held no wrap of in any
      state since the run began. */
  lemma RevocationIsForward(n: Node, steps: seq<Step>, remote: Endpoint, req: Request, i: nat, e: Endpoint)
    requires Inv(n) && i <= |steps|
    requires req.Put? && Answer(Run(n, steps), remote, req).NewVersion?
    requires !InScope(Run(n, steps).db, req.group, e)
    ensures var after := After(Run(n, steps), remote, req).db;
            && req.group in after.groups && CurrentOf(after.groups[req.group], req.name).Some?
            && !Holds(Run(n, steps[..i]).db, e, CurrentOf(after.groups[req.group], req.name).value.row.cipher.dek)
            && !Holds(after, e, CurrentOf(after.groups[req.group], req.name).value.row.cipher.dek)
  {
    var cur := Run(n, steps);
    PutInGroup(cur, remote, req);
    NeverHeld(n, steps, i, req.group, e);
    NeverHeld(n, steps, |steps|, req.group, e);
    assert steps[..|steps|] == steps;
    PutSeals(cur, remote, req, e);
  }

  lemma PutInGroup(n: Node, remote: Endpoint, req: Request)
    requires req.Put? && Answer(n, remote, req).NewVersion?
    ensures req.group in n.db.groups && Decide(n.db, remote, req).tx == PutSecret(req.group, req.name, req.value, n.db.ids[remote].name)
  {
  }

  /** An applied write is sealed under the group's current DEK, and gives no
      endpoint a wrap it did not have. */
  lemma PutSeals(n: Node, remote: Endpoint, req: Request, e: Endpoint)
    requires req.Put? && Answer(n, remote, req).NewVersion?
    requires req.group in n.db.groups && HasCurrent(n.db.groups[req.group])
    ensures var after, dek := After(n, remote, req).db, CurrentDek(n.db.groups[req.group]);
            && req.group in after.groups && CurrentOf(after.groups[req.group], req.name).Some?
            && CurrentOf(after.groups[req.group], req.name).value.row.cipher.dek == dek
            && (Holds(after, e, dek) ==> Holds(n.db, e, dek))
  {
    var tx := TxOf(n, remote, req);
    PutHandsOutNothing(n.db, tx, n.tick, e, CurrentDek(n.db.groups[req.group]));
  }

  lemma PutHandsOutNothing(db: Db, tx: Tx, tick: nat, e: Endpoint, dek: Dek)
    requires TxOk(db, tx) && tx.PutSecret?
    ensures Holds(Commit(db, tx, tick), e, dek) ==> Holds(db, e, dek)
  {
    var after := Commit(db, tx, tick);
    assert after.groups.Keys == db.groups.Keys;
    assert forall h :: h in after.groups ==> after.groups[h].wraps == db.groups[h].wraps;
  }
}
