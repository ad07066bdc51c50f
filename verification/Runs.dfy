/** Whole runs of the authoritative node, maintenance included, and what every
    reachable state keeps. */
module Runs {
  import opened Base
  import opened Crypto
  import opened Tables
  import opened Transactions
  import opened Requests
  import opened Maintenance

  /** A request, or maintenance between two runs of the service. */
  datatype Step =
    | Ask(remote: Endpoint, req: Request)
    | Rescue(group: Name, identity: Name, perms: Perms, key: Option<Key>)
    | Recover(backupKey: Key, newOp: Key)

  /** The state `init` leaves: one service admin and no groups. */
  function InitNode(op: Key, backup: Key, admin: Endpoint, name: Name): Node {
    Node(Db(map[admin := Identity(name, true)], map[], op, backup), 0)
  }

  /** Maintenance that cannot be carried out changes nothing. */
  ghost function Next(n: Node, step: Step): Node {
    match step
    case Ask(remote, req) => After(n, remote, req)
    case Rescue(group, identity, perms, key) =>
      if CanGrant(n.db, group, identity, perms, key) then
        RescueOk(n.db, group, identity, perms, key);
        Node(Commit(n.db, RescueTx(n.db, group, identity, perms), n.tick), n.tick + 1)
      else Node(n.db, n.tick + 1)
    case Recover(backupKey, newOp) =>
      Node(if Recoverable(n.db.groups, backupKey) then Recovered(n.db, newOp) else n.db, n.tick + 1)
  }

  ghost function Run(n: Node, steps: seq<Step>): Node {
    if steps == [] then n else Next(Run(n, steps[..|steps| - 1]), steps[|steps| - 1])
  }

  ghost predicate Inv(n: Node) {
    DbInv(n.db, n.tick)
  }

  lemma InitInv(op: Key, backup: Key, admin: Endpoint, name: Name)
    ensures Inv(InitNode(op, backup, admin, name))
  {
  }

  lemma StepKeepsInv(n: Node, remote: Endpoint, req: Request)
    requires Inv(n)
    ensures Inv(After(n, remote, req))
  {
    var tx := TxOf(n, remote, req);
    CommitKeepsInv(n.db, tx, n.tick);
  }

  /** The transaction a request commits. */
  lemma TxOf(n: Node, remote: Endpoint, req: Request) returns (tx: Tx)
    ensures tx == Decide(n.db, remote, req).tx && TxOk(n.db, tx)
    ensures After(n, remote, req) == Node(Commit(n.db, tx, n.tick), n.tick + 1)
  {
    tx := Decide(n.db, remote, req).tx;
    DecideEstablishes(n.db, remote, req);
  }

  /** A step either commits one transaction or is a recovery. */
  lemma NextCases(n: Node, step: Step) returns (tx: Tx)
    ensures TxOk(n.db, tx)
    ensures Next(n, step) == Node(Commit(n.db, tx, n.tick), n.tick + 1)
            || (step.Recover? && tx.NoTx? && Next(n, step) == Node(Recovered(n.db, step.newOp), n.tick + 1))
    ensures step.Ask? ==> tx == Decide(n.db, step.remote, step.req).tx
    ensures step.Rescue? ==> tx.NoTx? || tx.SetPerms? || tx.GrantWithWraps? || tx.RevokeAndRotate?
    ensures step.Recover? ==> tx.NoTx?
  {
    match step
    case Ask(remote, req) => tx := TxOf(n, remote, req);
    case Rescue(group, identity, perms, key) =>
      if CanGrant(n.db, group, identity, perms, key) {
        RescueOk(n.db, group, identity, perms, key);
        tx := RescueTx(n.db, group, identity, perms);
      } else {
        tx := NoTx;
      }
    case Recover(_, _) => tx := NoTx;
  }

  lemma NextKeepsInv(n: Node, step: Step)
    requires Inv(n)
    ensures Inv(Next(n, step))
  {
    match step
    case Ask(remote, req) => StepKeepsInv(n, remote, req);
    case Rescue(_, _, _, _) => RescueKeepsInv(n, step);
    case Recover(_, _) => RecoverKeepsInv(n, step);
  }

  lemma RescueKeepsInv(n: Node, step: Step)
    requires Inv(n) && step.Rescue?
    ensures Inv(Next(n, step))
  {
    var tx := NextCases(n, step);
    CommitKeepsInv(n.db, tx, n.tick);
  }

  lemma RecoverKeepsInv(n: Node, step: Step)
    requires Inv(n) && step.Recover?
    ensures Inv(Next(n, step))
  {
    RecoveredOrNot(n.db, step.newOp, n.tick, Next(n, step).db);
  }

  lemma RecoveredOrNot(db: Db, newOp: Key, tick: nat, db': Db)
    requires DbInv(db, tick) && (db' == db || db' == Recovered(db, newOp))
    ensures DbInv(db', tick + 1)
  {
    if db' == db {
      LaterTick(db, tick);
    } else {
      RecoveredLater(db, newOp, tick);
    }
  }

  /** The database invariant holds in every reachable state. */
  lemma {:induction false} RunKeepsInv(n: Node, steps: seq<Step>)
    requires Inv(n)
    ensures Inv(Run(n, steps))
  {
    if steps != [] {
      RunKeepsInv(n, steps[..|steps| - 1]);
      NextKeepsInv(Run(n, steps[..|steps| - 1]), steps[|steps| - 1]);
    }
  }

  /** The wrap invariant, spelled out: in every reachable state a wrap row
      exists iff its version is retained and its recipient is operational,
      backup or an explicit reader; all wraps of a version hide one DEK, and
      every stored secret version names a retained DEK version. */
  lemma WrapInvariant(op: Key, backup: Key, admin: Endpoint, name: Name, steps: seq<Step>, g: Name)
    requires g in Run(InitNode(op, backup, admin, name), steps).db.groups
    ensures var grp := Run(InitNode(op, backup, admin, name), steps).db.groups[g];
            && (forall v: nat, r :: (v, r) in grp.wraps <==>
                  v in grp.deks && (r.Operational? || r.Backup? || (r.endpoint in grp.acl && grp.acl[r.endpoint].read)))
            && (forall v: nat, r, q :: (v, r) in grp.wraps && (v, q) in grp.wraps ==> grp.wraps[(v, r)].dek == grp.wraps[(v, q)].dek)
            && (forall v: nat, e :: (v, Reader(e)) in grp.wraps ==> grp.wraps[(v, Reader(e))].to == EndpointKey(e))
            && (forall s, v :: s in grp.secrets && v in grp.secrets[s].versions ==> grp.secrets[s].versions[v].dekVersion in grp.deks)
  {
    var n0 := InitNode(op, backup, admin, name);
    InitInv(op, backup, admin, name);
    RunKeepsInv(n0, steps);
    var n := Run(n0, steps);
    assert GroupInv(n.db, g, n.tick);
    SpellOut(n.db, g, n.tick);
  }

  lemma SpellOut(db: Db, g: Name, tick: nat)
    requires g in db.groups && GroupInv(db, g, tick)
    ensures var grp := db.groups[g];
            && (forall v: nat, r, q :: (v, r) in grp.wraps && (v, q) in grp.wraps ==> grp.wraps[(v, r)].dek == grp.wraps[(v, q)].dek)
            && (forall v: nat, e :: (v, Reader(e)) in grp.wraps ==> grp.wraps[(v, Reader(e))].to == EndpointKey(e))
            && (forall s, v :: s in grp.secrets && v in grp.secrets[s].versions ==> grp.secrets[s].versions[v].dekVersion in grp.deks)
  {
    var grp := db.groups[g];
    assert OneDek(grp, db.op, db.backup);
    forall v: nat, r | (v, r) in grp.wraps
      ensures (v, Operational) in grp.wraps
      ensures grp.wraps[(v, r)] == Wrap(DekOf(grp, v), KeyFor(db.op, db.backup, r))
    {
      var k := (v, r);
      assert k in grp.wraps;
    }
  }
}
