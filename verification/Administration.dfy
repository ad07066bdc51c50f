/** The bunker stays administrable, and groups lose their last admin in one way only. */
module Administration {
  import opened Base
  import opened Crypto
  import opened Tables
  import opened Transactions
  import opened Requests
  import opened Maintenance
  import opened Runs

  lemma Another(s: set<Endpoint>, e: Endpoint) returns (other: Endpoint)
    requires |s| > 1
    ensures other in s && other != e
  {
    if s - {e} == {} {
      assert s <= {e};
      assert |s| <= |{e}| by { SubsetSize(s, {e}); }
    }
    other :| other in s - {e};
  }

  lemma SubsetSize(a: set<Endpoint>, b: set<Endpoint>)
    requires a <= b
    ensures |a| <= |b|
  {
    assert b == a + (b - a);
  }

  lemma StepKeepsServiceAdmin(n: Node, remote: Endpoint, req: Request)
    requires ServiceAdmins(n.db) != {}
    ensures ServiceAdmins(After(n, remote, req).db) != {}
  {
    var tx := TxOf(n, remote, req);
    var s, s' := ServiceAdmins(n.db), ServiceAdmins(After(n, remote, req).db);
    if tx.RemoveIdentity? || (tx.SetServiceAdmin? && !tx.flag) {
      if tx.e in s {
        assert |s| > 1;
        var other := Another(s, tx.e);
        assert other in s';
      } else {
        var other :| other in s;
        assert other in s';
      }
    } else {
      var other :| other in s;
      assert other in s';
    }
  }

  /** After `init`, every reachable state has a service admin. */
  lemma {:induction false} AlwaysAServiceAdmin(op: Key, backup: Key, admin: Endpoint, name: Name, steps: seq<Step>)
    ensures ServiceAdmins(Run(InitNode(op, backup, admin, name), steps).db) != {}
  {
    var n := InitNode(op, backup, admin, name);
    if steps == [] {
      assert admin in ServiceAdmins(n.db);
    } else {
      AlwaysAServiceAdmin(op, backup, admin, name, steps[..|steps| - 1]);
      var m, last := Run(n, steps[..|steps| - 1]), steps[|steps| - 1];
      if last.Ask? {
        StepKeepsServiceAdmin(m, last.remote, last.req);
      } else {
        var tx := NextCases(m, last);
        assert Next(m, last).db.ids == m.db.ids;
      }
    }
  }

  /** A group's explicit admins run out exactly when a removal is committed of
      the only identity that was one: no grant or service-admin edit does it. */
  lemma LastAdminGoesByRemovalOnly(n: Node, remote: Endpoint, req: Request, g: Name)
    requires g in n.db.groups && Admins(n.db.groups[g]) != {}
    ensures g in After(n, remote, req).db.groups
    ensures Admins(After(n, remote, req).db.groups[g]) == {} <==>
            var tx := Decide(n.db, remote, req).tx;
            tx.RemoveIdentity? && Admins(n.db.groups[g]) == {tx.e}
  {
    var tx := TxOf(n, remote, req);
    AdminsAfter(n.db, tx, n.tick, g);
    var s, s' := Admins(n.db.groups[g]), Admins(After(n, remote, req).db.groups[g]);
    if tx.RemoveIdentity? {
    } else if tx.SetPerms? || tx.GrantWithWraps? || tx.RevokeAndRotate? {
      if tx.g == g && tx.e in s && !tx.perms.admin {
        GrantKeepsTwo(n, remote, req);
        var other := Another(s, tx.e);
        assert other in s';
      } else {
        var other :| other in s;
        assert other in s';
      }
    } else {
      assert s' == s;
    }
  }

  /** Who is a group admin after a transaction. */
  lemma AdminsAfter(db: Db, tx: Tx, tick: nat, g: Name)
    requires TxOk(db, tx) && g in db.groups
    ensures g in Commit(db, tx, tick).groups
    ensures var s, s' := Admins(db.groups[g]), Admins(Commit(db, tx, tick).groups[g]);
            match tx
            case RemoveIdentity(e) => s' == s - {e}
            case SetPerms(h, e, perms) => h == g ==> s' == if perms.admin then s + {e} else s - {e}
            case GrantWithWraps(h, e, perms) => h == g ==> s' == if perms.admin then s + {e} else s - {e}
            case RevokeAndRotate(h, e, perms) => h == g ==> s' == if perms.admin then s + {e} else s - {e}
            case _ => s' == s
    ensures (tx.SetPerms? || tx.GrantWithWraps? || tx.RevokeAndRotate?) && tx.g != g ==>
              Commit(db, tx, tick).groups[g] == db.groups[g]
  {
  }

  lemma GrantKeepsTwo(n: Node, remote: Endpoint, req: Request)
    requires var tx := Decide(n.db, remote, req).tx;
             && (tx.SetPerms? || tx.GrantWithWraps? || tx.RevokeAndRotate?)
             && tx.g in n.db.groups && tx.e in Admins(n.db.groups[tx.g]) && !tx.perms.admin
    ensures |Admins(n.db.groups[Decide(n.db, remote, req).tx.g])| > 1
  {
  }

  /** A rescue grant has no such guard: it leaves a group without admins
      exactly when it takes the bit from the only one. */
  lemma RescueMayDropTheLastAdmin(n: Node, step: Step, g: Name)
    requires step.Rescue? && CanGrant(n.db, step.group, step.identity, step.perms, step.key)
    requires g in n.db.groups && Admins(n.db.groups[g]) != {}
    ensures g in Next(n, step).db.groups
    ensures Admins(Next(n, step).db.groups[g]) == {} <==>
            g == step.group && !step.perms.admin && Admins(n.db.groups[g]) == {IdByName(n.db.ids, step.identity).value}
  {
    RescueOk(n.db, step.group, step.identity, step.perms, step.key);
    AdminsAfter(n.db, RescueTx(n.db, step.group, step.identity, step.perms), n.tick, g);
  }
}
