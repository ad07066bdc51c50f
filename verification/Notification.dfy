/** Every change a replica mirrors is announced, and a refused request changes nothing. */
module Notification {
  import opened Base
  import opened Crypto
  import opened Tables
  import opened Transactions
  import opened Requests
  import opened Runs

  /** A group's ACL as a replica mirrors it: endpoint to identity name and permissions. */
  function AclRows(db: Db, grp: Group): map<Endpoint, (Name, Perms)> {
    map e | e in grp.acl && e in db.ids :: (db.ids[e].name, grp.acl[e])
  }

  /** A request that is not recorded as "ok" leaves every table alone. */
  lemma RefusedChangesNothing(n: Node, remote: Endpoint, req: Request)
    requires !Succeeded(Answer(n, remote, req))
    ensures After(n, remote, req).db == n.db
    ensures Published(n, remote, req) == {}
  {
  }

  /** The transaction of a request edits only the groups it announces. */
  lemma CommitFrame(n: Node, remote: Endpoint, req: Request, g: Name)
    requires g !in Published(n, remote, req)
    ensures var db' := After(n, remote, req).db;
            && (g in db'.groups <==> g in n.db.groups)
            && (g in n.db.groups ==> db'.groups[g] == n.db.groups[g])
  {
    var d := Decide(n.db, remote, req);
    DecideEstablishes(n.db, remote, req);
    if d.tx.RemoveIdentity? && g in n.db.groups {
      var grp := n.db.groups[g];
      assert d.tx.e !in grp.acl;
      assert grp.acl - {d.tx.e} == grp.acl;
      assert RemoveFrom(n.db.op, n.db.backup, grp, d.tx.e, Dek(n.tick, g)) == grp;
    }
  }

  /** An identity row named by the ACL of an unannounced group keeps its name. */
  lemma NamesStay(n: Node, remote: Endpoint, req: Request, g: Name, e: Endpoint)
    requires g !in Published(n, remote, req)
    requires g in n.db.groups && e in n.db.groups[g].acl && e in n.db.ids
    ensures var ids' := After(n, remote, req).db.ids;
            e in ids' && ids'[e].name == n.db.ids[e].name
  {
    var d := Decide(n.db, remote, req);
    DecideEstablishes(n.db, remote, req);
    if d.tx.RemoveIdentity? {
      assert g in GroupsOf(n.db, e);
    }
  }

  /** Notification is complete: a group that is not announced keeps its ACL
      rows with their identity names, its DEK versions, wraps and secrets. */
  lemma NotificationComplete(n: Node, remote: Endpoint, req: Request, g: Name)
    requires Inv(n)
    requires g !in Published(n, remote, req)
    ensures var db' := After(n, remote, req).db;
            && (g in db'.groups <==> g in n.db.groups)
            && (g in n.db.groups ==>
                  db'.groups[g] == n.db.groups[g] && AclRows(db', db'.groups[g]) == AclRows(n.db, n.db.groups[g]))
  {
    CommitFrame(n, remote, req, g);
    if g in n.db.groups {
      assert n.db.groups[g].acl.Keys <= n.db.ids.Keys by { assert GroupInv(n.db, g, n.tick); }
      forall e | e in n.db.groups[g].acl
        ensures var ids' := After(n, remote, req).db.ids;
                e in ids' && ids'[e].name == n.db.ids[e].name
      {
        NamesStay(n, remote, req, g, e);
      }
    }
  }
}
