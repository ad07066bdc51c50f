/** What a replica answers from its mirror, compared with the authoritative node. */
module ReplicaReads {
  import opened Base
  import opened Crypto
  import opened Encoding
  import opened Tables
  import opened Transactions
  import opened Requests
  import opened Access
  import opened Runs
  import opened Notification
  import opened VersionedMap
  import opened Mirror
  import opened Convergence
  import opened Protocol
  import opened SyncSafety

  /** The replica's dispatch: reads from the mirror, never with the
      service-admin bypass; mutations are redirected. */
  function ReplicaAnswer(mirror: Db, own: Endpoint, authoritative: Endpoint, remote: Endpoint, req: Request): Response {
    if remote !in mirror.ids then Denied
    else
      match req
      case Get(g, n) => ReadSecret(mirror, remote, g, n, Reader(own), EndpointKey(own), false)
      case List(g) => ListSecrets(mirror, remote, g, false)
      case ListGroups => ExplicitGroups(mirror, remote)
      case GroupAcl(g) => ListAcl(mirror, remote, g, false)
      case ListIdentityNames(g) => ListNames(mirror, remote, g, false)
      case ListIdentities => Denied
      case _ => ReadOnlyReplica(authoritative)
  }

  // ---- agreement of one group, unfolded ----

  /** The mirrored group of an agreeing view grants what upstream's grants. */
  lemma SameAcl(a: Db, b: Db, x: Group, y: Group, own: Endpoint)
    requires x.acl.Keys <= a.ids.Keys && y.acl.Keys <= b.ids.Keys
    requires ViewOf(a, x, own) == ViewOf(b, y, own)
    ensures x.acl == y.acl
    ensures AclEntries(a, x) == AclEntries(b, y)
  {
    var rows := ViewOf(a, x, own).rows;
    assert rows == AclRows(a, x) && rows == AclRows(b, y);
    assert forall e :: e in x.acl <==> e in rows;
    assert forall e :: e in y.acl <==> e in rows;
    forall e | e in rows
      ensures x.acl[e] == y.acl[e] && a.ids[e].name == b.ids[e].name
    {
      assert rows[e] == (a.ids[e].name, x.acl[e]) && rows[e] == (b.ids[e].name, y.acl[e]);
    }
  }

  lemma SameSecrets(x: Group, y: Group)
    requires RowsPresent(x) && RowsPresent(y) && CurrentRows(x) == CurrentRows(y)
    ensures (map n | n in x.secrets :: x.secrets[n].current) == (map n | n in y.secrets :: y.secrets[n].current)
    ensures forall n :: CurrentOf(x, n) == CurrentOf(y, n)
  {
    assert forall n :: n in x.secrets <==> n in CurrentRows(x);
    assert forall n :: n in y.secrets <==> n in CurrentRows(y);
    assert forall n :: n in x.secrets ==> CurrentRows(x)[n] == CurrentOf(x, n).value && CurrentRows(y)[n] == CurrentOf(y, n).value;
  }

  /** The replica opens a secret through its own wrap and gets what the
      operational key would give upstream. */
  lemma OwnWrapOpens(n: Node, x: Group, g: Name, own: Endpoint, name: Name)
    requires Inv(n) && InScope(n.db, g, own)
    requires OwnWraps(x, own) == OwnWraps(n.db.groups[g], own)
    requires CurrentOf(x, name) == CurrentOf(n.db.groups[g], name) && CurrentOf(x, name).Some?
    ensures OpenSecret(g, x, name, Reader(own), EndpointKey(own)) == OpenSecret(g, n.db.groups[g], name, Operational, n.db.op)
  {
    var grp := n.db.groups[g];
    OperationalOpens(n, g, name);
    assert GroupInv(n.db, g, n.tick);
    var cur := CurrentOf(grp, name).value;
    assert RowSealed(g, grp, name, cur.version, cur.row, n.tick);
    var k := (cur.row.dekVersion, Reader(own));
    assert Entitled(grp, Reader(own));
    assert k in grp.wraps && grp.wraps[k] == Wrap(DekOf(grp, k.0), KeyFor(n.db.op, n.db.backup, k.1));
    assert k.0 in OwnWraps(grp, own) && OwnWraps(grp, own)[k.0] == grp.wraps[k];
    assert k.0 in OwnWraps(x, own);
    assert k in x.wraps && x.wraps[k] == grp.wraps[k];
  }

  /** A request the replica can serve about one group. */
  predicate GroupRead(req: Request, g: Name) {
    (req.Get? || req.List? || req.GroupAcl?) && req.group == g
  }

  /** On a group that agrees with upstream, the replica answers Get, List and
      GroupAcl exactly as the authoritative node does, for every caller that
      is not a service admin there. */
  lemma ConvergedAnswersEqual(s: System, authoritative: Endpoint, remote: Endpoint, g: Name, req: Request)
    requires Inv(s.node) && MirrorOk(s.mirror)
    requires InScope(s.node.db, g, s.own) && Agrees(s, g) && GroupRead(req, g)
    requires remote in s.node.db.ids ==> !s.node.db.ids[remote].serviceAdmin
    ensures ReplicaAnswer(s.mirror, s.own, authoritative, remote, req) == Answer(s.node, remote, req)
  {
    var x, y := s.mirror.groups[g], s.node.db.groups[g];
    assert RowsPresent(y) && y.acl.Keys <= s.node.db.ids.Keys by { assert GroupInv(s.node.db, g, s.node.tick); }
    assert ViewOf(s.mirror, x, s.own) == ViewOf(s.node.db, y, s.own);
    SameAcl(s.mirror, s.node.db, x, y, s.own);
    SameSecrets(x, y);
    if req.Get? && CurrentOf(y, req.name).Some? {
      OwnWrapOpens(s.node, x, g, s.own, req.name);
    }
    AnswersFollow(s.mirror, s.node.db, s.own, authoritative, remote, g, req);
  }

  lemma AnswersFollow(a: Db, b: Db, own: Endpoint, authoritative: Endpoint, remote: Endpoint, g: Name, req: Request)
    requires g in a.groups && g in b.groups && GroupRead(req, g)
    requires remote in b.ids ==> !b.ids[remote].serviceAdmin
    requires a.groups[g].acl == b.groups[g].acl
    requires a.groups[g].acl.Keys <= a.ids.Keys && b.groups[g].acl.Keys <= b.ids.Keys
    requires AclEntries(a, a.groups[g]) == AclEntries(b, b.groups[g])
    requires (map n | n in a.groups[g].secrets :: a.groups[g].secrets[n].current) == (map n | n in b.groups[g].secrets :: b.groups[g].secrets[n].current)
    requires req.Get? ==> CurrentOf(a.groups[g], req.name) == CurrentOf(b.groups[g], req.name)
    requires req.Get? && CurrentOf(b.groups[g], req.name).Some? ==>
               OpenSecret(g, a.groups[g], req.name, Reader(own), EndpointKey(own)) == OpenSecret(g, b.groups[g], req.name, Operational, b.op)
    ensures ReplicaAnswer(a, own, authoritative, remote, req) == Decide(b, remote, req).response
  {
  }

  /** A settled session serves every group in scope as upstream would. */
  lemma SettledAnswersEqual(s: System, actions: seq<Action>, authoritative: Endpoint, remote: Endpoint, g: Name, req: Request)
    requires Start(s) && Possible(s, actions) && Settled(Outcome(s, actions))
    requires var t := Outcome(s, actions);
             && InScope(t.node.db, g, t.own) && GroupRead(req, g)
             && (remote in t.node.db.ids ==> !t.node.db.ids[remote].serviceAdmin)
    ensures var t := Outcome(s, actions);
            ReplicaAnswer(t.mirror, t.own, authoritative, remote, req) == Answer(t.node, remote, req)
  {
    RunKeepsSysInv(s, actions);
    SettledAgrees(s, actions, g);
    ConvergedAnswersEqual(Outcome(s, actions), authoritative, remote, g, req);
  }

  // ---- uniform answers ----

  /** The two databases differ only in groups where `e` has no ACL row. */
  ghost predicate SameWhereVisible(a: Db, b: Db, e: Endpoint) {
    && a.ids == b.ids && a.op == b.op && a.backup == b.backup
    && forall g :: (g in a.groups && e in a.groups[g].acl) || (g in b.groups && e in b.groups[g].acl) ==>
         g in a.groups && g in b.groups && a.groups[g] == b.groups[g]
  }

  lemma VisibleAuthorized(a: Db, b: Db, e: Endpoint, g: Name, needed: Perms)
    requires SameWhereVisible(a, b, e) && (needed.read || needed.write || needed.admin)
    ensures Authorized(a, e, g, needed, false) <==> Authorized(b, e, g, needed, false)
    ensures Authorized(a, e, g, needed, false) ==> a.groups[g] == b.groups[g]
  {
  }

  /** Uniform answers: a caller that is no service admin cannot tell apart two
      bunkers that differ only in groups it has no ACL row on, whatever it
      asks; and one that is not registered is denied and commits nothing. */
  lemma UniformAnswers(a: Db, b: Db, remote: Endpoint, req: Request)
    requires SameWhereVisible(a, b, remote)
    requires remote in a.ids ==> !a.ids[remote].serviceAdmin
    ensures Decide(a, remote, req).response == Decide(b, remote, req).response
    ensures remote !in a.ids ==> Decide(a, remote, req) == Decision(NoTx, Denied)
  {
    if remote in a.ids {
      match req
      case Get(g, n) => VisibleAuthorized(a, b, remote, g, READ);
      case Put(g, n, value, expected) => VisibleAuthorized(a, b, remote, g, WRITE);
      case Delete(g, n, expected) => VisibleAuthorized(a, b, remote, g, WRITE);
      case List(g) => VisibleAuthorized(a, b, remote, g, READ);
      case Grant(g, identity, perms) => VisibleAuthorized(a, b, remote, g, ADMIN);
      case RotateDek(g) => VisibleAuthorized(a, b, remote, g, ADMIN);
      case GroupAcl(g) => VisibleAuthorized(a, b, remote, g, ADMIN);
      case ListIdentityNames(g) => VisibleAuthorized(a, b, remote, g, ADMIN);
      case ListGroups => SameExplicitGroups(a, b, remote);
      case _ =>
    }
  }

  /** The same of two replicas: here no flag gives any caller more. */
  lemma UniformReplicaAnswers(a: Db, b: Db, own: Endpoint, authoritative: Endpoint, remote: Endpoint, req: Request)
    requires SameWhereVisible(a, b, remote)
    ensures ReplicaAnswer(a, own, authoritative, remote, req) == ReplicaAnswer(b, own, authoritative, remote, req)
    ensures remote !in a.ids ==> ReplicaAnswer(a, own, authoritative, remote, req) == Denied
  {
    match req
    case Get(g, n) => VisibleAuthorized(a, b, remote, g, READ);
    case List(g) => VisibleAuthorized(a, b, remote, g, READ);
    case GroupAcl(g) => VisibleAuthorized(a, b, remote, g, ADMIN);
    case ListIdentityNames(g) => VisibleAuthorized(a, b, remote, g, ADMIN);
    case ListGroups => SameExplicitGroups(a, b, remote);
    case _ =>
  }

  lemma SameExplicitGroups(a: Db, b: Db, e: Endpoint)
    requires SameWhereVisible(a, b, e)
    ensures ExplicitGroups(a, e) == ExplicitGroups(b, e)
  {
    var x := map g | g in a.groups && e in a.groups[g].acl :: a.groups[g].acl[e];
    var y := map g | g in b.groups && e in b.groups[g].acl :: b.groups[g].acl[e];
    assert forall g :: g in x <==> g in y;
    assert x == y;
  }

  /** What a mirror's rows demand of a caller; no flag counts for anything. */
  predicate ReplicaEntitles(mirror: Db, e: Endpoint, req: Request) {
    match req
    case Get(g, n) => e in mirror.ids && HasRow(mirror, e, g, ToRead) && StoredIn(mirror, g, n)
    case List(g) => e in mirror.ids && HasRow(mirror, e, g, ToRead)
    case GroupAcl(g) => e in mirror.ids && HasRow(mirror, e, g, ToAdminister)
    case ListIdentityNames(g) => e in mirror.ids && HasRow(mirror, e, g, ToAdminister)
    case ListIdentities => false
    case _ => e in mirror.ids
  }

  predicate IsRead(req: Request) {
    req.Get? || req.List? || req.ListGroups? || req.GroupAcl? || req.ListIdentityNames? || req.ListIdentities?
  }

  /** A replica denies exactly the callers not entitled, serves reads only, and
      sends every registered caller's mutation to the authoritative node. */
  lemma ReplicaDeniedUnlessEntitled(mirror: Db, own: Endpoint, authoritative: Endpoint, remote: Endpoint, req: Request)
    ensures var answer := ReplicaAnswer(mirror, own, authoritative, remote, req);
            && (answer.Denied? <==> !ReplicaEntitles(mirror, remote, req))
            && (answer.ReadOnlyReplica? <==> remote in mirror.ids && !IsRead(req))
            && (answer.ReadOnlyReplica? ==> answer.authoritative == authoritative)
  {
  }
}
