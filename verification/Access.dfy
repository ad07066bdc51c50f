/**
 Who may ask what, and what an accepted request does, read off the rows
 themselves: the identity table, the ACL rows and the secret rows.
 */
module Access {
  import opened Base
  import opened Crypto
  import opened Tables
  import opened Transactions
  import opened Requests

  datatype Right = ToRead | ToWrite | ToAdminister

  predicate Grants(perms: Perms, right: Right) {
    match right
    case ToRead => perms.read
    case ToWrite => perms.write
    case ToAdminister => perms.admin
  }

  /** An ACL row of the endpoint itself carries the bit. */
  predicate HasRow(db: Db, e: Endpoint, g: Name, right: Right) {
    g in db.groups && e in db.groups[g].acl && Grants(db.groups[g].acl[e], right)
  }

  predicate IsServiceAdmin(db: Db, e: Endpoint) {
    e in db.ids && db.ids[e].serviceAdmin
  }

  /** A registered endpoint with the row, or a service admin, on an existing group. */
  predicate May(db: Db, e: Endpoint, g: Name, right: Right) {
    e in db.ids && g in db.groups && (IsServiceAdmin(db, e) || HasRow(db, e, g, right))
  }

  /** The secret exists, with its current row. */
  predicate StoredIn(db: Db, g: Name, name: Name) {
    && g in db.groups && name in db.groups[g].secrets
    && db.groups[g].secrets[name].current in db.groups[g].secrets[name].versions
  }

  /** What each of the fourteen requests demands of its caller. */
  predicate Entitles(db: Db, e: Endpoint, req: Request) {
    match req
    case Get(g, n) => May(db, e, g, ToRead) && StoredIn(db, g, n)
    case List(g) => May(db, e, g, ToRead)
    case Put(g, _, _, _) => May(db, e, g, ToWrite)
    case Delete(g, _, _) => May(db, e, g, ToWrite)
    case Grant(g, _, _) => May(db, e, g, ToAdminister)
    case RotateDek(g) => May(db, e, g, ToAdminister)
    case GroupAcl(g) => May(db, e, g, ToAdminister)
    case ListIdentityNames(g) => May(db, e, g, ToAdminister)
    case CreateGroupReq(_) => IsServiceAdmin(db, e)
    case AddIdentityReq(_, _, _) => IsServiceAdmin(db, e)
    case RemoveIdentityReq(_) => IsServiceAdmin(db, e)
    case SetServiceAdminReq(_, _) => IsServiceAdmin(db, e)
    case ListIdentities => IsServiceAdmin(db, e)
    case ListGroups => e in db.ids
  }

  /** A request is denied exactly when its caller is not entitled to it. */
  lemma DeniedUnlessEntitled(n: Node, remote: Endpoint, req: Request)
    ensures Answer(n, remote, req).Denied? <==> !Entitles(n.db, remote, req)
  {
  }

  // ---- effects, on the rows ----

  /** Nothing but the ACL and the key rows of `g` may differ. */
  ghost predicate OnlyAclOf(db: Db, db': Db, g: Name) {
    && db'.ids == db.ids && db'.groups.Keys == db.groups.Keys && g in db.groups
    && db'.groups[g].secrets == db.groups[g].secrets
    && forall h :: h in db.groups && h != g ==> db'.groups[h] == db.groups[h]
  }

  /** The ACL with the row of `e` set to exactly `perms`, or gone for zero. */
  ghost predicate RowSet(acl: map<Endpoint, Perms>, acl': map<Endpoint, Perms>, e: Endpoint, perms: Perms) {
    && (forall f :: f != e ==> (f in acl' <==> f in acl))
    && (forall f :: f != e && f in acl ==> acl'[f] == acl[f])
    && (e in acl' <==> perms != NO_PERMS)
    && (e in acl' ==> acl'[e] == perms)
  }

  /** The identity so named has exactly these permissions on `g` now, and no
      other row changed. */
  ghost predicate WritesPerms(db: Db, db': Db, g: Name, identity: Name, perms: Perms) {
    && OnlyAclOf(db, db', g)
    && exists e :: e in db.ids && db.ids[e].name == identity && RowSet(db.groups[g].acl, db'.groups[g].acl, e, perms)
  }

  /** An accepted grant writes exactly the permissions it names. */
  lemma GrantWritesPerms(n: Node, remote: Endpoint, g: Name, identity: Name, perms: Perms)
    requires Answer(n, remote, Grant(g, identity, perms)).Ok?
    ensures WritesPerms(n.db, After(n, remote, Grant(g, identity, perms)).db, g, identity, perms)
  {
    var req := Grant(g, identity, perms);
    DecideEstablishes(n.db, remote, req);
    GrantTxWrites(n.db, g, IdByName(n.db.ids, identity).value, perms, n.tick);
  }

  lemma GrantTxWrites(db: Db, g: Name, e: Endpoint, perms: Perms, tick: nat)
    requires g in db.groups && e in db.ids && GrantTx(db, g, e, perms).response.Ok? && TxOk(db, GrantTx(db, g, e, perms).tx)
    ensures WritesPerms(db, Commit(db, GrantTx(db, g, e, perms).tx, tick), g, db.ids[e].name, perms)
  {
    assert RowSet(db.groups[g].acl, Commit(db, GrantTx(db, g, e, perms).tx, tick).groups[g].acl, e, perms);
  }

  /** The version a delete compares with. */
  function StoredVersion(db: Db, g: Name, name: Name): nat {
    if g in db.groups && name in db.groups[g].secrets then db.groups[g].secrets[name].current else 0
  }

  /** A delete is a compare-and-set on the stored version, and removes that
      secret alone. */
  lemma DeleteComparesVersions(n: Node, remote: Endpoint, g: Name, name: Name, expected: nat)
    requires May(n.db, remote, g, ToWrite)
    ensures var answer, db' := Answer(n, remote, Delete(g, name, expected)), After(n, remote, Delete(g, name, expected)).db;
            if name in n.db.groups[g].secrets && n.db.groups[g].secrets[name].current == expected
            then answer.Ok? && db' == n.db.(groups := n.db.groups[g := n.db.groups[g].(secrets := n.db.groups[g].secrets - {name})])
            else answer == VersionConflict(StoredVersion(n.db, g, name)) && db' == n.db
  {
  }

  /** Registering gives the identity the name and flag asked for, and no row on
      any group; creating a group gives its creator, alone, all three bits. */
  lemma RegistrationAndCreation(n: Node, remote: Endpoint, name: Name, e: Endpoint, flag: bool)
    ensures Answer(n, remote, AddIdentityReq(name, Some(e), flag)).Ok? ==>
              var db' := After(n, remote, AddIdentityReq(name, Some(e), flag)).db;
              e !in n.db.ids && db' == n.db.(ids := n.db.ids[e := Identity(name, flag)])
    ensures Answer(n, remote, CreateGroupReq(name)).Ok? ==>
              var db' := After(n, remote, CreateGroupReq(name)).db;
              && name !in n.db.groups && name in db'.groups && db' == n.db.(groups := n.db.groups[name := db'.groups[name]])
              && db'.groups[name].acl == map[remote := Perms(true, true, true, 0)] && db'.groups[name].secrets == map[]
  {
    DecideEstablishes(n.db, remote, AddIdentityReq(name, Some(e), flag));
    DecideEstablishes(n.db, remote, CreateGroupReq(name));
  }

  /** A service-admin edit sets the flag asked for on the identity so named. */
  lemma FlagSetAsAsked(n: Node, remote: Endpoint, name: Name, flag: bool)
    requires Answer(n, remote, SetServiceAdminReq(name, flag)).Ok?
    ensures var db' := After(n, remote, SetServiceAdminReq(name, flag)).db;
            exists e :: e in n.db.ids && n.db.ids[e].name == name && db' == n.db.(ids := n.db.ids[e := Identity(name, flag)])
  {
    DecideEstablishes(n.db, remote, SetServiceAdminReq(name, flag));
    var e := IdByName(n.db.ids, name).value;
    assert n.db.ids[e].(serviceAdmin := flag) == Identity(name, flag);
  }

  // ---- what a listing contains ----

  lemma ListingsListTheRows(n: Node, remote: Endpoint, g: Name)
    ensures var a := Answer(n, remote, List(g));
            !a.Denied? ==> a.Names? && forall s :: (s in a.names <==> s in n.db.groups[g].secrets) && (s in a.names ==> a.names[s] == StoredVersion(n.db, g, s))
    ensures var a := Answer(n, remote, GroupAcl(g));
            !a.Denied? ==> a.Acl? && forall m, p :: (m, p) in a.entries <==>
                             exists e :: e in n.db.groups[g].acl && e in n.db.ids && n.db.ids[e].name == m && n.db.groups[g].acl[e] == p
    ensures var a := Answer(n, remote, ListIdentityNames(g));
            !a.Denied? ==> a.IdentityNames? && forall m :: m in a.identityNames <==> exists e :: e in n.db.ids && n.db.ids[e].name == m
  {
  }

  lemma DirectoryListsTheRows(n: Node, remote: Endpoint)
    ensures var a := Answer(n, remote, ListIdentities);
            !a.Denied? ==> a.Identities? && forall m, e, f :: (m, e, f) in a.identities <==> e in n.db.ids && n.db.ids[e] == Identity(m, f)
    ensures var a := Answer(n, remote, ListGroups);
            !a.Denied? ==>
              && a.Groups? && a.serviceAdmin == IsServiceAdmin(n.db, remote)
              && (a.serviceAdmin ==> a.groups.Keys == n.db.groups.Keys && forall g :: g in a.groups ==> a.groups[g] == Perms(true, true, true, 0))
              && (!a.serviceAdmin ==> forall g ::
                    && (g in a.groups <==> g in n.db.groups && remote in n.db.groups[g].acl)
                    && (g in a.groups ==> a.groups[g] == n.db.groups[g].acl[remote]))
  {
  }

  /** Only groups the request names, or on which the removed identity had a
      row, are announced. */
  lemma AnnouncesOnlyWhatItTouches(n: Node, remote: Endpoint, req: Request, g: Name)
    requires g in Published(n, remote, req)
    ensures (req.Put? || req.Delete? || req.Grant? || req.RotateDek?) ==> req.group == g
    ensures req.CreateGroupReq? ==> req.name == g
    ensures req.RemoveIdentityReq? ==>
              g in n.db.groups && exists e :: e in n.db.groups[g].acl && e in n.db.ids && n.db.ids[e].name == req.name
    ensures req.Put? || req.Delete? || req.Grant? || req.RotateDek? || req.CreateGroupReq? || req.RemoveIdentityReq?
  {
  }
}
