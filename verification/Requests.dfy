/**
 The request machine of the authoritative node: who may do what, which
 transaction a request commits, what it answers and which groups it
 announces to live sync sessions.
 */
module Requests {
  import opened Base
  import opened Crypto
  import opened Encoding
  import opened Tables
  import opened Transactions

  datatype Request =
    | Get(group: Name, name: Name)
    | Put(group: Name, name: Name, value: Bytes, expected: nat)
    | Delete(group: Name, name: Name, expected: nat)
    | List(group: Name)
    | CreateGroupReq(name: Name)
    | AddIdentityReq(name: Name, parsed: Option<Endpoint>, serviceAdmin: bool)
    | RemoveIdentityReq(name: Name)
    | ListIdentities
    | Grant(group: Name, identity: Name, perms: Perms)
    | RotateDek(group: Name)
    | ListGroups
    | GroupAcl(group: Name)
    | ListIdentityNames(group: Name)
    | SetServiceAdminReq(name: Name, serviceAdmin: bool)

  datatype Reason =
    | Internal
    | GroupExists
    | InvalidEndpoint
    | AlreadyRegistered
    | NoSuchIdentity
    | LastServiceAdmin
    | InvalidPermBits
    | LastGroupAdmin

  /** Listings ordered by a unique name are given as the map or set they list. */
  datatype Response =
    | Denied
    | Ok
    | SecretValue(value: Bytes, version: nat)
    | NewVersion(version: nat)
    | VersionConflict(current: nat)
    | Names(names: map<Name, nat>)
    | Identities(identities: set<(Name, Endpoint, bool)>)
    | Groups(serviceAdmin: bool, groups: map<Name, Perms>)
    | Acl(entries: set<(Name, Perms)>)
    | IdentityNames(identityNames: set<Name>)
    | Failed(reason: Reason)
    | ReadOnlyReplica(authoritative: Endpoint)

  datatype Decision = Decision(tx: Tx, response: Response)

  /** The outcomes the audit log records as "ok". */
  predicate Succeeded(r: Response) {
    !(r.Denied? || r.VersionConflict? || r.Failed? || r.ReadOnlyReplica?)
  }

  // ---- reads, shared with the replica ----

  predicate Authorized(db: Db, e: Endpoint, group: Name, needed: Perms, implicitAdmin: bool) {
    group in db.groups && (implicitAdmin || PermsIn(db.groups[group], e).Covers(needed))
  }

  /** Opens the current version of a secret through one recipient's wrap. */
  function OpenSecret(group: Name, grp: Group, name: Name, recipient: Recipient, key: Key): Option<Bytes>
    requires CurrentOf(grp, name).Some?
  {
    var cur := CurrentOf(grp, name).value;
    if (cur.row.dekVersion, recipient) !in grp.wraps then None
    else
      match Unwrap(grp.wraps[(cur.row.dekVersion, recipient)], key)
      case None => None
      case Some(dek) =>
        Decrypt(dek, SecretAad(group, name, cur.version, cur.row.dekVersion), cur.row.nonce, cur.row.cipher)
  }

  function ReadSecret(db: Db, e: Endpoint, group: Name, name: Name, recipient: Recipient, key: Key, implicitAdmin: bool): Response {
    if !Authorized(db, e, group, READ, implicitAdmin) then Denied
    else if CurrentOf(db.groups[group], name).None? then Denied
    else
      match OpenSecret(group, db.groups[group], name, recipient, key)
      case None => Failed(Internal)
      case Some(value) => SecretValue(value, CurrentOf(db.groups[group], name).value.version)
  }

  function ListSecrets(db: Db, e: Endpoint, group: Name, implicitAdmin: bool): Response {
    if !Authorized(db, e, group, READ, implicitAdmin) then Denied
    else Names(map n | n in db.groups[group].secrets :: db.groups[group].secrets[n].current)
  }

  function AclEntries(db: Db, grp: Group): set<(Name, Perms)> {
    set e | e in grp.acl && e in db.ids :: (db.ids[e].name, grp.acl[e])
  }

  function ListAcl(db: Db, e: Endpoint, group: Name, implicitAdmin: bool): Response {
    if !Authorized(db, e, group, ADMIN, implicitAdmin) then Denied
    else Acl(AclEntries(db, db.groups[group]))
  }

  function ListNames(db: Db, e: Endpoint, group: Name, implicitAdmin: bool): Response {
    if !Authorized(db, e, group, ADMIN, implicitAdmin) then Denied
    else IdentityNames(set f | f in db.ids :: db.ids[f].name)
  }

  function ExplicitGroups(db: Db, e: Endpoint): Response {
    Groups(false, map g | g in db.groups && e in db.groups[g].acl :: db.groups[g].acl[e])
  }

  // ---- writes ----

  /** The store's compare-and-set: the version a write would get, or the conflict. */
  function PutCas(grp: Group, name: Name, expected: nat): Response {
    if name !in grp.secrets && expected != 0 then VersionConflict(0)
    else if VersionOf(grp, name) != expected then VersionConflict(VersionOf(grp, name))
    else NewVersion(VersionOf(grp, name) + 1)
  }

  /** `put` answers some conflicts before it encrypts anything. */
  predicate PutConflictsEarly(grp: Group, name: Name, expected: nat) {
    expected == U64_MAX || (expected + 1 != VersionOf(grp, name) + 1 && expected != 0)
  }

  ghost function DecidePut(db: Db, e: Endpoint, group: Name, name: Name, value: Bytes, expected: nat): Decision
    requires e in db.ids
  {
    if !Authorized(db, e, group, WRITE, db.ids[e].serviceAdmin) then Decision(NoTx, Denied)
    else
      var grp := db.groups[group];
      if grp.deks == {} || (MaxVersion(grp.deks), Operational) !in grp.wraps then Decision(NoTx, Failed(Internal))
      else if PutConflictsEarly(grp, name, expected) then Decision(NoTx, VersionConflict(VersionOf(grp, name)))
      else if Unwrap(grp.wraps[(MaxVersion(grp.deks), Operational)], db.op).None? then Decision(NoTx, Failed(Internal))
      else if !PutCas(grp, name, expected).NewVersion? then Decision(NoTx, PutCas(grp, name, expected))
      else Decision(PutSecret(group, name, value, db.ids[e].name), PutCas(grp, name, expected))
  }

  function DeleteCas(grp: Group, name: Name, expected: nat): Response {
    if name !in grp.secrets then VersionConflict(0)
    else if grp.secrets[name].current != expected then VersionConflict(grp.secrets[name].current)
    else Ok
  }

  function DecideDelete(db: Db, e: Endpoint, group: Name, name: Name, expected: nat): Decision
    requires e in db.ids
  {
    if !Authorized(db, e, group, WRITE, db.ids[e].serviceAdmin) then Decision(NoTx, Denied)
    else if DeleteCas(db.groups[group], name, expected).Ok? then Decision(DeleteSecret(group, name), Ok)
    else Decision(NoTx, DeleteCas(db.groups[group], name, expected))
  }

  // ---- administration ----

  function DecideCreate(db: Db, e: Endpoint, name: Name): Decision
    requires e in db.ids
  {
    if !db.ids[e].serviceAdmin then Decision(NoTx, Denied)
    else if name in db.groups then Decision(NoTx, Failed(GroupExists))
    else Decision(CreateGroup(name, e), Ok)
  }

  ghost function DecideAdd(db: Db, e: Endpoint, name: Name, parsed: Option<Endpoint>, flag: bool): Decision
    requires e in db.ids
  {
    if !db.ids[e].serviceAdmin then Decision(NoTx, Denied)
    else if parsed.None? then Decision(NoTx, Failed(InvalidEndpoint))
    else if parsed.value in db.ids || IdByName(db.ids, name).Some? then Decision(NoTx, Failed(AlreadyRegistered))
    else Decision(AddIdentity(parsed.value, name, flag), Ok)
  }

  ghost function DecideRemove(db: Db, e: Endpoint, name: Name): Decision
    requires e in db.ids
  {
    if !db.ids[e].serviceAdmin then Decision(NoTx, Denied)
    else
      match IdByName(db.ids, name)
      case None => Decision(NoTx, Failed(NoSuchIdentity))
      case Some(target) =>
        if db.ids[target].serviceAdmin && |ServiceAdmins(db)| <= 1 then Decision(NoTx, Failed(LastServiceAdmin))
        else Decision(RemoveIdentity(target), Ok)
  }

  ghost function DecideSetAdmin(db: Db, e: Endpoint, name: Name, flag: bool): Decision
    requires e in db.ids
  {
    if !db.ids[e].serviceAdmin then Decision(NoTx, Denied)
    else
      match IdByName(db.ids, name)
      case None => Decision(NoTx, Failed(NoSuchIdentity))
      case Some(target) =>
        if db.ids[target].serviceAdmin && !flag && |ServiceAdmins(db)| <= 1 then Decision(NoTx, Failed(LastServiceAdmin))
        else Decision(SetServiceAdmin(target, flag), Ok)
  }

  /** Every retained version can be unwrapped with the operational key. */
  predicate AllUnwrap(db: Db, grp: Group) {
    forall v :: v in grp.deks ==>
      (v, Operational) in grp.wraps && Unwrap(grp.wraps[(v, Operational)], db.op).Some?
  }

  function GrantTx(db: Db, group: Name, target: Endpoint, perms: Perms): Decision
    requires group in db.groups
  {
    var grp := db.groups[group];
    if !HasRead(grp, target) && perms.read then
      if AllUnwrap(db, grp) then Decision(GrantWithWraps(group, target, perms), Ok)
      else Decision(NoTx, Failed(Internal))
    else if HasRead(grp, target) && !perms.read then Decision(RevokeAndRotate(group, target, perms), Ok)
    else Decision(SetPerms(group, target, perms), Ok)
  }

  ghost function DecideGrant(db: Db, e: Endpoint, group: Name, identity: Name, perms: Perms): Decision
    requires e in db.ids
  {
    if !Authorized(db, e, group, ADMIN, db.ids[e].serviceAdmin) then Decision(NoTx, Denied)
    else if perms.other != 0 then Decision(NoTx, Failed(InvalidPermBits))
    else
      match IdByName(db.ids, identity)
      case None => Decision(NoTx, Failed(NoSuchIdentity))
      case Some(target) =>
        var grp := db.groups[group];
        if PermsIn(grp, target).admin && !perms.admin && |Admins(grp)| <= 1 then Decision(NoTx, Failed(LastGroupAdmin))
        else GrantTx(db, group, target, perms)
  }

  function DecideRotate(db: Db, e: Endpoint, group: Name): Decision
    requires e in db.ids
  {
    if !Authorized(db, e, group, ADMIN, db.ids[e].serviceAdmin) then Decision(NoTx, Denied)
    else Decision(AddDek(group), Ok)
  }

  function AnswerIdentities(db: Db, e: Endpoint): Response
    requires e in db.ids
  {
    if !db.ids[e].serviceAdmin then Denied
    else Identities(set f | f in db.ids :: (db.ids[f].name, f, db.ids[f].serviceAdmin))
  }

  function AnswerGroups(db: Db, e: Endpoint): Response
    requires e in db.ids
  {
    if !db.ids[e].serviceAdmin then ExplicitGroups(db, e)
    else Groups(true, map g | g in db.groups :: ALL_PERMS)
  }

  ghost function Decide(db: Db, remote: Endpoint, req: Request): Decision {
    if remote !in db.ids then Decision(NoTx, Denied)
    else
      var implicit := db.ids[remote].serviceAdmin;
      match req
      case Get(g, n) => Decision(NoTx, ReadSecret(db, remote, g, n, Operational, db.op, implicit))
      case Put(g, n, value, expected) => DecidePut(db, remote, g, n, value, expected)
      case Delete(g, n, expected) => DecideDelete(db, remote, g, n, expected)
      case List(g) => Decision(NoTx, ListSecrets(db, remote, g, implicit))
      case CreateGroupReq(name) => DecideCreate(db, remote, name)
      case AddIdentityReq(name, parsed, flag) => DecideAdd(db, remote, name, parsed, flag)
      case RemoveIdentityReq(name) => DecideRemove(db, remote, name)
      case ListIdentities => Decision(NoTx, AnswerIdentities(db, remote))
      case Grant(g, identity, perms) => DecideGrant(db, remote, g, identity, perms)
      case RotateDek(g) => DecideRotate(db, remote, g)
      case ListGroups => Decision(NoTx, AnswerGroups(db, remote))
      case GroupAcl(g) => Decision(NoTx, ListAcl(db, remote, g, implicit))
      case ListIdentityNames(g) => Decision(NoTx, ListNames(db, remote, g, implicit))
      case SetServiceAdminReq(name, flag) => DecideSetAdmin(db, remote, name, flag)
  }

  /** A handler commits only what its checks have established. */
  lemma DecideEstablishes(db: Db, remote: Endpoint, req: Request)
    ensures TxOk(db, Decide(db, remote, req).tx)
  {
  }

  // ---- handling one request ----

  datatype Node = Node(db: Db, tick: nat)

  ghost function After(n: Node, remote: Endpoint, req: Request): Node {
    DecideEstablishes(n.db, remote, req);
    Node(Commit(n.db, Decide(n.db, remote, req).tx, n.tick), n.tick + 1)
  }

  ghost function Answer(n: Node, remote: Endpoint, req: Request): Response {
    Decide(n.db, remote, req).response
  }

  /** The groups whose rows a removal is about to touch, resolved before it runs. */
  ghost function RemovalScope(db: Db, req: Request): set<Name> {
    match req
    case RemoveIdentityReq(name) =>
      (match IdByName(db.ids, name)
       case None => {}
       case Some(target) => GroupsOf(db, target))
    case _ => {}
  }

  function TouchedGroups(req: Request, removalScope: set<Name>): set<Name> {
    match req
    case Put(g, _, _, _) => {g}
    case Delete(g, _, _) => {g}
    case Grant(g, _, _) => {g}
    case RotateDek(g) => {g}
    case CreateGroupReq(name) => {name}
    case RemoveIdentityReq(_) => removalScope
    case _ => {}
  }

  ghost function Published(n: Node, remote: Endpoint, req: Request): set<Name> {
    if Succeeded(Answer(n, remote, req)) then TouchedGroups(req, RemovalScope(n.db, req)) else {}
  }
}
