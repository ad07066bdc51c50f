/**
 A bunker without keys: identities, ACL rows and the versions of each secret
 in the clear. The real node refines it. Over every run, maintenance
 included, each of its answers is the plain one; encryption, wrapping and
 rotation never show, and never fail.
 */
module PlainBunker {
  import opened Base
  import opened Crypto
  import opened Tables
  import opened Transactions
  import opened Requests
  import opened Maintenance
  import opened Runs
  import opened Access
  import opened VersionedMap

  datatype Written = Written(value: Bytes, author: Name)
  datatype History = History(current: nat, versions: map<nat, Written>)
  datatype PlainGroup = PlainGroup(acl: map<Endpoint, Perms>, secrets: map<Name, History>)
  datatype Plain = Plain(ids: map<Endpoint, Identity>, groups: map<Name, PlainGroup>, op: Key, backup: Key)

  const ABSENT := History(0, map[])

  // ---- the plain bunker ----

  function HistoryOf(grp: PlainGroup, name: Name): History {
    if name in grp.secrets then grp.secrets[name] else ABSENT
  }

  predicate Can(p: Plain, e: Endpoint, g: Name, right: Right) {
    && e in p.ids && g in p.groups
    && (p.ids[e].serviceAdmin || (e in p.groups[g].acl && Grants(p.groups[g].acl[e], right)))
  }

  /** `e` is the only endpoint with the flag. */
  ghost predicate OnlyServiceAdmin(p: Plain, e: Endpoint) {
    e in p.ids && p.ids[e].serviceAdmin && forall f :: f in p.ids && p.ids[f].serviceAdmin ==> f == e
  }

  ghost predicate OnlyAdminOf(grp: PlainGroup, e: Endpoint) {
    e in grp.acl && grp.acl[e].admin && forall f :: f in grp.acl && grp.acl[f].admin ==> f == e
  }

  ghost function PlainSecretAnswer(p: Plain, remote: Endpoint, req: Request): Response
    requires req.Get? || req.Put? || req.Delete? || req.List?
  {
    if !Can(p, remote, req.group, if req.Get? || req.List? then ToRead else ToWrite) then Denied
    else if req.List? then Names(map n | n in p.groups[req.group].secrets :: p.groups[req.group].secrets[n].current)
    else
      var h := HistoryOf(p.groups[req.group], req.name);
      match req
      case Get(_, _) => if h.current in h.versions then SecretValue(h.versions[h.current].value, h.current) else Denied
      case Put(_, _, _, expected) =>
        if expected == h.current && expected != U64_MAX then NewVersion(h.current + 1) else VersionConflict(h.current)
      case Delete(_, name, expected) =>
        if name in p.groups[req.group].secrets && expected == h.current then Ok else VersionConflict(h.current)
  }

  ghost function PlainGroupAnswer(p: Plain, remote: Endpoint, req: Request): Response
    requires req.Grant? || req.RotateDek? || req.GroupAcl? || req.ListIdentityNames?
  {
    if !Can(p, remote, req.group, ToAdminister) then Denied
    else
      var grp := p.groups[req.group];
      match req
      case Grant(_, identity, perms) =>
        if perms.other != 0 then Failed(InvalidPermBits)
        else if IdByName(p.ids, identity).None? then Failed(NoSuchIdentity)
        else if !perms.admin && OnlyAdminOf(grp, IdByName(p.ids, identity).value) then Failed(LastGroupAdmin)
        else Ok
      case RotateDek(_) => Ok
      case GroupAcl(_) => Acl(set e | e in grp.acl && e in p.ids :: (p.ids[e].name, grp.acl[e]))
      case ListIdentityNames(_) => IdentityNames(set f | f in p.ids :: p.ids[f].name)
  }

  ghost function PlainServiceAnswer(p: Plain, remote: Endpoint, req: Request): Response
    requires req.CreateGroupReq? || req.AddIdentityReq? || req.RemoveIdentityReq? || req.SetServiceAdminReq? || req.ListIdentities?
  {
    if remote !in p.ids || !p.ids[remote].serviceAdmin then Denied
    else
      match req
      case CreateGroupReq(name) => if name in p.groups then Failed(GroupExists) else Ok
      case AddIdentityReq(name, parsed, _) =>
        if parsed.None? then Failed(InvalidEndpoint)
        else if parsed.value in p.ids || IdByName(p.ids, name).Some? then Failed(AlreadyRegistered)
        else Ok
      case RemoveIdentityReq(name) =>
        if IdByName(p.ids, name).None? then Failed(NoSuchIdentity)
        else if OnlyServiceAdmin(p, IdByName(p.ids, name).value) then Failed(LastServiceAdmin)
        else Ok
      case SetServiceAdminReq(name, flag) =>
        if IdByName(p.ids, name).None? then Failed(NoSuchIdentity)
        else if !flag && OnlyServiceAdmin(p, IdByName(p.ids, name).value) then Failed(LastServiceAdmin)
        else Ok
      case ListIdentities => Identities(set f | f in p.ids :: (p.ids[f].name, f, p.ids[f].serviceAdmin))
  }

  ghost function PlainAnswer(p: Plain, remote: Endpoint, req: Request): Response {
    if req.Get? || req.Put? || req.Delete? || req.List? then PlainSecretAnswer(p, remote, req)
    else if req.Grant? || req.RotateDek? || req.GroupAcl? || req.ListIdentityNames? then PlainGroupAnswer(p, remote, req)
    else if !req.ListGroups? then PlainServiceAnswer(p, remote, req)
    else if remote !in p.ids then Denied
    else if p.ids[remote].serviceAdmin then Groups(true, map g | g in p.groups :: Perms(true, true, true, 0))
    else Groups(false, map g | g in p.groups && remote in p.groups[g].acl :: p.groups[g].acl[remote])
  }

  function WithSecret(p: Plain, g: Name, name: Name, h: History): Plain
    requires g in p.groups
  {
    p.(groups := p.groups[g := p.groups[g].(secrets := p.groups[g].secrets[name := h])])
  }

  function WithPerms(p: Plain, g: Name, e: Endpoint, perms: Perms): Plain
    requires g in p.groups
  {
    var acl := p.groups[g].acl;
    p.(groups := p.groups[g := p.groups[g].(acl := if perms == NO_PERMS then acl - {e} else acl[e := perms])])
  }

  ghost function PlainAfter(p: Plain, remote: Endpoint, req: Request): Plain {
    if !Succeeded(PlainAnswer(p, remote, req)) then p
    else
      match req
      case Put(g, name, value, expected) =>
        WithSecret(p, g, name,
                   History(expected + 1, HistoryOf(p.groups[g], name).versions[expected + 1 := Written(value, p.ids[remote].name)]))
      case Delete(g, name, _) => p.(groups := p.groups[g := p.groups[g].(secrets := p.groups[g].secrets - {name})])
      case CreateGroupReq(name) => p.(groups := p.groups[name := PlainGroup(map[remote := Perms(true, true, true, 0)], map[])])
      case AddIdentityReq(name, parsed, flag) => p.(ids := p.ids[parsed.value := Identity(name, flag)])
      case RemoveIdentityReq(name) =>
        var e := IdByName(p.ids, name).value;
        p.(ids := p.ids - {e}, groups := map g | g in p.groups :: p.groups[g].(acl := p.groups[g].acl - {e}))
      case SetServiceAdminReq(name, flag) => p.(ids := p.ids[IdByName(p.ids, name).value := Identity(name, flag)])
      case Grant(g, identity, perms) => WithPerms(p, g, IdByName(p.ids, identity).value, perms)
      case _ => p
  }

  /** A rescue grant needs the recorded key only to hand out read; a recovery
      needs the recorded backup key unless there is nothing to recover. */
  ghost function PlainNext(p: Plain, step: Step): Plain {
    match step
    case Ask(remote, req) => PlainAfter(p, remote, req)
    case Rescue(group, identity, perms, key) =>
      var who := IdByName(p.ids, identity);
      if group !in p.groups || who.None? then p
      else if perms.read && !(who.value in p.groups[group].acl && p.groups[group].acl[who.value].read) && key != Some(p.op) then p
      else WithPerms(p, group, who.value, perms)
    case Recover(backupKey, newOp) => if p.groups == map[] || backupKey == p.backup then p.(op := newOp) else p
  }

  ghost function PlainRun(p: Plain, steps: seq<Step>): Plain {
    if steps == [] then p else PlainNext(PlainRun(p, steps[..|steps| - 1]), steps[|steps| - 1])
  }

  // ---- forgetting the keys ----

  function ForgetSecret(s: Secret): History {
    History(s.current, map v | v in s.versions :: Written(s.versions[v].cipher.plain, s.versions[v].author))
  }

  function ForgetGroup(grp: Group): PlainGroup {
    PlainGroup(grp.acl, map n | n in grp.secrets :: ForgetSecret(grp.secrets[n]))
  }

  function Forget(db: Db): Plain {
    Plain(db.ids, map g | g in db.groups :: ForgetGroup(db.groups[g]), db.op, db.backup)
  }

  // ---- every answer is the plain one ----

  lemma OnlyOne(s: set<Endpoint>, e: Endpoint)
    requires e in s
    ensures |s| <= 1 <==> forall f :: f in s ==> f == e
  {
    if forall f :: f in s ==> f == e {
      assert s == {e};
    } else {
      var f :| f in s && f != e;
      assert {e, f} <= s;
      assert s == {e, f} + (s - {e, f});
    }
  }

  lemma SameAnswerOnSecrets(n: Node, remote: Endpoint, req: Request)
    requires Inv(n) && (req.Get? || req.Put? || req.Delete? || req.List?)
    ensures Answer(n, remote, req) == PlainSecretAnswer(Forget(n.db), remote, req)
  {
    var g := req.group;
    if g in n.db.groups && !req.List? {
      SecretReady(n, g, req.name);
      if req.Get? && CurrentOf(n.db.groups[g], req.name).Some? {
        OperationalOpens(n, g, req.name);
      }
    }
    SecretAnswers(n, remote, req);
  }

  /** What the invariant gives about one secret. */
  ghost predicate Ready(n: Node, grp: Group, g: Name, name: Name) {
    && CanSeal(n.db, grp, name)
    && (name in grp.secrets ==> grp.secrets[name].current in grp.secrets[name].versions)
  }

  lemma SecretReady(n: Node, g: Name, name: Name)
    requires Inv(n) && g in n.db.groups
    ensures Ready(n, n.db.groups[g], g, name)
  {
    WriteReady(n, g, name);
    assert GroupInv(n.db, g, n.tick);
  }

  lemma SecretAnswers(n: Node, remote: Endpoint, req: Request)
    requires req.Get? || req.Put? || req.Delete? || req.List?
    requires req.group in n.db.groups && !req.List? ==> Ready(n, n.db.groups[req.group], req.group, req.name)
    requires req.Get? && req.group in n.db.groups && CurrentOf(n.db.groups[req.group], req.name).Some? ==>
               OpenSecret(req.group, n.db.groups[req.group], req.name, Operational, n.db.op)
               == Some(CurrentOf(n.db.groups[req.group], req.name).value.row.cipher.plain)
    ensures Answer(n, remote, req) == PlainSecretAnswer(Forget(n.db), remote, req)
  {
  }

  lemma LastAdminIsOnly(grp: Group, e: Endpoint)
    ensures PermsIn(grp, e).admin && |Admins(grp)| <= 1 <==> OnlyAdminOf(ForgetGroup(grp), e)
  {
    assert forall f :: f in Admins(grp) <==> f in grp.acl && grp.acl[f].admin;
    if e in Admins(grp) {
      OnlyOne(Admins(grp), e);
    }
  }

  lemma LastServiceAdminIsOnly(db: Db, e: Endpoint)
    requires e in db.ids
    ensures db.ids[e].serviceAdmin && |ServiceAdmins(db)| <= 1 <==> OnlyServiceAdmin(Forget(db), e)
  {
    assert forall f :: f in ServiceAdmins(db) <==> f in db.ids && db.ids[f].serviceAdmin;
    if e in ServiceAdmins(db) {
      OnlyOne(ServiceAdmins(db), e);
    }
  }

  lemma SameAnswerOnGrant(n: Node, remote: Endpoint, g: Name, identity: Name, perms: Perms)
    requires Inv(n)
    ensures Answer(n, remote, Grant(g, identity, perms)) == PlainGroupAnswer(Forget(n.db), remote, Grant(g, identity, perms))
  {
    if g in n.db.groups {
      EverythingUnwraps(n, g);
      if IdByName(n.db.ids, identity).Some? {
        LastAdminIsOnly(n.db.groups[g], IdByName(n.db.ids, identity).value);
      }
    }
    GrantAnswers(n.db, remote, g, identity, perms);
  }

  lemma GrantAnswers(db: Db, remote: Endpoint, g: Name, identity: Name, perms: Perms)
    requires g in db.groups ==> AllUnwrap(db, db.groups[g])
    requires g in db.groups && IdByName(db.ids, identity).Some? ==>
               var grp, e := db.groups[g], IdByName(db.ids, identity).value;
               PermsIn(grp, e).admin && |Admins(grp)| <= 1 <==> OnlyAdminOf(ForgetGroup(grp), e)
    ensures Decide(db, remote, Grant(g, identity, perms)).response == PlainGroupAnswer(Forget(db), remote, Grant(g, identity, perms))
  {
  }

  lemma SameAnswerOnGroups(n: Node, remote: Endpoint, req: Request)
    requires Inv(n) && (req.Grant? || req.RotateDek? || req.GroupAcl? || req.ListIdentityNames?)
    ensures Answer(n, remote, req) == PlainGroupAnswer(Forget(n.db), remote, req)
  {
    if req.Grant? {
      SameAnswerOnGrant(n, remote, req.group, req.identity, req.perms);
    } else {
      SameAnswerOnListings(n, remote, req);
    }
  }

  lemma SameAnswerOnListings(n: Node, remote: Endpoint, req: Request)
    requires req.RotateDek? || req.GroupAcl? || req.ListIdentityNames?
    ensures Answer(n, remote, req) == PlainGroupAnswer(Forget(n.db), remote, req)
  {
  }

  lemma EverythingUnwraps(n: Node, g: Name)
    requires Inv(n) && g in n.db.groups
    ensures AllUnwrap(n.db, n.db.groups[g])
  {
    var grp := n.db.groups[g];
    assert GroupInv(n.db, g, n.tick);
    forall v | v in grp.deks
      ensures (v, Operational) in grp.wraps && Unwrap(grp.wraps[(v, Operational)], n.db.op).Some?
    {
      var k := (v, Operational);
      assert Entitled(grp, Operational);
      assert k in grp.wraps;
    }
  }

  lemma SameAnswerOnService(n: Node, remote: Endpoint, req: Request)
    requires req.CreateGroupReq? || req.AddIdentityReq? || req.RemoveIdentityReq? || req.SetServiceAdminReq? || req.ListIdentities?
    ensures Answer(n, remote, req) == PlainServiceAnswer(Forget(n.db), remote, req)
  {
    if (req.RemoveIdentityReq? || req.SetServiceAdminReq?) && IdByName(n.db.ids, req.name).Some? {
      LastServiceAdminIsOnly(n.db, IdByName(n.db.ids, req.name).value);
    }
  }

  lemma SameGroupList(n: Node, remote: Endpoint)
    ensures Answer(n, remote, ListGroups) == PlainAnswer(Forget(n.db), remote, ListGroups)
  {
  }

  /** Each of the fourteen requests gets the plain answer, in any sound state. */
  lemma AnswersPlainly(n: Node, remote: Endpoint, req: Request)
    requires Inv(n)
    ensures Answer(n, remote, req) == PlainAnswer(Forget(n.db), remote, req)
  {
    if req.Get? || req.Put? || req.Delete? || req.List? {
      SameAnswerOnSecrets(n, remote, req);
    } else if req.Grant? || req.RotateDek? || req.GroupAcl? || req.ListIdentityNames? {
      SameAnswerOnGroups(n, remote, req);
    } else if req.ListGroups? {
      SameGroupList(n, remote);
    } else {
      SameAnswerOnService(n, remote, req);
    }
  }

  // ---- every effect is the plain one ----

  lemma ForgetEdit(db: Db, g: Name, grp: Group)
    ensures Forget(db.(groups := db.groups[g := grp])) == Forget(db).(groups := Forget(db).groups[g := ForgetGroup(grp)])
  {
    var a, b := Forget(db.(groups := db.groups[g := grp])).groups, Forget(db).groups[g := ForgetGroup(grp)];
    assert a.Keys == b.Keys;
    assert forall h :: h in a ==> a[h] == b[h];
  }

  lemma ForgetKeys(a: Group, b: Group)
    requires a.secrets == b.secrets && a.acl == b.acl
    ensures ForgetGroup(a) == ForgetGroup(b)
  {
  }

  lemma ForgetPut(grp: Group, name: Name, row: Row)
    ensures var h := HistoryOf(ForgetGroup(grp), name);
            var r := grp.(secrets := grp.secrets[name := Stored(SecretIn(grp, name), row)]);
            ForgetGroup(r) == ForgetGroup(grp).(
              secrets := ForgetGroup(grp).secrets[name := History(h.current + 1, h.versions[h.current + 1 := Written(row.cipher.plain, row.author)])])
  {
    var h, s := HistoryOf(ForgetGroup(grp), name), Stored(SecretIn(grp, name), row);
    assert ForgetSecret(s).versions == h.versions[h.current + 1 := Written(row.cipher.plain, row.author)];
    var r := grp.(secrets := grp.secrets[name := s]);
    assert ForgetGroup(r).secrets == ForgetGroup(grp).secrets[name := ForgetSecret(s)];
  }

  /** What a committed transaction leaves, keys forgotten. */
  ghost function PlainCommit(p: Plain, tx: Tx): Plain
    requires tx.PutSecret? || tx.DeleteSecret? || tx.SetPerms? || tx.GrantWithWraps? || tx.RevokeAndRotate? ==> tx.g in p.groups
  {
    match tx
    case PutSecret(g, name, value, author) =>
      var h := HistoryOf(p.groups[g], name);
      WithSecret(p, g, name, History(h.current + 1, h.versions[h.current + 1 := Written(value, author)]))
    case DeleteSecret(g, name) => p.(groups := p.groups[g := p.groups[g].(secrets := p.groups[g].secrets - {name})])
    case SetPerms(g, e, perms) => WithPerms(p, g, e, perms)
    case GrantWithWraps(g, e, perms) => WithPerms(p, g, e, perms)
    case RevokeAndRotate(g, e, perms) => WithPerms(p, g, e, perms)
    case CreateGroup(g, e) => p.(groups := p.groups[g := PlainGroup(map[e := Perms(true, true, true, 0)], map[])])
    case AddIdentity(e, name, flag) => p.(ids := p.ids[e := Identity(name, flag)])
    case RemoveIdentity(e) => p.(ids := p.ids - {e}, groups := map g | g in p.groups :: p.groups[g].(acl := p.groups[g].acl - {e}))
    case SetServiceAdmin(e, flag) => p.(ids := map f | f in p.ids :: if f == e then Identity(p.ids[f].name, flag) else p.ids[f])
    case _ => p
  }

  lemma CommitForgets(db: Db, tx: Tx, tick: nat)
    requires TxOk(db, tx)
    ensures Forget(Commit(db, tx, tick)) == PlainCommit(Forget(db), tx)
  {
    match tx
    case PutSecret(g, name, value, author) =>
      ForgetPut(db.groups[g], name, NewRow(g, db.groups[g], name, value, author, tick));
      ForgetEdit(db, g, PutIn(g, db.groups[g], name, value, author, tick));
    case RemoveIdentity(e) => RemoveForgets(db, e, tick);
    case NoTx =>
    case AddIdentity(_, _, _) =>
    case SetServiceAdmin(_, _) => FlagForgets(db, tx, tick);
    case _ => EditForgets(db, tx, tick);
  }

  lemma FlagForgets(db: Db, tx: Tx, tick: nat)
    requires tx.SetServiceAdmin? && TxOk(db, tx)
    ensures Forget(Commit(db, tx, tick)) == PlainCommit(Forget(db), tx)
  {
    assert Commit(db, tx, tick).ids == PlainCommit(Forget(db), tx).ids;
  }

  lemma RemoveForgets(db: Db, e: Endpoint, tick: nat)
    requires e in db.ids
    ensures Forget(Commit(db, RemoveIdentity(e), tick)) == PlainCommit(Forget(db), RemoveIdentity(e))
  {
    var a, b := Forget(Commit(db, RemoveIdentity(e), tick)).groups, PlainCommit(Forget(db), RemoveIdentity(e)).groups;
    forall g | g in db.groups
      ensures a[g] == b[g]
    {
      RemovedRows(db.op, db.backup, db.groups[g], e, Dek(tick, g));
    }
    assert a.Keys == b.Keys;
  }

  lemma RemovedRows(op: Key, backup: Key, grp: Group, e: Endpoint, dek: Dek)
    ensures ForgetGroup(RemoveFrom(op, backup, grp, e, dek)) == ForgetGroup(grp).(acl := grp.acl - {e})
  {
    ForgetKeys(RemoveFrom(op, backup, grp, e, dek), grp.(acl := grp.acl - {e}));
    ForgetKeys(grp.(acl := grp.acl - {e}), RemoveFrom(op, backup, grp, e, dek));
  }

  lemma EditForgets(db: Db, tx: Tx, tick: nat)
    requires TxOk(db, tx) && (tx.SetPerms? || tx.GrantWithWraps? || tx.RevokeAndRotate? || tx.AddDek? || tx.CreateGroup? || tx.DeleteSecret?)
    ensures Forget(Commit(db, tx, tick)) == PlainCommit(Forget(db), tx)
  {
    var r := Commit(db, tx, tick).groups[tx.g];
    assert Commit(db, tx, tick) == db.(groups := db.groups[tx.g := r]);
    ForgetEdit(db, tx.g, r);
    if !tx.CreateGroup? {
      EditedGroup(db.groups[tx.g], r, Forget(db), tx);
    }
  }

  lemma EditedGroup(grp: Group, r: Group, p: Plain, tx: Tx)
    requires tx.SetPerms? || tx.GrantWithWraps? || tx.RevokeAndRotate? || tx.AddDek? || tx.DeleteSecret?
    requires tx.g in p.groups && p.groups[tx.g] == ForgetGroup(grp)
    requires r.acl == if tx.AddDek? || tx.DeleteSecret? then grp.acl else if tx.perms == NO_PERMS then grp.acl - {tx.e} else grp.acl[tx.e := tx.perms]
    requires r.secrets == if tx.DeleteSecret? then grp.secrets - {tx.name} else grp.secrets
    ensures p.(groups := p.groups[tx.g := ForgetGroup(r)]) == PlainCommit(p, tx)
  {
    if tx.DeleteSecret? {
      assert ForgetGroup(r).secrets == ForgetGroup(grp).secrets - {tx.name};
    } else if tx.AddDek? {
      assert p.groups[tx.g := ForgetGroup(r)] == p.groups;
    }
  }

  /** A request that is refused, or that only reads or rotates, decides on
      nothing the plain bunker would see. */
  lemma DecidesNothing(n: Node, remote: Endpoint, req: Request)
    requires !Succeeded(Answer(n, remote, req)) || !(req.Put? || req.Delete? || req.Grant? || req.CreateGroupReq? ||
               req.AddIdentityReq? || req.RemoveIdentityReq? || req.SetServiceAdminReq?)
    ensures var tx := Decide(n.db, remote, req).tx; tx.NoTx? || tx.AddDek?
  {
  }

  /** What each accepted mutation decides on. */
  lemma Decides(n: Node, remote: Endpoint, req: Request)
    requires Succeeded(Answer(n, remote, req))
    ensures var tx := Decide(n.db, remote, req).tx;
            match req
            case Put(g, name, value, expected) =>
              && Answer(n, remote, req) == NewVersion(expected + 1) && remote in n.db.ids
              && g in n.db.groups && VersionOf(n.db.groups[g], name) == expected
              && tx == PutSecret(g, name, value, n.db.ids[remote].name)
            case Delete(g, name, _) => tx == DeleteSecret(g, name)
            case Grant(g, identity, perms) =>
              && IdByName(n.db.ids, identity).Some?
              && (tx.SetPerms? || tx.GrantWithWraps? || tx.RevokeAndRotate?)
              && tx.g == g && tx.e == IdByName(n.db.ids, identity).value && tx.perms == perms
            case CreateGroupReq(name) => tx == CreateGroup(name, remote)
            case AddIdentityReq(name, parsed, flag) => parsed.Some? && tx == AddIdentity(parsed.value, name, flag)
            case RemoveIdentityReq(name) => IdByName(n.db.ids, name).Some? && tx == RemoveIdentity(IdByName(n.db.ids, name).value)
            case SetServiceAdminReq(name, flag) =>
              IdByName(n.db.ids, name).Some? && tx == SetServiceAdmin(IdByName(n.db.ids, name).value, flag)
            case _ => true
  {
  }

  /** The transaction a request decides on is the plain effect of its answer. */
  lemma DecidesPlainly(n: Node, remote: Endpoint, req: Request)
    requires Answer(n, remote, req) == PlainAnswer(Forget(n.db), remote, req)
    requires TxOk(n.db, Decide(n.db, remote, req).tx)
    ensures PlainCommit(Forget(n.db), Decide(n.db, remote, req).tx) == PlainAfter(Forget(n.db), remote, req)
  {
    if !Succeeded(Answer(n, remote, req)) {
      DecidesNothing(n, remote, req);
    } else {
      Decides(n, remote, req);
      match req
      case Put(g, name, _, _) => assert HistoryOf(Forget(n.db).groups[g], name).current == VersionOf(n.db.groups[g], name);
      case SetServiceAdminReq(name, flag) =>
        var ids, e := n.db.ids, IdByName(n.db.ids, name).value;
        assert (map f | f in ids :: if f == e then Identity(ids[f].name, flag) else ids[f]) == ids[e := Identity(name, flag)];
      case Delete(_, _, _) =>
      case Grant(_, _, _) =>
      case CreateGroupReq(_) =>
      case AddIdentityReq(_, _, _) =>
      case RemoveIdentityReq(_) =>
      case _ => DecidesNothing(n, remote, req);
    }
  }

  /** One request: the plain answer and the plain effect. */
  lemma StepRefines(n: Node, remote: Endpoint, req: Request)
    requires Inv(n)
    ensures Answer(n, remote, req) == PlainAnswer(Forget(n.db), remote, req)
    ensures Forget(After(n, remote, req).db) == PlainAfter(Forget(n.db), remote, req)
  {
    AnswersPlainly(n, remote, req);
    var tx := TxOf(n, remote, req);
    CommitForgets(n.db, tx, n.tick);
    DecidesPlainly(n, remote, req);
  }

  // ---- whole runs ----

  /** The recorded backup key always recovers, and no other key does once there
      is a group. */
  lemma RecoverableIff(db: Db, tick: nat, key: Key)
    requires DbInv(db, tick)
    ensures Recoverable(db.groups, key) <==> db.groups == map[] || key == db.backup
  {
    forall r | r in BackupRows(db.groups)
      ensures (r.1, Operational) in db.groups[r.0].wraps && db.groups[r.0].wraps[(r.1, Backup)].to == db.backup
    {
      BackupRow(db, tick, r.0, r.1);
    }
    if g :| g in db.groups {
      var v := SomeBackupRow(db, tick, g);
      assert (g, v) in BackupRows(db.groups) by { assert (v, Backup) in db.groups[g].wraps; }
    } else {
      assert db.groups == map[];
    }
  }

  lemma BackupRow(db: Db, tick: nat, g: Name, v: nat)
    requires DbInv(db, tick) && g in db.groups && (v, Backup) in db.groups[g].wraps
    ensures (v, Operational) in db.groups[g].wraps && db.groups[g].wraps[(v, Backup)].to == db.backup
  {
    assert GroupInv(db, g, tick);
    var k := (v, Backup);
    assert k in db.groups[g].wraps;
  }

  lemma SomeBackupRow(db: Db, tick: nat, g: Name) returns (v: nat)
    requires DbInv(db, tick) && g in db.groups
    ensures (v, Backup) in db.groups[g].wraps
  {
    assert GroupInv(db, g, tick);
    v :| v in db.groups[g].deks;
    assert Entitled(db.groups[g], Backup);
  }

  lemma RecoveryForgets(db: Db, newOp: Key)
    ensures Forget(Recovered(db, newOp)) == Forget(db).(op := newOp)
  {
    forall g | g in db.groups
      ensures ForgetGroup(RecoveredGroup(db.groups[g], newOp)) == ForgetGroup(db.groups[g])
    {
      ForgetKeys(RecoveredGroup(db.groups[g], newOp), db.groups[g]);
    }
    assert Forget(Recovered(db, newOp)).groups == Forget(db).groups;
  }

  lemma RescueRefines(n: Node, step: Step)
    requires Inv(n) && step.Rescue?
    ensures Forget(Next(n, step).db) == PlainNext(Forget(n.db), step)
  {
    if step.group in n.db.groups && IdByName(n.db.ids, step.identity).Some? {
      EverythingUnwraps(n, step.group);
      if CanGrant(n.db, step.group, step.identity, step.perms, step.key) {
        RescueWrites(n.db, step.group, step.identity, step.perms, step.key, n.tick);
      }
    }
    RescueAllowed(n, step);
  }

  /** A rescue grant writes exactly the permissions it names. */
  lemma RescueWrites(db: Db, group: Name, identity: Name, perms: Perms, key: Option<Key>, tick: nat)
    requires CanGrant(db, group, identity, perms, key)
    ensures TxOk(db, RescueTx(db, group, identity, perms))
    ensures Forget(Commit(db, RescueTx(db, group, identity, perms), tick))
         == WithPerms(Forget(db), group, IdByName(db.ids, identity).value, perms)
  {
    RescueOk(db, group, identity, perms, key);
    CommitForgets(db, RescueTx(db, group, identity, perms), tick);
  }

  lemma RescueAllowed(n: Node, step: Step)
    requires step.Rescue?
    requires step.group in n.db.groups ==> AllUnwrap(n.db, n.db.groups[step.group])
    requires CanGrant(n.db, step.group, step.identity, step.perms, step.key) ==>
               Forget(Next(n, step).db) == WithPerms(Forget(n.db), step.group, IdByName(n.db.ids, step.identity).value, step.perms)
    ensures Forget(Next(n, step).db) == PlainNext(Forget(n.db), step)
  {
  }

  lemma NextRefines(n: Node, step: Step)
    requires Inv(n)
    ensures Forget(Next(n, step).db) == PlainNext(Forget(n.db), step)
  {
    match step
    case Ask(remote, req) => StepRefines(n, remote, req);
    case Rescue(_, _, _, _) => RescueRefines(n, step);
    case Recover(backupKey, newOp) =>
      RecoverableIff(n.db, n.tick, backupKey);
      RecoveryForgets(n.db, newOp);
  }

  /** Refinement: after every run the node, keys forgotten, is where the plain
      bunker is, and gives the plain answer to every request. */
  lemma {:induction false} RunRefines(n: Node, steps: seq<Step>, remote: Endpoint, req: Request)
    requires Inv(n)
    ensures Forget(Run(n, steps).db) == PlainRun(Forget(n.db), steps)
    ensures Answer(Run(n, steps), remote, req) == PlainAnswer(PlainRun(Forget(n.db), steps), remote, req)
  {
    RunKeepsInv(n, steps);
    if steps != [] {
      var before := steps[..|steps| - 1];
      RunRefines(n, before, remote, req);
      RunKeepsInv(n, before);
      NextRefines(Run(n, before), steps[|steps| - 1]);
    }
    StepRefines(Run(n, steps), remote, req);
  }

  /** In particular no reachable state ever answers with an internal error. */
  lemma NeverAnInternalError(n: Node, steps: seq<Step>, remote: Endpoint, req: Request)
    requires Inv(n)
    ensures Answer(Run(n, steps), remote, req) != Failed(Internal)
  {
    RunRefines(n, steps, remote, req);
  }
}
