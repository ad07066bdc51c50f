/**
 What each store transaction does to the tables. `TxOk` is what a request
 handler has established by the time it commits one.
 */
module Transactions {
  import opened Base
  import opened Crypto
  import opened Encoding
  import opened Tables

  datatype Tx =
    | NoTx
    | AddIdentity(e: Endpoint, name: Name, flag: bool)
    | RemoveIdentity(e: Endpoint)
    | SetServiceAdmin(e: Endpoint, flag: bool)
    | SetPerms(g: Name, e: Endpoint, perms: Perms)
    | GrantWithWraps(g: Name, e: Endpoint, perms: Perms)
    | RevokeAndRotate(g: Name, e: Endpoint, perms: Perms)
    | AddDek(g: Name)
    | CreateGroup(g: Name, e: Endpoint)
    | PutSecret(g: Name, name: Name, value: Bytes, author: Name)
    | DeleteSecret(g: Name, name: Name)

  // ---- building blocks ----

  /** Writing permission zero deletes the row. */
  function SetAcl(acl: map<Endpoint, Perms>, e: Endpoint, perms: Perms): map<Endpoint, Perms> {
    if perms == NO_PERMS then acl - {e} else acl[e := perms]
  }

  function Recipients(readers: set<Endpoint>): set<Recipient> {
    {Operational, Backup} + set e | e in readers :: Reader(e)
  }

  /** The full wrap set of one DEK version. */
  function WrapSet(op: Key, backup: Key, dek: Dek, version: nat, readers: set<Endpoint>): map<(nat, Recipient), Wrap> {
    map r | r in Recipients(readers) :: (version, r) := Wrap(dek, KeyFor(op, backup, r))
  }

  /** Appends the next DEK version with its wraps. */
  ghost function Rotate(op: Key, backup: Key, grp: Group, dek: Dek, readers: set<Endpoint>): Group {
    var next := NextVersion(grp.deks);
    grp.(deks := grp.deks + {next}, wraps := grp.wraps + WrapSet(op, backup, dek, next, readers))
  }

  function DropWraps(wraps: map<(nat, Recipient), Wrap>, e: Endpoint): map<(nat, Recipient), Wrap> {
    map k | k in wraps && k.1 != Reader(e) :: wraps[k]
  }

  /** Every retained DEK version, wrapped to a new reader. */
  function ReaderWraps(grp: Group, e: Endpoint): map<(nat, Recipient), Wrap> {
    map v | v in grp.deks && (v, Operational) in grp.wraps :: (v, Reader(e)) := Wrap(DekOf(grp, v), EndpointKey(e))
  }

  ghost function RevokeIn(op: Key, backup: Key, grp: Group, e: Endpoint, perms: Perms, dek: Dek): Group {
    Rotate(op, backup,
           grp.(acl := SetAcl(grp.acl, e, perms), wraps := DropWraps(grp.wraps, e)),
           dek, Readers(grp) - {e})
  }

  /** A group's share of an identity removal: the ACL row cascades away, and
      a group the identity could read is rotated. */
  ghost function RemoveFrom(op: Key, backup: Key, grp: Group, e: Endpoint, dek: Dek): Group {
    if HasRead(grp, e) then RevokeIn(op, backup, grp, e, NO_PERMS, dek)
    else grp.(acl := grp.acl - {e})
  }

  function NewGroup(op: Key, backup: Key, dek: Dek, e: Endpoint): Group {
    Group(map[e := ALL_PERMS], {1}, WrapSet(op, backup, dek, 1, {e}), map[])
  }

  function Stored(s: Option<Secret>, row: Row): Secret {
    match s
    case None => Secret(1, map[1 := row])
    case Some(prior) => Secret(prior.current + 1, prior.versions[prior.current + 1 := row])
  }

  function SecretIn(grp: Group, name: Name): Option<Secret> {
    if name in grp.secrets then Some(grp.secrets[name]) else None
  }

  /** The row a write stores: sealed under the current DEK, for the next version. */
  ghost function NewRow(g: Name, grp: Group, name: Name, value: Bytes, author: Name, tick: nat): Row
    requires grp.deks != {} && (MaxVersion(grp.deks), Operational) in grp.wraps
  {
    var d := MaxVersion(grp.deks);
    Row(d, tick, Sealed(DekOf(grp, d), SecretAad(g, name, VersionOf(grp, name) + 1, d), tick, value), author)
  }

  ghost function PutIn(g: Name, grp: Group, name: Name, value: Bytes, author: Name, tick: nat): Group
    requires grp.deks != {} && (MaxVersion(grp.deks), Operational) in grp.wraps
  {
    grp.(secrets := grp.secrets[name := Stored(SecretIn(grp, name), NewRow(g, grp, name, value, author, tick))])
  }

  // ---- transactions ----

  ghost predicate TxOk(db: Db, tx: Tx) {
    match tx
    case NoTx => true
    case AddIdentity(e, name, _) => e !in db.ids && forall f :: f in db.ids ==> db.ids[f].name != name
    case RemoveIdentity(e) => e in db.ids
    case SetServiceAdmin(e, _) => e in db.ids
    case SetPerms(g, e, perms) => g in db.groups && e in db.ids && HasRead(db.groups[g], e) == perms.read
    case GrantWithWraps(g, e, perms) =>
      && g in db.groups && e in db.ids && !HasRead(db.groups[g], e) && perms.read
      && forall v :: v in db.groups[g].deks ==> (v, Operational) in db.groups[g].wraps
    case RevokeAndRotate(g, e, perms) => g in db.groups && e in db.ids && HasRead(db.groups[g], e) && !perms.read
    case AddDek(g) => g in db.groups
    case CreateGroup(g, e) => g !in db.groups && e in db.ids
    case PutSecret(g, _, _, _) =>
      && g in db.groups && db.groups[g].deks != {}
      && (MaxVersion(db.groups[g].deks), Operational) in db.groups[g].wraps
    case DeleteSecret(g, name) => g in db.groups && name in db.groups[g].secrets
  }

  ghost function Commit(db: Db, tx: Tx, tick: nat): Db
    requires TxOk(db, tx)
  {
    match tx
    case NoTx => db
    case AddIdentity(e, name, flag) => db.(ids := db.ids[e := Identity(name, flag)])
    case RemoveIdentity(e) =>
      db.(ids := db.ids - {e},
          groups := map g | g in db.groups :: RemoveFrom(db.op, db.backup, db.groups[g], e, Dek(tick, g)))
    case SetServiceAdmin(e, flag) => db.(ids := db.ids[e := db.ids[e].(serviceAdmin := flag)])
    case SetPerms(g, e, perms) =>
      db.(groups := db.groups[g := db.groups[g].(acl := SetAcl(db.groups[g].acl, e, perms))])
    case GrantWithWraps(g, e, perms) =>
      db.(groups := db.groups[g := db.groups[g].(
                                     acl := db.groups[g].acl[e := perms],
                                     wraps := db.groups[g].wraps + ReaderWraps(db.groups[g], e))])
    case RevokeAndRotate(g, e, perms) =>
      db.(groups := db.groups[g := RevokeIn(db.op, db.backup, db.groups[g], e, perms, Dek(tick, g))])
    case AddDek(g) =>
      db.(groups := db.groups[g := Rotate(db.op, db.backup, db.groups[g], Dek(tick, g), Readers(db.groups[g]))])
    case CreateGroup(g, e) =>
      db.(groups := db.groups[g := NewGroup(db.op, db.backup, Dek(tick, g), e)])
    case PutSecret(g, name, value, author) =>
      db.(groups := db.groups[g := PutIn(g, db.groups[g], name, value, author, tick)])
    case DeleteSecret(g, name) =>
      db.(groups := db.groups[g := db.groups[g].(secrets := db.groups[g].secrets - {name})])
  }

  // ---- every transaction keeps the database invariant ----

  lemma WrapSetKeys(op: Key, backup: Key, dek: Dek, version: nat, readers: set<Endpoint>)
    ensures forall v: nat, r :: (v, r) in WrapSet(op, backup, dek, version, readers) <==>
              v == version && (r.Operational? || r.Backup? || r.endpoint in readers)
    ensures forall k :: k in WrapSet(op, backup, dek, version, readers) ==>
              WrapSet(op, backup, dek, version, readers)[k] == Wrap(dek, KeyFor(op, backup, k.1))
  {
    var w := WrapSet(op, backup, dek, version, readers);
    forall v: nat, r: Recipient
      ensures (v, r) in w <==> v == version && (r.Operational? || r.Backup? || r.endpoint in readers)
    {
      assert r in Recipients(readers) <==> r.Operational? || r.Backup? || r.endpoint in readers;
    }
  }

  /** `r` holds every DEK version of `grp` under the same DEK. */
  ghost predicate KeepsDeks(grp: Group, r: Group) {
    && grp.deks <= r.deks
    && forall v :: (v, Operational) in grp.wraps ==> (v, Operational) in r.wraps && DekOf(r, v) == DekOf(grp, v)
  }

  lemma SealedStays(g: Name, grp: Group, r: Group, tick: nat)
    requires SecretsSealed(g, grp, tick) && KeepsDeks(grp, r)
    requires forall n :: n in r.secrets ==> n in grp.secrets && r.secrets[n] == grp.secrets[n]
    ensures SecretsSealed(g, r, tick + 1)
  {
    forall n, v | n in r.secrets && v in r.secrets[n].versions
      ensures RowSealed(g, r, n, v, r.secrets[n].versions[v], tick + 1)
    {
      assert RowSealed(g, grp, n, v, grp.secrets[n].versions[v], tick);
    }
  }

  /** `w` is a complete wrap set of `dek` at `version` for the readers of `grp`. */
  ghost predicate CompleteFor(w: map<(nat, Recipient), Wrap>, grp: Group, op: Key, backup: Key, dek: Dek, version: nat) {
    && (forall v: nat, r :: (v, r) in w <==> v == version && Entitled(grp, r))
    && (forall k :: k in w ==> w[k] == Wrap(dek, KeyFor(op, backup, k.1)))
  }

  lemma ExtendExact(grp: Group, r: Group, w: map<(nat, Recipient), Wrap>, op: Key, backup: Key, dek: Dek, next: nat)
    requires WrapsExact(grp) && next !in grp.deks
    requires CompleteFor(w, grp, op, backup, dek, next)
    requires r == grp.(deks := grp.deks + {next}, wraps := grp.wraps + w)
    ensures WrapsExact(r)
  {
    forall v: nat, q: Recipient
      ensures (v, q) in r.wraps <==> v in r.deks && Entitled(r, q)
    {
      assert Entitled(r, q) == Entitled(grp, q);
      assert (v, q) in r.wraps <==> (v, q) in grp.wraps || (v, q) in w;
    }
  }

  lemma ExtendDeks(g: Name, grp: Group, r: Group, w: map<(nat, Recipient), Wrap>, op: Key, backup: Key, next: nat, tick: nat)
    requires WrapsExact(grp) && next !in grp.deks
    requires OneDek(grp, op, backup) && DeksDistinct(g, grp, tick)
    requires CompleteFor(w, grp, op, backup, Dek(tick, g), next)
    requires r == grp.(deks := grp.deks + {next}, wraps := grp.wraps + w)
    ensures KeepsDeks(grp, r) && OneDek(r, op, backup) && DeksDistinct(g, r, tick + 1)
    ensures (next, Operational) in r.wraps && DekOf(r, next) == Dek(tick, g)
  {
    assert (next, Operational) in w;
    forall v | (v, Operational) in grp.wraps
      ensures (v, Operational) in r.wraps && DekOf(r, v) == DekOf(grp, v)
    {
      assert (v, Operational) !in w;
    }
    forall k | k in r.wraps
      ensures (k.0, Operational) in r.wraps && r.wraps[k] == Wrap(DekOf(r, k.0), KeyFor(op, backup, k.1))
    {
      assert k == (k.0, k.1);
    }
    assert forall v :: (v, Operational) in r.wraps ==> v == next || (v, Operational) in grp.wraps;
  }

  /** The part of the group invariant that concerns keys and secrets. */
  ghost predicate KeysInv(g: Name, grp: Group, op: Key, backup: Key, tick: nat) {
    WrapsExact(grp) && OneDek(grp, op, backup) && DeksDistinct(g, grp, tick) && SecretsSealed(g, grp, tick)
  }

  /** The group's newest DEK is the one drawn at `tick`. */
  ghost predicate CurrentIs(g: Name, grp: Group, tick: nat) {
    && grp.deks != {}
    && (MaxVersion(grp.deks), Operational) in grp.wraps
    && DekOf(grp, MaxVersion(grp.deks)) == Dek(tick, g)
  }

  lemma RotateKeeps(op: Key, backup: Key, g: Name, grp: Group, tick: nat)
    requires KeysInv(g, grp, op, backup, tick)
    ensures KeysInv(g, Rotate(op, backup, grp, Dek(tick, g), Readers(grp)), op, backup, tick + 1)
    ensures CurrentIs(g, Rotate(op, backup, grp, Dek(tick, g), Readers(grp)), tick)
  {
    var next := NextVersion(grp.deks);
    var w := WrapSet(op, backup, Dek(tick, g), next, Readers(grp));
    var r := Rotate(op, backup, grp, Dek(tick, g), Readers(grp));
    assert CompleteFor(w, grp, op, backup, Dek(tick, g), next) by {
      WrapSetKeys(op, backup, Dek(tick, g), next, Readers(grp));
    }
    assert r == grp.(deks := grp.deks + {next}, wraps := grp.wraps + w);
    ExtendExact(grp, r, w, op, backup, Dek(tick, g), next);
    ExtendDeks(g, grp, r, w, op, backup, next, tick);
    SealedStays(g, grp, r, tick);
    MaxOfExtended(grp.deks);
  }

  /** Dropping one reader's read bit and wraps, then rotating, keeps the keys exact. */
  lemma RevokeKeeps(op: Key, backup: Key, g: Name, grp: Group, e: Endpoint, perms: Perms, tick: nat)
    requires KeysInv(g, grp, op, backup, tick) && !perms.read
    ensures KeysInv(g, RevokeIn(op, backup, grp, e, perms, Dek(tick, g)), op, backup, tick + 1)
    ensures CurrentIs(g, RevokeIn(op, backup, grp, e, perms, Dek(tick, g)), tick)
  {
    var m := grp.(acl := SetAcl(grp.acl, e, perms), wraps := DropWraps(grp.wraps, e));
    assert Readers(m) == Readers(grp) - {e};
    DropKeeps(op, backup, g, grp, m, e, tick);
    RotateKeeps(op, backup, g, m, tick);
  }

  lemma DropKeeps(op: Key, backup: Key, g: Name, grp: Group, m: Group, e: Endpoint, tick: nat)
    requires KeysInv(g, grp, op, backup, tick)
    requires m == grp.(acl := m.acl, wraps := DropWraps(grp.wraps, e))
    requires !HasRead(m, e) && forall f :: f != e ==> HasRead(m, f) == HasRead(grp, f)
    ensures KeysInv(g, m, op, backup, tick)
  {
    DropExact(grp, m, e);
    DropSealed(g, grp, m, e, tick);
  }

  lemma DropExact(grp: Group, m: Group, e: Endpoint)
    requires WrapsExact(grp)
    requires m == grp.(acl := m.acl, wraps := DropWraps(grp.wraps, e))
    requires !HasRead(m, e) && forall f :: f != e ==> HasRead(m, f) == HasRead(grp, f)
    ensures WrapsExact(m)
  {
    forall v: nat, q: Recipient
      ensures (v, q) in m.wraps <==> v in m.deks && Entitled(m, q)
    {
      assert (v, q) in m.wraps <==> (v, q) in grp.wraps && q != Reader(e);
      assert Entitled(m, q) <==> Entitled(grp, q) && q != Reader(e);
    }
  }

  lemma DropSealed(g: Name, grp: Group, m: Group, e: Endpoint, tick: nat)
    requires SecretsSealed(g, grp, tick)
    requires m == grp.(acl := m.acl, wraps := DropWraps(grp.wraps, e))
    ensures SecretsSealed(g, m, tick)
  {
    forall n, v | n in m.secrets && v in m.secrets[n].versions
      ensures RowSealed(g, m, n, v, m.secrets[n].versions[v], tick)
    {
      assert RowSealed(g, grp, n, v, grp.secrets[n].versions[v], tick);
    }
  }

  lemma NewGroupKeeps(op: Key, backup: Key, g: Name, e: Endpoint, tick: nat)
    ensures KeysInv(g, NewGroup(op, backup, Dek(tick, g), e), op, backup, tick + 1)
  {
    WrapSetKeys(op, backup, Dek(tick, g), 1, {e});
  }

  lemma GrantKeeps(op: Key, backup: Key, g: Name, grp: Group, e: Endpoint, perms: Perms, tick: nat)
    requires KeysInv(g, grp, op, backup, tick) && perms.read
    ensures KeysInv(g, grp.(acl := grp.acl[e := perms], wraps := grp.wraps + ReaderWraps(grp, e)), op, backup, tick + 1)
  {
    var w := ReaderWraps(grp, e);
    var r := grp.(acl := grp.acl[e := perms], wraps := grp.wraps + w);
    assert forall v: nat :: v in grp.deks ==> (v, Operational) in grp.wraps;
    assert forall v: nat, q: Recipient :: (v, q) in w <==> v in grp.deks && q == Reader(e);
    assert forall k :: k in w ==> w[k] == Wrap(DekOf(grp, k.0), EndpointKey(e));
    GrantExact(grp, r, e, w);
    GrantDeks(g, grp, r, e, w, op, backup, tick);
    SealedStays(g, grp, r, tick);
  }

  lemma GrantExact(grp: Group, r: Group, e: Endpoint, w: map<(nat, Recipient), Wrap>)
    requires WrapsExact(grp) && HasRead(r, e)
    requires forall f :: f != e ==> HasRead(r, f) == HasRead(grp, f)
    requires forall v: nat, q: Recipient :: (v, q) in w <==> v in grp.deks && q == Reader(e)
    requires r.deks == grp.deks && r.wraps == grp.wraps + w
    ensures WrapsExact(r)
  {
    forall v: nat, q: Recipient
      ensures (v, q) in r.wraps <==> v in r.deks && Entitled(r, q)
    {
      assert (v, q) in r.wraps <==> (v, q) in grp.wraps || (v, q) in w;
      assert Entitled(r, q) <==> Entitled(grp, q) || q == Reader(e);
    }
  }

  lemma GrantDeks(g: Name, grp: Group, r: Group, e: Endpoint, w: map<(nat, Recipient), Wrap>, op: Key, backup: Key, tick: nat)
    requires WrapsExact(grp) && OneDek(grp, op, backup) && DeksDistinct(g, grp, tick)
    requires forall v: nat, q: Recipient :: (v, q) in w <==> v in grp.deks && q == Reader(e)
    requires forall k :: k in w ==> (k.0, Operational) in grp.wraps && w[k] == Wrap(DekOf(grp, k.0), EndpointKey(e))
    requires r.deks == grp.deks && r.wraps == grp.wraps + w
    ensures KeepsDeks(grp, r) && OneDek(r, op, backup) && DeksDistinct(g, r, tick + 1)
  {
    forall v
      ensures (v, Operational) in r.wraps <==> (v, Operational) in grp.wraps
      ensures (v, Operational) in r.wraps ==> DekOf(r, v) == DekOf(grp, v)
    {
      assert (v, Operational) !in w;
    }
    forall k | k in r.wraps
      ensures (k.0, Operational) in r.wraps && r.wraps[k] == Wrap(DekOf(r, k.0), KeyFor(op, backup, k.1))
    {
      if k in w {
        assert k == (k.0, k.1);
      }
    }
  }

  lemma PutKeeps(op: Key, backup: Key, g: Name, grp: Group, name: Name, value: Bytes, author: Name, tick: nat)
    requires KeysInv(g, grp, op, backup, tick) && grp.deks != {}
    ensures KeysInv(g, PutIn(g, grp, name, value, author, tick), op, backup, tick + 1)
  {
    PutSealed(g, grp, name, value, author, tick);
    SameKeysKeep(op, backup, g, grp, PutIn(g, grp, name, value, author, tick), tick);
  }

  /** A change that touches neither ACL nor key rows keeps the keys. */
  lemma SameKeysKeep(op: Key, backup: Key, g: Name, grp: Group, r: Group, tick: nat)
    requires WrapsExact(grp) && OneDek(grp, op, backup) && DeksDistinct(g, grp, tick)
    requires r == grp.(secrets := r.secrets) && SecretsSealed(g, r, tick + 1)
    ensures KeysInv(g, r, op, backup, tick + 1)
  {
    SameExact(grp, r);
    SameDeks(op, backup, g, grp, r, tick);
  }

  lemma SameExact(grp: Group, r: Group)
    requires WrapsExact(grp) && r == grp.(secrets := r.secrets)
    ensures WrapsExact(r)
  {
    assert forall q :: Entitled(r, q) == Entitled(grp, q);
  }

  lemma SameDeks(op: Key, backup: Key, g: Name, grp: Group, r: Group, tick: nat)
    requires OneDek(grp, op, backup) && DeksDistinct(g, grp, tick) && r.wraps == grp.wraps
    ensures OneDek(r, op, backup) && DeksDistinct(g, r, tick + 1)
  {
    assert forall v :: (v, Operational) in grp.wraps ==> DekOf(r, v) == DekOf(grp, v);
  }

  lemma PutSealed(g: Name, grp: Group, name: Name, value: Bytes, author: Name, tick: nat)
    requires WrapsExact(grp) && grp.deks != {}
    requires SecretsSealed(g, grp, tick)
    ensures SecretsSealed(g, PutIn(g, grp, name, value, author, tick), tick + 1)
  {
    var r := PutIn(g, grp, name, value, author, tick);
    forall n | n in r.secrets
      ensures r.secrets[n].current in r.secrets[n].versions && r.secrets[n].current > 0
      ensures forall v :: v in r.secrets[n].versions ==>
                v <= r.secrets[n].current && RowSealed(g, r, n, v, r.secrets[n].versions[v], tick + 1)
    {
      if n != name {
        assert n in grp.secrets && r.secrets[n] == grp.secrets[n];
      }
    }
  }

  /** A transaction that edits one group keeps that group's keys. */
  lemma EditKeeps(db: Db, tx: Tx, tick: nat, g: Name)
    requires DbInv(db, tick) && TxOk(db, tx) && !tx.RemoveIdentity?
    requires g in Commit(db, tx, tick).groups
    requires g in db.groups ==> Commit(db, tx, tick).groups[g] != db.groups[g]
    ensures KeysInv(g, Commit(db, tx, tick).groups[g], db.op, db.backup, tick + 1)
  {
    if g in db.groups { assert GroupInv(db, g, tick); }
    match tx
    case SetPerms(_, e, perms) => SetPermsKeeps(db.op, db.backup, g, db.groups[g], e, perms, tick);
    case GrantWithWraps(_, e, perms) => GrantKeeps(db.op, db.backup, g, db.groups[g], e, perms, tick);
    case RevokeAndRotate(_, e, perms) => RevokeKeeps(db.op, db.backup, g, db.groups[g], e, perms, tick);
    case AddDek(_) => RotateKeeps(db.op, db.backup, g, db.groups[g], tick);
    case CreateGroup(_, e) => NewGroupKeeps(db.op, db.backup, g, e, tick);
    case PutSecret(_, name, value, author) => PutKeeps(db.op, db.backup, g, db.groups[g], name, value, author, tick);
    case DeleteSecret(_, name) => DeleteKeeps(db.op, db.backup, g, db.groups[g], name, tick);
    case _ => assert false;
  }

  lemma UntouchedKeeps(g: Name, grp: Group, op: Key, backup: Key, tick: nat)
    requires KeysInv(g, grp, op, backup, tick)
    ensures KeysInv(g, grp, op, backup, tick + 1)
  {
    SealedStays(g, grp, grp, tick);
  }

  lemma SetPermsKeeps(op: Key, backup: Key, g: Name, grp: Group, e: Endpoint, perms: Perms, tick: nat)
    requires KeysInv(g, grp, op, backup, tick) && HasRead(grp, e) == perms.read
    ensures KeysInv(g, grp.(acl := SetAcl(grp.acl, e, perms)), op, backup, tick + 1)
  {
    var r := grp.(acl := SetAcl(grp.acl, e, perms));
    assert forall f :: HasRead(r, f) == HasRead(grp, f);
    SealedStays(g, grp, r, tick);
  }

  lemma DeleteKeeps(op: Key, backup: Key, g: Name, grp: Group, name: Name, tick: nat)
    requires KeysInv(g, grp, op, backup, tick)
    ensures KeysInv(g, grp.(secrets := grp.secrets - {name}), op, backup, tick + 1)
  {
    SealedStays(g, grp, grp.(secrets := grp.secrets - {name}), tick);
    SameKeysKeep(op, backup, g, grp, grp.(secrets := grp.secrets - {name}), tick);
  }

  lemma RemoveKeeps(db: Db, e: Endpoint, tick: nat, g: Name)
    requires DbInv(db, tick) && e in db.ids && g in db.groups
    ensures KeysInv(g, RemoveFrom(db.op, db.backup, db.groups[g], e, Dek(tick, g)), db.op, db.backup, tick + 1)
  {
    var grp := db.groups[g];
    assert GroupInv(db, g, tick);
    if HasRead(grp, e) {
      RevokeKeeps(db.op, db.backup, g, grp, e, NO_PERMS, tick);
    } else {
      var r := grp.(acl := grp.acl - {e});
      assert forall f :: HasRead(r, f) == HasRead(grp, f);
      SealedStays(g, grp, r, tick);
    }
  }

  /** Every transaction keeps the wrap invariant, the uniqueness of identity
      names and the referential integrity of the whole database. */
  lemma CommitKeepsInv(db: Db, tx: Tx, tick: nat)
    requires DbInv(db, tick) && TxOk(db, tx)
    ensures DbInv(Commit(db, tx, tick), tick + 1)
  {
    var db' := Commit(db, tx, tick);
    assert UniqueNames(db'.ids);
    forall g | g in db'.groups
      ensures GroupInv(db', g, tick + 1)
    {
      CommitKeepsRefs(db, tx, tick, g);
      CommitKeepsKeys(db, tx, tick, g);
      assert db'.op == db.op && db'.backup == db.backup;
    }
  }

  lemma CommitKeepsRefs(db: Db, tx: Tx, tick: nat, g: Name)
    requires DbInv(db, tick) && TxOk(db, tx)
    requires g in Commit(db, tx, tick).groups
    ensures Commit(db, tx, tick).groups[g].acl.Keys <= Commit(db, tx, tick).ids.Keys
    ensures Commit(db, tx, tick).groups[g].deks != {}
  {
    if g in db.groups {
      assert RefsIn(db.groups[g], db.ids) by { assert GroupInv(db, g, tick); }
      if tx.RemoveIdentity? {
        RemoveKeepsRefs(db.op, db.backup, db.groups[g], tx.e, Dek(tick, g), db.ids);
      } else {
        EditKeepsRefs(db, tx, tick, g);
      }
    }
  }

  ghost predicate RefsIn(grp: Group, ids: map<Endpoint, Identity>) {
    grp.acl.Keys <= ids.Keys && grp.deks != {}
  }

  lemma RemoveKeepsRefs(op: Key, backup: Key, grp: Group, e: Endpoint, dek: Dek, ids: map<Endpoint, Identity>)
    requires RefsIn(grp, ids)
    ensures RefsIn(RemoveFrom(op, backup, grp, e, dek), ids - {e})
  {
  }

  lemma EditKeepsRefs(db: Db, tx: Tx, tick: nat, g: Name)
    requires TxOk(db, tx) && !tx.RemoveIdentity? && g in db.groups && RefsIn(db.groups[g], db.ids)
    ensures RefsIn(Commit(db, tx, tick).groups[g], Commit(db, tx, tick).ids)
  {
  }

  lemma CommitKeepsKeys(db: Db, tx: Tx, tick: nat, g: Name)
    requires DbInv(db, tick) && TxOk(db, tx)
    requires g in Commit(db, tx, tick).groups
    ensures KeysInv(g, Commit(db, tx, tick).groups[g], db.op, db.backup, tick + 1)
  {
    if g in db.groups && Commit(db, tx, tick).groups[g] == db.groups[g] {
      assert GroupInv(db, g, tick);
      UntouchedKeeps(g, db.groups[g], db.op, db.backup, tick);
    } else if tx.RemoveIdentity? {
      RemoveKeeps(db, tx.e, tick, g);
    } else {
      EditKeeps(db, tx, tick, g);
    }
  }
}
