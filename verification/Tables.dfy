/**
 The relational state of a bunker database, as a value. Identity rows are
 keyed by endpoint: a row's endpoint never changes while the row lives, so
 endpoint and row id determine each other. Rows that hang off a group
 (`group_acl`, `group_dek`, `dek_wrap`, `secret`, `secret_version`) are
 nested under it, which makes the cascade of a group deletion implicit.
 */
module Tables {
  import opened Base
  import opened Crypto
  import opened Encoding

  /** A permission byte, split into its three defined bits and the rest. */
  datatype Perms = Perms(read: bool, write: bool, admin: bool, other: nat) {
    /** `self & needed == needed`, for masks made of defined bits. */
    predicate Covers(needed: Perms) {
      (needed.read ==> read) && (needed.write ==> write) && (needed.admin ==> admin)
    }
  }

  const NO_PERMS := Perms(false, false, false, 0)
  const READ := Perms(true, false, false, 0)
  const WRITE := Perms(false, true, false, 0)
  const ADMIN := Perms(false, false, true, 0)
  const ALL_PERMS := Perms(true, true, true, 0)

  datatype Identity = Identity(name: Name, serviceAdmin: bool)

  datatype Recipient = Operational | Backup | Reader(endpoint: Endpoint)

  /** A `secret_version` row without its key. */
  datatype Row = Row(dekVersion: nat, nonce: nat, cipher: Sealed, author: Name)

  datatype Secret = Secret(current: nat, versions: map<nat, Row>)

  /** A secret's current version joined with its row. */
  datatype Current = Current(version: nat, row: Row)

  datatype Group = Group(
    acl: map<Endpoint, Perms>,
    deks: set<nat>,
    wraps: map<(nat, Recipient), Wrap>,
    secrets: map<Name, Secret>)

  datatype Db = Db(ids: map<Endpoint, Identity>, groups: map<Name, Group>, op: Key, backup: Key)

  const EMPTY_GROUP := Group(map[], {}, map[], map[])

  // ---- queries ----

  /** The permission byte of an endpoint on a group; zero without an ACL row. */
  function PermsIn(grp: Group, e: Endpoint): Perms {
    if e in grp.acl then grp.acl[e] else NO_PERMS
  }

  predicate HasRead(grp: Group, e: Endpoint) {
    PermsIn(grp, e).read
  }

  function Readers(grp: Group): set<Endpoint> {
    set e | e in grp.acl && grp.acl[e].read
  }

  function Admins(grp: Group): set<Endpoint> {
    set e | e in grp.acl && grp.acl[e].admin
  }

  function ServiceAdmins(db: Db): set<Endpoint> {
    set e | e in db.ids && db.ids[e].serviceAdmin
  }

  ghost function IdByName(ids: map<Endpoint, Identity>, name: Name): (r: Option<Endpoint>)
    ensures r.Some? ==> r.value in ids && ids[r.value].name == name
    ensures r.None? ==> forall e :: e in ids ==> ids[e].name != name
  {
    if exists e :: e in ids && ids[e].name == name
    then var e :| e in ids && ids[e].name == name; Some(e)
    else None
  }

  /** The groups in which an identity holds any ACL row. */
  function GroupsOf(db: Db, e: Endpoint): set<Name> {
    set g | g in db.groups && e in db.groups[g].acl
  }

  predicate InScope(db: Db, g: Name, e: Endpoint) {
    g in db.groups && HasRead(db.groups[g], e)
  }

  /** The current row of a secret, when the secret and the row exist. */
  function CurrentOf(grp: Group, name: Name): Option<Current> {
    if name in grp.secrets && grp.secrets[name].current in grp.secrets[name].versions
    then Some(Current(grp.secrets[name].current, grp.secrets[name].versions[grp.secrets[name].current]))
    else None
  }

  function CurrentRows(grp: Group): map<Name, Current> {
    map n | n in grp.secrets && CurrentOf(grp, n).Some? :: CurrentOf(grp, n).value
  }

  lemma SameSecretsSameRows(a: Group, b: Group)
    requires a.secrets == b.secrets
    ensures CurrentRows(a) == CurrentRows(b)
  {
  }

  /** A secret's version number, 0 when there is none. */
  function VersionOf(grp: Group, name: Name): nat {
    if name in grp.secrets then grp.secrets[name].current else 0
  }

  /** The largest of a nonempty set of DEK versions. */
  ghost function MaxVersion(s: set<nat>): (m: nat)
    requires s != {}
    ensures m in s && forall v :: v in s ==> v <= m
  {
    var x :| x in s;
    if s == {x} then x
    else
      var m := MaxVersion(s - {x});
      assert forall v :: v in s ==> v == x || v in s - {x};
      if x > m then x else m
  }

  ghost function NextVersion(s: set<nat>): (n: nat)
    ensures n > 0 && n !in s && forall v :: v in s ==> v < n
    ensures if s == {} then n == 1 else n - 1 in s
  {
    if s == {} then 1 else MaxVersion(s) + 1
  }

  lemma MaxOfExtended(s: set<nat>)
    ensures MaxVersion(s + {NextVersion(s)}) == NextVersion(s)
  {
  }

  // ---- invariants of an authoritative database ----

  function KeyFor(op: Key, backup: Key, r: Recipient): Key {
    match r
    case Operational => op
    case Backup => backup
    case Reader(e) => EndpointKey(e)
  }

  predicate Entitled(grp: Group, r: Recipient) {
    r.Operational? || r.Backup? || HasRead(grp, r.endpoint)
  }

  /** A wrap row exists iff its version is retained and its recipient is
      operational, backup or an explicit reader. */
  ghost predicate WrapsExact(grp: Group) {
    forall v: nat, r :: (v, r) in grp.wraps <==> v in grp.deks && Entitled(grp, r)
  }

  function DekOf(grp: Group, v: nat): Dek
    requires (v, Operational) in grp.wraps
  {
    grp.wraps[(v, Operational)].dek
  }

  /** All wraps of one version hide the same DEK, each under its recipient's key. */
  ghost predicate OneDek(grp: Group, op: Key, backup: Key) {
    forall k :: k in grp.wraps ==>
      && (k.0, Operational) in grp.wraps
      && grp.wraps[k] == Wrap(DekOf(grp, k.0), KeyFor(op, backup, k.1))
  }

  /** A group's DEKs were drawn for that group, in the past, and differ pairwise. */
  ghost predicate DeksDistinct(g: Name, grp: Group, tick: nat) {
    && (forall v :: (v, Operational) in grp.wraps ==> DekOf(grp, v).group == g && DekOf(grp, v).tick < tick)
    && (forall v, w :: (v, Operational) in grp.wraps && (w, Operational) in grp.wraps && DekOf(grp, v) == DekOf(grp, w) ==> v == w)
  }

  ghost predicate RowSealed(g: Name, grp: Group, n: Name, v: nat, row: Row, tick: nat) {
    && row.dekVersion in grp.deks
    && (row.dekVersion, Operational) in grp.wraps
    && row.nonce < tick
    && row.cipher == Sealed(DekOf(grp, row.dekVersion), SecretAad(g, n, v, row.dekVersion), row.nonce, row.cipher.plain)
  }

  /** Every stored version names a retained DEK version and is sealed for its own place. */
  ghost predicate SecretsSealed(g: Name, grp: Group, tick: nat) {
    forall n :: n in grp.secrets ==>
      && grp.secrets[n].current in grp.secrets[n].versions
      && grp.secrets[n].current > 0
      && forall v :: v in grp.secrets[n].versions ==>
           v <= grp.secrets[n].current && RowSealed(g, grp, n, v, grp.secrets[n].versions[v], tick)
  }

  ghost predicate GroupInv(db: Db, g: Name, tick: nat)
    requires g in db.groups
  {
    var grp := db.groups[g];
    && grp.acl.Keys <= db.ids.Keys
    && grp.deks != {}
    && WrapsExact(grp)
    && OneDek(grp, db.op, db.backup)
    && DeksDistinct(g, grp, tick)
    && SecretsSealed(g, grp, tick)
  }

  /** `identity.name` is unique. */
  ghost predicate UniqueNames(ids: map<Endpoint, Identity>) {
    forall e, f :: e in ids && f in ids && ids[e].name == ids[f].name ==> e == f
  }

  ghost predicate DbInv(db: Db, tick: nat) {
    && UniqueNames(db.ids)
    && (forall g :: g in db.groups ==> GroupInv(db, g, tick))
  }
}
