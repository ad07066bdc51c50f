/**
 The replica's local mirror: the state a group converges onto, the ACL
 clean-up, and what applying a group, dropping one and sweeping identities
 do to the tables.
 */
module Mirror {
  import opened Base
  import opened Crypto
  import opened Tables
  import opened Notification

  datatype AclEntry = AclEntry(name: Name, endpoint: Endpoint, perms: Perms)
  datatype DekEntry = DekEntry(version: nat, wrapped: Wrap)
  datatype SecretEntry = SecretEntry(name: Name, version: nat, dekVersion: nat, nonce: nat)

  datatype GroupState = GroupState(name: Name, acl: seq<AclEntry>, deks: seq<DekEntry>, secrets: seq<SecretEntry>)

  /** One secret's current version as fetched from the authoritative node. */
  datatype Fetched = Fetched(name: Name, cur: Current)

  // ---- collision-free ACLs ----

  predicate NamedIn(acl: seq<AclEntry>, n: Name) {
    exists i :: 0 <= i < |acl| && acl[i].name == n
  }

  predicate EndpointIn(acl: seq<AclEntry>, e: Endpoint) {
    exists i :: 0 <= i < |acl| && acl[i].endpoint == e
  }

  /** Last entry wins, for names and for endpoints; an entry dropped for its
      name does not reserve its endpoint. */
  function EffectiveAcl(acl: seq<AclEntry>): (kept: seq<AclEntry>)
    ensures |kept| <= |acl|
    ensures forall i :: 0 <= i < |kept| ==> kept[i] in acl
  {
    if acl == [] then []
    else
      var tail := EffectiveAcl(acl[1..]);
      if NamedIn(acl[1..], acl[0].name) || EndpointIn(tail, acl[0].endpoint) then tail else [acl[0]] + tail
  }

  ghost predicate NoLaterName(acl: seq<AclEntry>, i: nat)
    requires i < |acl|
  {
    forall j :: i < j < |acl| ==> acl[j].name != acl[i].name
  }

  /** No later position in `kept` has the endpoint of entry `i`. */
  ghost predicate NoLaterEndpoint(acl: seq<AclEntry>, kept: set<nat>, i: nat)
    requires i < |acl|
  {
    forall j :: i < j < |acl| && j in kept ==> acl[j].endpoint != acl[i].endpoint
  }

  /** The entries at the positions in `kept`, from position `i` on. */
  ghost function Pick(acl: seq<AclEntry>, i: nat, kept: set<nat>): seq<AclEntry>
    requires i <= |acl|
    decreases |acl| - i
  {
    if i == |acl| then [] else (if i in kept then [acl[i]] else []) + Pick(acl, i + 1, kept)
  }

  lemma EndpointInCons(a: AclEntry, rest: seq<AclEntry>, e: Endpoint)
    ensures EndpointIn([a] + rest, e) <==> a.endpoint == e || EndpointIn(rest, e)
  {
    var s := [a] + rest;
    if a.endpoint == e {
      assert s[0].endpoint == e;
    }
    if i :| 0 <= i < |rest| && rest[i].endpoint == e {
      assert s[i + 1].endpoint == e;
    }
  }

  lemma {:induction false} PickContains(acl: seq<AclEntry>, i: nat, kept: set<nat>, e: Endpoint)
    requires i <= |acl|
    ensures EndpointIn(Pick(acl, i, kept), e) <==> exists j :: i <= j < |acl| && j in kept && acl[j].endpoint == e
    decreases |acl| - i
  {
    if i < |acl| {
      PickContains(acl, i + 1, kept, e);
      var rest := Pick(acl, i + 1, kept);
      if i in kept {
        EndpointInCons(acl[i], rest, e);
        assert Pick(acl, i, kept) == [acl[i]] + rest;
      } else {
        assert Pick(acl, i, kept) == rest;
      }
    }
  }

  lemma {:induction false} PickAgrees(acl: seq<AclEntry>, i: nat, kept: set<nat>, kept': set<nat>)
    requires i <= |acl|
    requires forall j :: i <= j < |acl| ==> (j in kept <==> j in kept')
    ensures Pick(acl, i, kept) == Pick(acl, i, kept')
    decreases |acl| - i
  {
    if i < |acl| {
      PickAgrees(acl, i + 1, kept, kept');
    }
  }

  /** The positions the scan keeps from position `i` on. */
  lemma {:induction false} KeptFrom(acl: seq<AclEntry>, i: nat) returns (kept: set<nat>)
    requires i <= |acl|
    ensures forall j :: j in kept ==> i <= j < |acl|
    ensures EffectiveAcl(acl[i..]) == Pick(acl, i, kept)
    ensures forall j :: i <= j < |acl| ==> (j in kept <==> NoLaterName(acl, j) && NoLaterEndpoint(acl, kept, j))
    decreases |acl| - i
  {
    if i == |acl| {
      kept := {};
    } else {
      var rest := KeptFrom(acl, i + 1);
      assert acl[i..][1..] == acl[i + 1..];
      PickContains(acl, i + 1, rest, acl[i].endpoint);
      LaterNames(acl, i);
      kept := if NoLaterName(acl, i) && NoLaterEndpoint(acl, rest, i) then rest + {i} else rest;
      PickAgrees(acl, i + 1, rest, kept);
      assert forall j :: i <= j < |acl| ==> (NoLaterEndpoint(acl, kept, j) <==> NoLaterEndpoint(acl, rest, j));
    }
  }

  lemma LaterNames(acl: seq<AclEntry>, i: nat)
    requires i < |acl|
    ensures NamedIn(acl[i + 1..], acl[i].name) <==> !NoLaterName(acl, i)
  {
    if j :| i < j < |acl| && acl[j].name == acl[i].name {
      assert acl[i + 1..][j - (i + 1)] == acl[j];
    }
  }

  /** No name and no endpoint occurs twice. */
  ghost predicate CollisionFree(acl: seq<AclEntry>) {
    forall i, j :: 0 <= i < j < |acl| ==> acl[i].name != acl[j].name && acl[i].endpoint != acl[j].endpoint
  }

  lemma {:induction false} EffectiveCollisionFree(acl: seq<AclEntry>)
    ensures CollisionFree(EffectiveAcl(acl))
  {
    if acl != [] {
      EffectiveCollisionFree(acl[1..]);
      var tail := EffectiveAcl(acl[1..]);
      assert forall i :: 0 <= i < |tail| ==> tail[i] in acl[1..];
    }
  }

  lemma {:induction false} EffectiveOfCollisionFree(acl: seq<AclEntry>)
    requires CollisionFree(acl)
    ensures EffectiveAcl(acl) == acl
  {
    if acl != [] {
      var tail := acl[1..];
      assert forall j :: 0 <= j < |tail| ==> tail[j] == acl[j + 1];
      assert !NamedIn(tail, acl[0].name) && !EndpointIn(tail, acl[0].endpoint);
      EffectiveOfCollisionFree(tail);
      assert acl == [acl[0]] + tail;
    }
  }

  /** The clean-up keeps an entry iff no later entry has its name and no
      later kept entry has its endpoint; it leaves no collision, and changes
      nothing the second time. */
  lemma EffectiveAclSpec(acl: seq<AclEntry>)
    ensures exists kept: set<nat> ::
              && EffectiveAcl(acl) == Pick(acl, 0, kept)
              && forall i :: 0 <= i < |acl| ==> (i in kept <==> NoLaterName(acl, i) && NoLaterEndpoint(acl, kept, i))
    ensures CollisionFree(EffectiveAcl(acl))
    ensures EffectiveAcl(EffectiveAcl(acl)) == EffectiveAcl(acl)
  {
    assert acl[0..] == acl;
    var kept := KeptFrom(acl, 0);
    EffectiveCollisionFree(acl);
    EffectiveOfCollisionFree(EffectiveAcl(acl));
  }

  // ---- rule 1: identity rows ----

  /** Local rows holding a name under another endpoint. */
  function StaleHolders(ids: map<Endpoint, Identity>, entry: AclEntry): set<Endpoint> {
    set f | f in ids && ids[f].name == entry.name && f != entry.endpoint
  }

  /** Deletes stale holders of the name, with the ACL rows that cascade from
      them in every group, and upserts the row of the endpoint. */
  function Upsert(db: Db, entry: AclEntry): Db {
    var stale := StaleHolders(db.ids, entry);
    db.(ids := (db.ids - stale)[entry.endpoint := Identity(entry.name, false)],
        groups := map g | g in db.groups :: db.groups[g].(acl := db.groups[g].acl - stale))
  }

  function UpsertAll(db: Db, acl: seq<AclEntry>): Db
    decreases |acl|
  {
    if acl == [] then db else UpsertAll(Upsert(db, acl[0]), acl[1..])
  }

  // ---- rules 2 to 5 ----

  function AclMap(acl: seq<AclEntry>): map<Endpoint, Perms> {
    if acl == [] then map[]
    else AclMap(acl[..|acl| - 1])[acl[|acl| - 1].endpoint := acl[|acl| - 1].perms]
  }

  function WrapMap(own: Endpoint, deks: seq<DekEntry>): map<(nat, Recipient), Wrap> {
    if deks == [] then map[]
    else WrapMap(own, deks[..|deks| - 1])[(deks[|deks| - 1].version, Reader(own)) := deks[|deks| - 1].wrapped]
  }

  function Versions(deks: seq<DekEntry>): set<nat> {
    set i | 0 <= i < |deks| :: deks[i].version
  }

  lemma VersionsOfLonger(deks: seq<DekEntry>, d: DekEntry)
    ensures Versions(deks + [d]) == Versions(deks) + {d.version}
  {
    var longer := deks + [d];
    forall v | v in Versions(deks)
      ensures v in Versions(longer)
    {
      var i :| 0 <= i < |deks| && deks[i].version == v;
      assert longer[i].version == v;
    }
    assert longer[|deks|].version == d.version;
  }

  function StateNames(states: seq<GroupState>): set<Name> {
    set i | 0 <= i < |states| :: states[i].name
  }

  function Single(cur: Current): Secret {
    Secret(cur.version, map[cur.version := cur.row])
  }

  function StoreFetched(secrets: map<Name, Secret>, fetched: seq<Fetched>): map<Name, Secret> {
    if fetched == [] then secrets
    else StoreFetched(secrets, fetched[..|fetched| - 1])[fetched[|fetched| - 1].name := Single(fetched[|fetched| - 1].cur)]
  }

  function Listed(entries: seq<SecretEntry>): set<Name> {
    set i | 0 <= i < |entries| :: entries[i].name
  }

  function Unlisted(secrets: map<Name, Secret>, entries: seq<SecretEntry>): set<Name> {
    secrets.Keys - Listed(entries)
  }

  /** The group a replica holds before an apply; an empty one on first sight. */
  function LocalGroup(db: Db, g: Name): Group {
    if g in db.groups then db.groups[g] else EMPTY_GROUP
  }

  function AppliedGroup(own: Endpoint, grp: Group, st: GroupState, fetched: seq<Fetched>): Group {
    var stored := StoreFetched(grp.secrets, fetched);
    Group(AclMap(EffectiveAcl(st.acl)),
          grp.deks + Versions(st.deks),
          WrapMap(own, st.deks),
          stored - Unlisted(stored, st.secrets))
  }

  /** Converges the local mirror of one group onto `st`. */
  function ApplySync(db: Db, own: Endpoint, st: GroupState, fetched: seq<Fetched>): Db {
    var db1 := UpsertAll(db, EffectiveAcl(st.acl));
    db1.(groups := db1.groups[st.name := AppliedGroup(own, LocalGroup(db, st.name), st, fetched)])
  }

  function DropGroup(db: Db, g: Name): Db {
    db.(groups := db.groups - {g})
  }

  predicate Referenced(db: Db, e: Endpoint) {
    exists g :: g in db.groups && e in db.groups[g].acl
  }

  /** Deletes identity rows no ACL row references. */
  function SweepIdentities(db: Db): Db {
    db.(ids := map e | e in db.ids && Referenced(db, e) :: db.ids[e])
  }

  function DropAndSweep(db: Db, g: Name): Db {
    SweepIdentities(DropGroup(db, g))
  }

  // ---- the diff ----

  predicate Matches(grp: Group, entry: SecretEntry) {
    && CurrentOf(grp, entry.name).Some?
    && CurrentOf(grp, entry.name).value.version == entry.version
    && CurrentOf(grp, entry.name).value.row.dekVersion == entry.dekVersion
    && CurrentOf(grp, entry.name).value.row.nonce == entry.nonce
  }

  /** The names whose local current row differs from the listing, in its order. */
  function NeedFetch(grp: Group, entries: seq<SecretEntry>): seq<Name> {
    if entries == [] then []
    else
      NeedFetch(grp, entries[..|entries| - 1])
      + if Matches(grp, entries[|entries| - 1]) then [] else [entries[|entries| - 1].name]
  }

  /** Fetched rows whose DEK version has a wrap in the state; the rest are withheld. */
  function Decryptable(fetched: seq<Fetched>, deks: seq<DekEntry>): (kept: seq<Fetched>)
    ensures |kept| <= |fetched|
  {
    if fetched == [] then []
    else
      Decryptable(fetched[..|fetched| - 1], deks)
      + if fetched[|fetched| - 1].cur.row.dekVersion in Versions(deks) then [fetched[|fetched| - 1]] else []
  }

  lemma {:induction false} AllDecryptable(got: seq<Fetched>, deks: seq<DekEntry>)
    requires forall i :: 0 <= i < |got| ==> got[i].cur.row.dekVersion in Versions(deks)
    ensures Decryptable(got, deks) == got
  {
    if got != [] {
      AllDecryptable(got[..|got| - 1], deks);
      assert got == got[..|got| - 1] + [got[|got| - 1]];
    }
  }

  /** The state carries a wrap of this DEK version. */
  ghost predicate CarriesDek(deks: seq<DekEntry>, version: nat) {
    exists j :: 0 <= j < |deks| && deks[j].version == version
  }

  /** `l` lists, in order, the marked positions below `n`. */
  ghost predicate Positions(l: seq<nat>, marked: seq<bool>, n: nat)
    requires n <= |marked|
  {
    && (forall i, j :: 0 <= i < j < |l| ==> l[i] < l[j])
    && (forall i :: 0 <= i < |l| ==> l[i] < n && marked[l[i]])
    && (forall k: nat {:trigger IsMarked(marked, k)} :: k < n && IsMarked(marked, k) ==> k in l)
  }

  predicate IsMarked(marked: seq<bool>, k: nat) {
    k < |marked| && marked[k]
  }

  lemma PositionsNext(l: seq<nat>, marked: seq<bool>, n: nat)
    requires n < |marked| && Positions(l, marked, n)
    ensures Positions(if marked[n] then l + [n] else l, marked, n + 1)
  {
    var more := if marked[n] then l + [n] else l;
    forall k: nat | k < n + 1 && IsMarked(marked, k)
      ensures k in more
    {
      if k < n {
        assert k in l;
      }
    }
  }

  /** `r` takes the elements of `s` at these positions. */
  ghost predicate Takes<T>(r: seq<T>, s: seq<T>, at: seq<nat>) {
    |r| == |at| && forall i :: 0 <= i < |at| ==> at[i] < |s| && r[i] == s[at[i]]
  }

  /** `r` is, in order, the marked elements of `s`. */
  ghost predicate Chooses<T>(r: seq<T>, s: seq<T>, marked: seq<bool>)
    requires |marked| == |s|
  {
    exists at :: Positions(at, marked, |s|) && Takes(r, s, at)
  }

  function Filtered<T>(s: seq<T>, marked: seq<bool>): seq<T>
    requires |marked| == |s|
  {
    if s == [] then []
    else
      var n := |s| - 1;
      Filtered(s[..n], marked[..n]) + if marked[n] then [s[n]] else []
  }

  lemma {:induction false} FilteredChooses<T>(s: seq<T>, marked: seq<bool>) returns (at: seq<nat>)
    requires |marked| == |s|
    ensures Positions(at, marked, |s|) && Takes(Filtered(s, marked), s, at)
  {
    at := [];
    if s != [] {
      var n := |s| - 1;
      at := FilteredChooses(s[..n], marked[..n]);
      Widen(at, marked, n);
      PositionsNext(at, marked, n);
      TakesMore(Filtered(s[..n], marked[..n]), s, at, n, marked[n]);
      at := if marked[n] then at + [n] else at;
    }
  }

  lemma Widen(at: seq<nat>, marked: seq<bool>, n: nat)
    requires n <= |marked| && Positions(at, marked[..n], n)
    ensures Positions(at, marked, n)
  {
    forall k: nat | k < n && IsMarked(marked, k)
      ensures k in at
    {
      assert IsMarked(marked[..n], k);
    }
  }

  lemma TakesMore<T>(r: seq<T>, s: seq<T>, at: seq<nat>, n: nat, take: bool)
    requires n < |s| && Takes(r, s[..n], at)
    ensures if take then Takes(r + [s[n]], s, at + [n]) else Takes(r + [], s, at)
  {
    assert r + [] == r;
  }

  /** The marked rows are those whose DEK version the state carries. */
  ghost predicate MarksCarried(marked: seq<bool>, fetched: seq<Fetched>, deks: seq<DekEntry>) {
    |marked| == |fetched| && forall k :: 0 <= k < |fetched| ==> (marked[k] <==> CarriesDek(deks, fetched[k].cur.row.dekVersion))
  }

  /** What is kept is, in order, exactly what was fetched under a DEK version
      the state carries. */
  lemma DecryptableSpec(fetched: seq<Fetched>, deks: seq<DekEntry>, marked: seq<bool>)
    requires MarksCarried(marked, fetched, deks)
    ensures Chooses(Decryptable(fetched, deks), fetched, marked)
  {
    DecryptableFilters(fetched, deks, marked);
    var at := FilteredChooses(fetched, marked);
  }

  lemma {:induction false} DecryptableFilters(fetched: seq<Fetched>, deks: seq<DekEntry>, marked: seq<bool>)
    requires MarksCarried(marked, fetched, deks)
    ensures Decryptable(fetched, deks) == Filtered(fetched, marked)
  {
    if fetched != [] {
      var n := |fetched| - 1;
      DecryptableFilters(fetched[..n], deks, marked[..n]);
      assert fetched[n].cur.row.dekVersion in Versions(deks) <==> CarriesDek(deks, fetched[n].cur.row.dekVersion);
    }
  }

  // ---- what a replica mirrors of a group ----

  datatype GroupView = GroupView(
    rows: map<Endpoint, (Name, Perms)>,
    wraps: map<nat, Wrap>,
    secrets: map<Name, Current>)

  function OwnWraps(grp: Group, own: Endpoint): map<nat, Wrap> {
    map k | k in grp.wraps && k.1 == Reader(own) :: k.0 := grp.wraps[k]
  }

  /** The part of a group that sync ships: the ACL with identity names, the
      caller's own wraps, and the current row of every secret. */
  function ViewOf(db: Db, grp: Group, own: Endpoint): GroupView {
    GroupView(AclRows(db, grp), OwnWraps(grp, own), CurrentRows(grp))
  }

  ghost predicate ListsAcl(acl: seq<AclEntry>, rows: map<Endpoint, (Name, Perms)>) {
    && (forall i :: 0 <= i < |acl| ==> acl[i].endpoint in rows && rows[acl[i].endpoint] == (acl[i].name, acl[i].perms))
    && (forall e :: e in rows ==> EndpointIn(acl, e))
    && (forall i, j :: 0 <= i < j < |acl| ==> acl[i].endpoint != acl[j].endpoint)
  }

  ghost predicate ListsDeks(deks: seq<DekEntry>, wraps: map<nat, Wrap>) {
    && (forall i :: 0 <= i < |deks| ==> deks[i].version in wraps && wraps[deks[i].version] == deks[i].wrapped)
    && Versions(deks) == wraps.Keys
  }

  ghost predicate ListsSecrets(entries: seq<SecretEntry>, secrets: map<Name, Current>) {
    && (forall i :: 0 <= i < |entries| ==>
          && entries[i].name in secrets
          && entries[i] == SecretEntry(entries[i].name, secrets[entries[i].name].version,
                                       secrets[entries[i].name].row.dekVersion, secrets[entries[i].name].row.nonce))
    && Listed(entries) == secrets.Keys
  }

  /** `st` is a snapshot of the view, its rows in any order. */
  ghost predicate Snapshot(st: GroupState, view: GroupView) {
    ListsAcl(st.acl, view.rows) && ListsDeks(st.deks, view.wraps) && ListsSecrets(st.secrets, view.secrets)
  }

  /** Within the rows, names determine endpoints. */
  ghost predicate NamesDistinct(rows: map<Endpoint, (Name, Perms)>) {
    forall e, f :: e in rows && f in rows && rows[e].0 == rows[f].0 ==> e == f
  }
}
