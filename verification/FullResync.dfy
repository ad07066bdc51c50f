/** What a whole resync leaves in the mirror, denials and re-fetches included. */
module FullResync {
  import opened Base
  import opened Crypto
  import opened Tables
  import opened Requests
  import opened Runs
  import opened Notification
  import opened Mirror
  import opened Convergence
  import opened Resync
  import opened Protocol
  import opened SyncSafety
  import opened ReplicaNode

  // ---- one group ----

  /** The state the exchange about one group leaves applied; `None` when the
      group is dropped. */
  function SettledOn(db: Db, own: Endpoint, st: GroupState, a: Answers): Option<GroupState> {
    match FetchedFor(db, st, a.reply)
    case None => None
    case Some(fetched) =>
      if |Decryptable(fetched, st.deks)| == |fetched| then Some(st)
      else if a.refetched.None? then None
      else
        var db1 := ApplySync(db, own, st, Decryptable(fetched, st.deks));
        if FetchedFor(db1, a.refetched.value, a.again).None? then None else a.refetched
  }

  /** The listed identities come from `table`. */
  ghost predicate Tabled(st: GroupState, table: map<Endpoint, Name>) {
    exists rows :: ListsAcl(st.acl, rows) && FromTable(rows, table)
  }

  ghost predicate AllTabled(st: GroupState, a: Answers, table: map<Endpoint, Name>) {
    && Tabled(st, table)
    && (a.refetched.Some? ==> a.refetched.value.name == st.name && Tabled(a.refetched.value, table))
  }

  /** The group carries exactly the listed ACL, with the table's names. */
  ghost predicate Carries(m: Db, g: Name, acl: seq<AclEntry>, table: map<Endpoint, Name>) {
    g in m.groups && ListsAcl(acl, AclRows(m, m.groups[g])) && FromTable(AclRows(m, m.groups[g]), table)
  }

  /** The group is as the settled state says. */
  ghost predicate Rests(m: Db, g: Name, last: Option<GroupState>, table: map<Endpoint, Name>) {
    match last
    case None => g !in m.groups
    case Some(st) => Carries(m, g, st.acl, table)
  }

  lemma DropKeepsOthers(db: Db, own: Endpoint, dropped: Name, g: Name)
    requires g in db.groups && g != dropped
    ensures g in DropAndSweep(db, dropped).groups
    ensures ViewOf(DropAndSweep(db, dropped), DropAndSweep(db, dropped).groups[g], own) == ViewOf(db, db.groups[g], own)
  {
    SweepKeepsViews(DropGroup(db, dropped), own, g);
    assert AclRows(DropGroup(db, dropped), db.groups[g]) == AclRows(db, db.groups[g]);
  }

  lemma TabledApply(db: Db, own: Endpoint, st: GroupState, fetched: seq<Fetched>, table: map<Endpoint, Name>)
    requires MirrorOk(db) && Injective(table) && Tabled(st, table)
    ensures MirrorOk(ApplySync(db, own, st, fetched)) && Carries(ApplySync(db, own, st, fetched), st.name, st.acl, table)
  {
    var rows :| ListsAcl(st.acl, rows) && FromTable(rows, table);
    TableCompatible(st.acl, rows, rows, table);
    ApplyMirrorsAcl(db, own, st, fetched, rows);
    ApplyKeepsMirrorOk(db, own, st, fetched);
  }

  lemma TabledLeaves(db: Db, own: Endpoint, st: GroupState, fetched: seq<Fetched>, table: map<Endpoint, Name>, g: Name)
    requires MirrorOk(db) && Injective(table) && Tabled(st, table)
    requires g in db.groups && g != st.name && FromTable(AclRows(db, db.groups[g]), table)
    ensures var db' := ApplySync(db, own, st, fetched);
            g in db'.groups && AclRows(db', db'.groups[g]) == AclRows(db, db.groups[g])
  {
    var rows :| ListsAcl(st.acl, rows) && FromTable(rows, table);
    TableCompatible(st.acl, rows, AclRows(db, db.groups[g]), table);
    ApplyLeavesOthers(db, own, st, fetched, g);
    var db' := ApplySync(db, own, st, fetched);
    assert AclRows(db', db'.groups[g]) == ViewOf(db', db'.groups[g], own).rows;
    assert AclRows(db, db.groups[g]) == ViewOf(db, db.groups[g], own).rows;
  }

  /** Whatever is denied or withheld, the group ends up absent, or with exactly
      the ACL of the state that was applied last. */
  lemma SyncedOneAcl(db: Db, own: Endpoint, st: GroupState, a: Answers, table: map<Endpoint, Name>)
    requires MirrorOk(db) && Injective(table) && AllTabled(st, a, table)
    ensures MirrorOk(SyncedOne(db, own, st, a))
    ensures Rests(SyncedOne(db, own, st, a), st.name, SettledOn(db, own, st, a), table)
  {
    match FetchedFor(db, st, a.reply)
    case None => DropIsOk(db, st.name);
    case Some(fetched) =>
      var kept := Decryptable(fetched, st.deks);
      TabledApply(db, own, st, kept, table);
      if |kept| != |fetched| {
        RefetchAcl(db, own, st, a, table, fetched);
      }
  }

  lemma RefetchAcl(db: Db, own: Endpoint, st: GroupState, a: Answers, table: map<Endpoint, Name>, fetched: seq<Fetched>)
    requires Injective(table) && AllTabled(st, a, table)
    requires FetchedFor(db, st, a.reply) == Some(fetched) && |Decryptable(fetched, st.deks)| != |fetched|
    requires MirrorOk(ApplySync(db, own, st, Decryptable(fetched, st.deks)))
    ensures MirrorOk(SyncedOne(db, own, st, a))
    ensures Rests(SyncedOne(db, own, st, a), st.name, SettledOn(db, own, st, a), table)
  {
    var db1 := ApplySync(db, own, st, Decryptable(fetched, st.deks));
    if a.refetched.None? || FetchedFor(db1, a.refetched.value, a.again).None? {
      DropIsOk(db1, st.name);
    } else {
      var latest, more := a.refetched.value, FetchedFor(db1, a.refetched.value, a.again).value;
      TabledApply(db1, own, latest, Decryptable(more, latest.deks), table);
    }
  }

  lemma DropIsOk(db: Db, g: Name)
    requires MirrorOk(db)
    ensures MirrorOk(DropAndSweep(db, g)) && g !in DropAndSweep(db, g).groups
  {
    DropKeepsMirrorOk(db, g);
    DropKeepsMirrorOk(DropGroup(db, g), g);
  }

  lemma DropKeepsRows(db: Db, own: Endpoint, dropped: Name, g: Name)
    requires g in db.groups && g != dropped
    ensures var db' := DropAndSweep(db, dropped);
            g in db'.groups && AclRows(db', db'.groups[g]) == AclRows(db, db.groups[g])
  {
    DropKeepsOthers(db, own, dropped, g);
    var db' := DropAndSweep(db, dropped);
    assert AclRows(db', db'.groups[g]) == ViewOf(db', db'.groups[g], own).rows;
    assert AclRows(db, db.groups[g]) == ViewOf(db, db.groups[g], own).rows;
  }

  /** The exchange about one group never disturbs the ACL of another. */
  lemma SyncedOneLeaves(db: Db, own: Endpoint, st: GroupState, a: Answers, table: map<Endpoint, Name>, g: Name)
    requires MirrorOk(db) && Injective(table) && AllTabled(st, a, table)
    requires g in db.groups && g != st.name && FromTable(AclRows(db, db.groups[g]), table)
    ensures var db' := SyncedOne(db, own, st, a);
            g in db'.groups && AclRows(db', db'.groups[g]) == AclRows(db, db.groups[g])
  {
    match FetchedFor(db, st, a.reply)
    case None => DropKeepsRows(db, own, st.name, g);
    case Some(fetched) =>
      var kept := Decryptable(fetched, st.deks);
      var db1 := ApplySync(db, own, st, kept);
      TabledApply(db, own, st, kept, table);
      TabledLeaves(db, own, st, kept, table, g);
      if |kept| != |fetched| {
        DropKeepsRows(db1, own, st.name, g);
        if a.refetched.Some? && FetchedFor(db1, a.refetched.value, a.again).Some? {
          var latest, more := a.refetched.value, FetchedFor(db1, a.refetched.value, a.again).value;
          TabledLeaves(db1, own, latest, Decryptable(more, latest.deks), table, g);
        }
      }
  }

  // ---- the whole manifest, any answers ----

  ghost predicate DistinctStates(states: seq<GroupState>) {
    forall i, j :: 0 <= i < j < |states| ==> states[i].name != states[j].name
  }

  ghost predicate TabledManifest(states: seq<GroupState>, answers: seq<Answers>, table: map<Endpoint, Name>) {
    && |answers| == |states| && DistinctStates(states) && Injective(table)
    && forall i :: 0 <= i < |states| ==> AllTabled(states[i], answers[i], table)
  }

  /** Item `k` of the manifest ended up in `m` as its exchange left it. */
  ghost predicate Landed(db: Db, m: Db, own: Endpoint, states: seq<GroupState>, answers: seq<Answers>, table: map<Endpoint, Name>, k: nat)
    requires |answers| == |states| && k < |states|
  {
    Rests(m, states[k].name, SettledOn(SyncedAll(db, own, states[..k], answers[..k]), own, states[k], answers[k]), table)
  }

  ghost predicate AllLanded(db: Db, m: Db, own: Endpoint, states: seq<GroupState>, answers: seq<Answers>, table: map<Endpoint, Name>, n: nat)
    requires |answers| == |states| && n <= |states|
  {
    forall k :: 0 <= k < n ==> Landed(db, m, own, states, answers, table, k)
  }

  lemma {:induction false} SyncedAllLands(db: Db, own: Endpoint, states: seq<GroupState>, answers: seq<Answers>, table: map<Endpoint, Name>, n: nat)
    requires MirrorOk(db) && TabledManifest(states, answers, table) && n <= |states|
    ensures MirrorOk(SyncedAll(db, own, states[..n], answers[..n]))
    ensures AllLanded(db, SyncedAll(db, own, states[..n], answers[..n]), own, states, answers, table, n)
  {
    if n > 0 {
      SyncedAllLands(db, own, states, answers, table, n - 1);
      SyncedAllNext(db, own, states, answers, n - 1);
      LandOne(db, SyncedAll(db, own, states[..n - 1], answers[..n - 1]), SyncedAll(db, own, states[..n], answers[..n]),
              own, states, answers, table, n - 1);
    }
  }

  lemma LandOne(db: Db, m: Db, r: Db, own: Endpoint, states: seq<GroupState>, answers: seq<Answers>, table: map<Endpoint, Name>, i: nat)
    requires TabledManifest(states, answers, table) && i < |states| && MirrorOk(m)
    requires m == SyncedAll(db, own, states[..i], answers[..i]) && AllLanded(db, m, own, states, answers, table, i)
    requires r == SyncedOne(m, own, states[i], answers[i])
    ensures MirrorOk(r) && AllLanded(db, r, own, states, answers, table, i + 1)
  {
    SyncedOneAcl(m, own, states[i], answers[i], table);
    assert Landed(db, r, own, states, answers, table, i);
    forall k: nat | k < i
      ensures Landed(db, r, own, states, answers, table, k)
    {
      LandedStays(db, m, own, states, answers, table, i, k);
    }
  }

  lemma SyncedAllNext(db: Db, own: Endpoint, states: seq<GroupState>, answers: seq<Answers>, i: nat)
    requires |answers| == |states| && i < |states|
    ensures SyncedAll(db, own, states[..i + 1], answers[..i + 1])
         == SyncedOne(SyncedAll(db, own, states[..i], answers[..i]), own, states[i], answers[i])
  {
    assert states[..i + 1][..i] == states[..i] && answers[..i + 1][..i] == answers[..i];
  }

  lemma LandedStays(db: Db, m: Db, own: Endpoint, states: seq<GroupState>, answers: seq<Answers>, table: map<Endpoint, Name>, i: nat, k: nat)
    requires MirrorOk(m) && TabledManifest(states, answers, table) && k < i < |states|
    requires Landed(db, m, own, states, answers, table, k)
    ensures Landed(db, SyncedOne(m, own, states[i], answers[i]), own, states, answers, table, k)
  {
    assert states[k].name != states[i].name;
    if states[k].name in m.groups {
      SyncedOneLeaves(m, own, states[i], answers[i], table, states[k].name);
    } else {
      SyncedOneAddsNoOther(m, own, states[i], answers[i], states[k].name);
    }
  }

  lemma SyncedOneAddsNoOther(db: Db, own: Endpoint, st: GroupState, a: Answers, g: Name)
    requires g !in db.groups && g != st.name && (a.refetched.Some? ==> a.refetched.value.name == st.name)
    ensures g !in SyncedOne(db, own, st, a).groups
  {
    match FetchedFor(db, st, a.reply)
    case None =>
    case Some(fetched) =>
      var db1 := ApplySync(db, own, st, Decryptable(fetched, st.deks));
      UpsertAllGroups(db, EffectiveAcl(st.acl));
      if a.refetched.Some? {
        UpsertAllGroups(db1, EffectiveAcl(a.refetched.value.acl));
      }
  }

  /** The drops and the sweep at the end change no ACL that stays. */
  lemma EndKeepsRows(synced: Db, own: Endpoint, names: set<Name>, g: Name)
    requires g in synced.groups && g in names
    ensures var end := SweepIdentities(synced.(groups := synced.groups - (synced.groups.Keys - names)));
            && g in end.groups && ViewOf(end, end.groups[g], own) == ViewOf(synced, synced.groups[g], own)
            && AclRows(end, end.groups[g]) == AclRows(synced, synced.groups[g])
  {
    var cut := synced.(groups := synced.groups - (synced.groups.Keys - names));
    SweepKeepsViews(cut, own, g);
    assert AclRows(cut, cut.groups[g]) == AclRows(synced, synced.groups[g]);
    var end := SweepIdentities(cut);
    assert AclRows(end, end.groups[g]) == ViewOf(end, end.groups[g], own).rows;
    assert AclRows(cut, cut.groups[g]) == ViewOf(cut, cut.groups[g], own).rows;
  }

  /** A full resync from states of one identity table, for any answers of the
      node and any mirror: item `k` is absent if its exchange was denied, and
      otherwise carries exactly the ACL of the state applied last, names
      included; and no group outside the manifest is left. */
  lemma FullResyncMirrorsAcls(db: Db, own: Endpoint, states: seq<GroupState>, answers: seq<Answers>, table: map<Endpoint, Name>, k: nat)
    requires MirrorOk(db) && TabledManifest(states, answers, table) && k < |states|
    ensures Resynced(db, own, states, answers).groups.Keys <= StateNames(states)
    ensures var end := Resynced(db, own, states, answers);
            match SettledOn(SyncedAll(db, own, states[..k], answers[..k]), own, states[k], answers[k])
            case None => states[k].name !in end.groups
            case Some(last) => states[k].name in end.groups && ListsAcl(last.acl, AclRows(end, end.groups[states[k].name]))
  {
    SyncedAllLands(db, own, states, answers, table, |states|);
    assert states[..|states|] == states && answers[..|answers|] == answers;
    var synced := SyncedAll(db, own, states, answers);
    assert Landed(db, synced, own, states, answers, table, k);
    assert states[k].name in StateNames(states);
    if states[k].name in synced.groups {
      EndKeepsRows(synced, own, StateNames(states), states[k].name);
    }
  }

  lemma ListedRowsUnique(acl: seq<AclEntry>, a: map<Endpoint, (Name, Perms)>, b: map<Endpoint, (Name, Perms)>)
    requires ListsAcl(acl, a) && ListsAcl(acl, b)
    ensures a == b
  {
    forall e | e in a || e in b
      ensures e in a && e in b && a[e] == b[e]
    {
      assert EndpointIn(acl, e);
      var i :| 0 <= i < |acl| && acl[i].endpoint == e;
    }
  }

  /** Nothing of item `k` is denied or withheld. */
  ghost predicate Smooth(db: Db, own: Endpoint, states: seq<GroupState>, answers: seq<Answers>, k: nat)
    requires |answers| == |states| && k < |states|
  {
    var fetched := FetchedFor(SyncedAll(db, own, states[..k], answers[..k]), states[k], answers[k].reply);
    fetched.Some? && |Decryptable(fetched.value, states[k].deks)| == |fetched.value|
  }

  /** A group whose exchange is smooth ends up with exactly upstream's ACL,
      whatever identities the mirror held, swapped names and replaced keys
      included, and whatever happens to the other groups. */
  lemma ResyncMirrorsAcls(
    db: Db, own: Endpoint, states: seq<GroupState>, answers: seq<Answers>, table: map<Endpoint, Name>, k: nat,
    rows: map<Endpoint, (Name, Perms)>)
    requires MirrorOk(db) && TabledManifest(states, answers, table) && k < |states|
    requires Smooth(db, own, states, answers, k) && ListsAcl(states[k].acl, rows)
    ensures var end := Resynced(db, own, states, answers);
            states[k].name in end.groups && AclRows(end, end.groups[states[k].name]) == rows
  {
    FullResyncMirrorsAcls(db, own, states, answers, table, k);
    var end := Resynced(db, own, states, answers);
    ListedRowsUnique(states[k].acl, AclRows(end, end.groups[states[k].name]), rows);
  }

  // ---- a quiet node: full convergence ----

  /** The rows a node ships for a fetch list; names that vanished are skipped. */
  function ReadRows(up: Db, g: Name, names: seq<Name>): seq<Fetched> {
    if names == [] then []
    else
      var last := names[|names| - 1];
      var row := RowUpstream(up, g, last);
      ReadRows(up, g, names[..|names| - 1]) + if row.Some? then [Fetched(last, row.value)] else []
  }

  lemma {:induction false} ReadRowsFetched(up: Db, g: Name, names: seq<Name>)
    requires g in up.groups && forall i :: 0 <= i < |names| ==> names[i] in CurrentRows(up.groups[g])
    ensures FetchedFrom(ReadRows(up, g, names), names, CurrentRows(up.groups[g]))
  {
    if names != [] {
      ReadRowsFetched(up, g, names[..|names| - 1]);
      assert names[|names| - 1] in CurrentRows(up.groups[g]);
    }
  }

  /** A node's own rows can be opened through its own snapshot's wraps. */
  lemma RowsHaveWraps(n: Node, g: Name, own: Endpoint, name: Name)
    requires Inv(n) && InScope(n.db, g, own) && name in CurrentRows(n.db.groups[g])
    ensures CurrentRows(n.db.groups[g])[name].row.dekVersion in OwnWraps(n.db.groups[g], own)
  {
    var grp := n.db.groups[g];
    assert GroupInv(n.db, g, n.tick);
    var cur := CurrentOf(grp, name).value;
    assert RowSealed(g, grp, name, cur.version, cur.row, n.tick);
    assert Entitled(grp, Reader(own));
    assert (cur.row.dekVersion, Reader(own)) in grp.wraps;
  }

  /** The mirror's group equals the node's. */
  ghost predicate Mirrors(m: Db, up: Db, own: Endpoint, g: Name) {
    g in m.groups && g in up.groups && ViewOf(m, m.groups[g], own) == ViewOf(up, up.groups[g], own)
  }

  /** What one exchange with a quiet node fetches is exactly what it needs. */
  lemma QuietFetch(n: Node, m: Db, own: Endpoint, st: GroupState)
    requires Inv(n) && InScope(n.db, st.name, own) && Snapshot(st, ViewIn(n.db, st.name, own))
    ensures var names := NeedFetch(LocalGroup(m, st.name), st.secrets);
            var fetched := ReadRows(n.db, st.name, names);
            && FetchedFrom(fetched, names, ViewIn(n.db, st.name, own).secrets)
            && Decryptable(fetched, st.deks) == fetched
            && FetchedFor(m, st, Some(fetched)) == Some(fetched)
  {
    var names, rows := NeedFetch(LocalGroup(m, st.name), st.secrets), CurrentRows(n.db.groups[st.name]);
    forall i | 0 <= i < |names|
      ensures names[i] in rows
    {
      NeedFetchSpec(LocalGroup(m, st.name), st.secrets, names[i]);
    }
    ReadRowsFetched(n.db, st.name, names);
    var fetched := ReadRows(n.db, st.name, names);
    forall i | 0 <= i < |fetched|
      ensures fetched[i].cur.row.dekVersion in Versions(st.deks)
    {
      RowsHaveWraps(n, st.name, own, names[i]);
    }
    AllDecryptable(fetched, st.deks);
  }

  /** One exchange with a quiet node converges the group. */
  lemma SyncedOneConverges(n: Node, m: Db, own: Endpoint, st: GroupState, a: Answers)
    requires Inv(n) && MirrorOk(m) && InScope(n.db, st.name, own) && Snapshot(st, ViewIn(n.db, st.name, own))
    requires NonceCoherent(CurrentRows(LocalGroup(m, st.name)), CurrentRows(n.db.groups[st.name]))
    requires a.reply == Some(ReadRows(n.db, st.name, NeedFetch(LocalGroup(m, st.name), st.secrets)))
    ensures SyncedOne(m, own, st, a) == ApplySync(m, own, st, a.reply.value)
    ensures MirrorOk(SyncedOne(m, own, st, a)) && Mirrors(SyncedOne(m, own, st, a), n.db, own, st.name)
  {
    QuietFetch(n, m, own, st);
    SnapshotRowsDistinct(n, st.name, own);
    ApplyConverges(m, own, st, a.reply.value, ViewIn(n.db, st.name, own));
    ApplyKeepsMirrorOk(m, own, st, a.reply.value);
  }

  /** So does the one re-fetch, after a state that was out of date. */
  lemma RefetchConverges(n: Node, m: Db, own: Endpoint, st: GroupState, fetched: seq<Fetched>, a: Answers)
    requires Inv(n) && MirrorOk(m) && InScope(n.db, st.name, own)
    requires FetchedFor(m, st, a.reply) == Some(fetched) && |Decryptable(fetched, st.deks)| != |fetched|
    requires var m1 := ApplySync(m, own, st, Decryptable(fetched, st.deks));
             && a.refetched.Some? && a.refetched.value.name == st.name
             && Snapshot(a.refetched.value, ViewIn(n.db, st.name, own))
             && NonceCoherent(CurrentRows(LocalGroup(m1, st.name)), CurrentRows(n.db.groups[st.name]))
             && a.again == Some(ReadRows(n.db, st.name, NeedFetch(LocalGroup(m1, st.name), a.refetched.value.secrets)))
    ensures MirrorOk(SyncedOne(m, own, st, a)) && Mirrors(SyncedOne(m, own, st, a), n.db, own, st.name)
  {
    var m1 := ApplySync(m, own, st, Decryptable(fetched, st.deks));
    ApplyKeepsMirrorOk(m, own, st, Decryptable(fetched, st.deks));
    QuietFetch(n, m1, own, a.refetched.value);
    RefetchIsAnExchange(m, own, st, fetched, a, a.again.value);
    SyncedOneConverges(n, m1, own, a.refetched.value, Answers(a.again, None, None));
  }

  lemma RefetchIsAnExchange(m: Db, own: Endpoint, st: GroupState, fetched: seq<Fetched>, a: Answers, more: seq<Fetched>)
    requires FetchedFor(m, st, a.reply) == Some(fetched) && |Decryptable(fetched, st.deks)| != |fetched| && a.refetched.Some?
    requires var m1 := ApplySync(m, own, st, Decryptable(fetched, st.deks));
             FetchedFor(m1, a.refetched.value, a.again) == Some(more) && Decryptable(more, a.refetched.value.deks) == more
    ensures SyncedOne(m, own, st, a)
         == SyncedOne(ApplySync(m, own, st, Decryptable(fetched, st.deks)), own, a.refetched.value, Answers(a.again, None, None))
  {
  }

  /** An exchange leaves alone a group that is already converged, and the secrets of
      every other. */
  lemma QuietLeaves(n: Node, m: Db, own: Endpoint, st: GroupState, fetched: seq<Fetched>, g: Name)
    requires Inv(n) && MirrorOk(m) && InScope(n.db, st.name, own) && Snapshot(st, ViewIn(n.db, st.name, own)) && g != st.name
    ensures LocalGroup(ApplySync(m, own, st, fetched), g).secrets == LocalGroup(m, g).secrets
    ensures Mirrors(m, n.db, own, g) ==> Mirrors(ApplySync(m, own, st, fetched), n.db, own, g)
  {
    UpsertAllGroups(m, EffectiveAcl(st.acl));
    if Mirrors(m, n.db, own, g) {
      SnapshotCompatible(n, st, own, g);
      assert ViewOf(m, m.groups[g], own).rows == AclRows(m, m.groups[g]);
      assert ViewOf(n.db, n.db.groups[g], own).rows == AclRows(n.db, n.db.groups[g]);
      ApplyLeavesOthers(m, own, st, fetched, g);
    }
  }

  /** The manifest a quiet node sends. */
  ghost predicate ManifestOf(up: Db, own: Endpoint, states: seq<GroupState>) {
    && DistinctStates(states) && StateNames(states) == Scope(up, own)
    && forall i :: 0 <= i < |states| ==> states[i].name in up.groups && Snapshot(states[i], ViewIn(up, states[i].name, own))
  }

  /** Every fetch is answered with the node's rows. */
  ghost predicate AnsweredBy(up: Db, db: Db, own: Endpoint, states: seq<GroupState>, answers: seq<Answers>) {
    && |answers| == |states|
    && forall k :: 0 <= k < |states| ==> AnswerAt(up, db, own, states, answers, k)
  }

  ghost predicate AnswerAt(up: Db, db: Db, own: Endpoint, states: seq<GroupState>, answers: seq<Answers>, k: nat)
    requires |answers| == |states| && k < |states|
  {
    var m := SyncedAll(db, own, states[..k], answers[..k]);
    answers[k].reply == Some(ReadRows(up, states[k].name, NeedFetch(LocalGroup(m, states[k].name), states[k].secrets)))
  }

  /** Local rows are rows the node once wrote: equal nonces mean equal rows. */
  ghost predicate Coherent(db: Db, up: Db) {
    forall g :: g in up.groups ==> NonceCoherent(CurrentRows(LocalGroup(db, g)), CurrentRows(up.groups[g]))
  }

  /** After `i` exchanges the first `i` groups are converged and the rest wait. */
  ghost predicate ConvergedTo(n: Node, db: Db, m: Db, own: Endpoint, states: seq<GroupState>, i: nat)
    requires i <= |states|
  {
    && MirrorOk(m)
    && (forall j :: 0 <= j < i ==> Mirrors(m, n.db, own, states[j].name))
    && (forall j :: i <= j < |states| ==> LocalGroup(m, states[j].name).secrets == LocalGroup(db, states[j].name).secrets)
  }

  lemma ScopedState(up: Db, own: Endpoint, states: seq<GroupState>, i: nat)
    requires ManifestOf(up, own, states) && i < |states|
    ensures InScope(up, states[i].name, own) && Snapshot(states[i], ViewIn(up, states[i].name, own))
  {
    assert states[i].name in StateNames(states);
  }

  lemma ConvergeNext(n: Node, db: Db, m: Db, r: Db, own: Endpoint, states: seq<GroupState>, a: Answers, i: nat)
    requires Inv(n) && ManifestOf(n.db, own, states) && Coherent(db, n.db) && i < |states|
    requires ConvergedTo(n, db, m, own, states, i)
    requires a.reply == Some(ReadRows(n.db, states[i].name, NeedFetch(LocalGroup(m, states[i].name), states[i].secrets)))
    requires r == SyncedOne(m, own, states[i], a)
    ensures ConvergedTo(n, db, r, own, states, i + 1)
  {
    var st := states[i];
    ScopedState(n.db, own, states, i);
    SameSecretsSameRows(LocalGroup(m, st.name), LocalGroup(db, st.name));
    SyncedOneConverges(n, m, own, st, a);
    forall j: nat | j < |states| && j != i
      ensures StaysPut(n, m, r, own, states[j].name)
    {
      assert states[j].name != st.name;
      QuietLeaves(n, m, own, st, a.reply.value, states[j].name);
    }
    ConvergedOn(n, db, m, r, own, states, i);
  }

  ghost predicate StaysPut(n: Node, m: Db, r: Db, own: Endpoint, g: Name) {
    && LocalGroup(r, g).secrets == LocalGroup(m, g).secrets
    && (Mirrors(m, n.db, own, g) ==> Mirrors(r, n.db, own, g))
  }

  lemma ConvergedOn(n: Node, db: Db, m: Db, r: Db, own: Endpoint, states: seq<GroupState>, i: nat)
    requires i < |states| && ConvergedTo(n, db, m, own, states, i)
    requires MirrorOk(r) && Mirrors(r, n.db, own, states[i].name)
    requires forall j: nat :: j < |states| && j != i ==> StaysPut(n, m, r, own, states[j].name)
    ensures ConvergedTo(n, db, r, own, states, i + 1)
  {
    forall j: nat | j < |states|
      ensures j <= i ==> Mirrors(r, n.db, own, states[j].name)
      ensures i < j ==> LocalGroup(r, states[j].name).secrets == LocalGroup(db, states[j].name).secrets
    {
      if j != i {
        assert StaysPut(n, m, r, own, states[j].name);
      }
    }
  }

  /** The mirror after the first `i` exchanges. */
  function Halfway(db: Db, own: Endpoint, states: seq<GroupState>, answers: seq<Answers>, i: nat): Db
    requires |answers| == |states| && i <= |states|
  {
    SyncedAll(db, own, states[..i], answers[..i])
  }

  lemma ConvergeStep(n: Node, db: Db, own: Endpoint, states: seq<GroupState>, answers: seq<Answers>, i: nat)
    requires Inv(n) && ManifestOf(n.db, own, states) && Coherent(db, n.db) && AnsweredBy(n.db, db, own, states, answers)
    requires i < |states| && ConvergedTo(n, db, Halfway(db, own, states, answers, i), own, states, i)
    ensures ConvergedTo(n, db, Halfway(db, own, states, answers, i + 1), own, states, i + 1)
  {
    assert AnswerAt(n.db, db, own, states, answers, i);
    SyncedAllNext(db, own, states, answers, i);
    ConvergeNext(n, db, Halfway(db, own, states, answers, i), Halfway(db, own, states, answers, i + 1), own, states, answers[i], i);
  }

  lemma {:induction false} ConvergePrefix(n: Node, db: Db, own: Endpoint, states: seq<GroupState>, answers: seq<Answers>, i: nat)
    requires Inv(n) && MirrorOk(db) && ManifestOf(n.db, own, states) && Coherent(db, n.db)
    requires AnsweredBy(n.db, db, own, states, answers) && i <= |states|
    ensures ConvergedTo(n, db, Halfway(db, own, states, answers, i), own, states, i)
  {
    if i > 0 {
      ConvergePrefix(n, db, own, states, answers, i - 1);
      ConvergeStep(n, db, own, states, answers, i - 1);
    } else {
      NothingYet(n, db, own, states, answers);
    }
  }

  lemma NothingYet(n: Node, db: Db, own: Endpoint, states: seq<GroupState>, answers: seq<Answers>)
    requires |answers| == |states| && MirrorOk(db)
    ensures ConvergedTo(n, db, Halfway(db, own, states, answers, 0), own, states, 0)
  {
  }

  /** Whatever was answered, a resync ends with exactly the identities that some
      ACL row of the mirror names. */
  lemma FullResyncSweeps(db: Db, own: Endpoint, states: seq<GroupState>, answers: seq<Answers>, table: map<Endpoint, Name>, e: Endpoint)
    requires MirrorOk(db) && TabledManifest(states, answers, table)
    ensures var end := Resynced(db, own, states, answers);
            e in end.ids <==> exists g :: g in end.groups && e in end.groups[g].acl
  {
    SyncedAllLands(db, own, states, answers, table, |states|);
    WholeWay(db, own, states, answers);
    var synced := SyncedAll(db, own, states, answers);
    SweepDeletesExactly(synced.(groups := synced.groups - (synced.groups.Keys - StateNames(states))), e);
  }

  /** A full resync against a quiet node, from any consistent mirror: the mirror
      then holds exactly the groups in scope, each equal to the node's. */
  lemma FullResyncConverges(n: Node, db: Db, own: Endpoint, states: seq<GroupState>, answers: seq<Answers>)
    requires Inv(n) && MirrorOk(db) && Coherent(db, n.db)
    requires ManifestOf(n.db, own, states) && AnsweredBy(n.db, db, own, states, answers)
    ensures Resynced(db, own, states, answers).groups.Keys == Scope(n.db, own)
    ensures forall g :: g in Scope(n.db, own) ==> Mirrors(Resynced(db, own, states, answers), n.db, own, g)
  {
    ConvergeAll(n, db, own, states, answers);
    EndConverged(n, db, own, states, answers, Scope(n.db, own));
  }

  lemma ConvergeAll(n: Node, db: Db, own: Endpoint, states: seq<GroupState>, answers: seq<Answers>)
    requires Inv(n) && MirrorOk(db) && Coherent(db, n.db)
    requires ManifestOf(n.db, own, states) && AnsweredBy(n.db, db, own, states, answers)
    ensures ConvergedTo(n, db, SyncedAll(db, own, states, answers), own, states, |states|)
  {
    ConvergePrefix(n, db, own, states, answers, |states|);
    WholeWay(db, own, states, answers);
  }

  lemma WholeWay(db: Db, own: Endpoint, states: seq<GroupState>, answers: seq<Answers>)
    requires |answers| == |states|
    ensures Halfway(db, own, states, answers, |states|) == SyncedAll(db, own, states, answers)
  {
    assert states[..|states|] == states && answers[..|answers|] == answers;
  }

  lemma EndConverged(n: Node, db: Db, own: Endpoint, states: seq<GroupState>, answers: seq<Answers>, names: set<Name>)
    requires |answers| == |states| && names == StateNames(states)
    requires ConvergedTo(n, db, SyncedAll(db, own, states, answers), own, states, |states|)
    ensures Resynced(db, own, states, answers).groups.Keys == names
    ensures forall g :: g in names ==> Mirrors(Resynced(db, own, states, answers), n.db, own, g)
  {
    var end := Resynced(db, own, states, answers);
    forall g | g in StateNames(states)
      ensures Mirrors(end, n.db, own, g)
    {
      EndMirrors(n, db, own, states, answers, g);
    }
    assert forall g :: g in end.groups ==> g in StateNames(states);
  }

  lemma EndMirrors(n: Node, db: Db, own: Endpoint, states: seq<GroupState>, answers: seq<Answers>, g: Name)
    requires |answers| == |states| && g in StateNames(states)
    requires ConvergedTo(n, db, SyncedAll(db, own, states, answers), own, states, |states|)
    ensures Mirrors(Resynced(db, own, states, answers), n.db, own, g)
  {
    var j :| 0 <= j < |states| && states[j].name == g;
    EndKeepsRows(SyncedAll(db, own, states, answers), own, StateNames(states), g);
  }
}
