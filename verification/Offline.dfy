/**
 The v1 to v2 migration and the startup backfill of reader wraps, both run
 before any request is served.
 */
module Offline {
  import opened Base
  import opened Crypto
  import opened Tables
  import opened Transactions
  import opened Storage

  // ---- migration ----

  /** A group under schema v1: each DEK version carries its two wraps in columns. */
  datatype OldGroup = OldGroup(acl: map<Endpoint, Perms>, deks: map<nat, (Wrap, Wrap)>, secrets: map<Name, Secret>)

  /** The two wrap columns become rows; nothing else moves. */
  function Migrated(prior: OldGroup): Group {
    Group(prior.acl, prior.deks.Keys,
          (map v | v in prior.deks :: (v, Operational) := prior.deks[v].0) + (map v | v in prior.deks :: (v, Backup) := prior.deks[v].1),
          prior.secrets)
  }

  /** A sound v1 group: both columns hide one DEK per version, and secrets are
      sealed under it. */
  ghost predicate OldInv(g: Name, prior: OldGroup, op: Key, backup: Key, tick: nat) {
    OldDeks(g, prior, op, backup, tick) && SecretsSealed(g, Migrated(prior), tick)
  }

  ghost predicate OldDeks(g: Name, prior: OldGroup, op: Key, backup: Key, tick: nat) {
    && (forall v :: v in prior.deks ==>
          prior.deks[v].0.to == op && prior.deks[v].1 == Wrap(prior.deks[v].0.dek, backup)
          && prior.deks[v].0.dek.group == g && prior.deks[v].0.dek.tick < tick)
    && (forall v, w :: v in prior.deks && w in prior.deks && prior.deks[v].0.dek == prior.deks[w].0.dek ==> v == w)
  }

  // ---- backfill ----

  /** The `(version, endpoint)` pairs that should have a wrap and do not. */
  function Missing(grp: Group): set<(nat, Endpoint)> {
    set v, e | v in grp.deks && e in Readers(grp) && (v, Reader(e)) !in grp.wraps :: (v, e)
  }

  /** Adds a reader wrap for each listed pair whose DEK is at hand. */
  function WithReaders(grp: Group, pairs: set<(nat, Endpoint)>): Group {
    grp.(wraps := grp.wraps + map p | p in pairs && (p.0, Operational) in grp.wraps ::
                                (p.0, Reader(p.1)) := Wrap(DekOf(grp, p.0), EndpointKey(p.1)))
  }

  function Backfilled(grp: Group): Group {
    WithReaders(grp, Missing(grp))
  }

  /** Base wraps are complete and every wrap row is one that should exist;
      reader wraps may be missing. */
  ghost predicate BaseExact(grp: Group) {
    && (forall v: nat, r :: (v, r) in grp.wraps ==> v in grp.deks && Entitled(grp, r))
    && (forall v :: v in grp.deks ==> (v, Operational) in grp.wraps && (v, Backup) in grp.wraps)
  }

  /** Backfilling makes the wraps exact on precisely the groups whose base
      wraps are complete and whose other wraps are all entitled. */
  lemma BackfillExact(grp: Group)
    ensures WrapsExact(Backfilled(grp)) <==> BaseExact(grp)
  {
    var r := Backfilled(grp);
    assert forall q :: Entitled(r, q) == Entitled(grp, q);
    if BaseExact(grp) {
      forall v: nat, q: Recipient
        ensures (v, q) in r.wraps <==> v in r.deks && Entitled(r, q)
      {
        if q.Reader? && v in grp.deks && Entitled(grp, q) && (v, q) !in grp.wraps {
          assert (v, q.endpoint) in Missing(grp);
        }
      }
    }
    if WrapsExact(r) {
      forall v: nat, q: Recipient | (v, q) in grp.wraps
        ensures v in grp.deks && Entitled(grp, q)
      {
        assert (v, q) in r.wraps;
      }
      forall v | v in grp.deks
        ensures (v, Operational) in grp.wraps && (v, Backup) in grp.wraps
      {
        assert (v, Operational) in r.wraps && (v, Backup) in r.wraps;
      }
    }
  }

  /** What a backfill leaves in place: operational wraps, and every DEK. */
  lemma BackfillKeepsDeks(grp: Group)
    ensures forall v :: (v, Operational) in Backfilled(grp).wraps <==> (v, Operational) in grp.wraps
    ensures forall v :: (v, Operational) in grp.wraps ==> DekOf(Backfilled(grp), v) == DekOf(grp, v)
    ensures forall k :: k in grp.wraps ==> k in Backfilled(grp).wraps && Backfilled(grp).wraps[k] == grp.wraps[k]
    ensures forall k :: k in Backfilled(grp).wraps && k !in grp.wraps ==>
              (k.0, Operational) in grp.wraps && k.1.Reader? && Backfilled(grp).wraps[k] == Wrap(DekOf(grp, k.0), EndpointKey(k.1.endpoint))
  {
  }

  lemma BackfillDeks(g: Name, grp: Group, op: Key, backup: Key, tick: nat)
    requires OneDek(grp, op, backup) && DeksDistinct(g, grp, tick)
    ensures OneDek(Backfilled(grp), op, backup) && DeksDistinct(g, Backfilled(grp), tick)
  {
    BackfillKeepsDeks(grp);
    var r := Backfilled(grp);
    forall k | k in r.wraps
      ensures (k.0, Operational) in r.wraps && r.wraps[k] == Wrap(DekOf(r, k.0), KeyFor(op, backup, k.1))
    {
    }
  }

  lemma BackfillSealed(g: Name, grp: Group, tick: nat)
    requires SecretsSealed(g, grp, tick)
    ensures SecretsSealed(g, Backfilled(grp), tick)
  {
    BackfillKeepsDeks(grp);
    var r := Backfilled(grp);
    forall n, v | n in r.secrets && v in r.secrets[n].versions
      ensures RowSealed(g, r, n, v, r.secrets[n].versions[v], tick)
    {
      assert RowSealed(g, grp, n, v, grp.secrets[n].versions[v], tick);
    }
  }

  /** The wrap rows of `grp` are the columns of `prior`. */
  ghost predicate RowsOfColumns(grp: Group, prior: OldGroup) {
    && grp.deks == prior.deks.Keys
    && (forall v :: v in prior.deks ==> (v, Operational) in grp.wraps && grp.wraps[(v, Operational)] == prior.deks[v].0)
    && (forall v :: v in prior.deks ==> (v, Backup) in grp.wraps && grp.wraps[(v, Backup)] == prior.deks[v].1)
    && (forall k :: k in grp.wraps ==> k.0 in prior.deks && !k.1.Reader?)
  }

  lemma MigratedRows(prior: OldGroup)
    ensures RowsOfColumns(Migrated(prior), prior)
  {
  }

  lemma ColumnsAreBase(grp: Group, g: Name, prior: OldGroup, op: Key, backup: Key, tick: nat)
    requires RowsOfColumns(grp, prior) && OldDeks(g, prior, op, backup, tick)
    ensures BaseExact(grp) && OneDek(grp, op, backup) && DeksDistinct(g, grp, tick)
  {
    forall k | k in grp.wraps
      ensures (k.0, Operational) in grp.wraps && grp.wraps[k] == Wrap(DekOf(grp, k.0), KeyFor(op, backup, k.1))
    {
      assert k == (k.0, k.1) && k.0 in prior.deks;
    }
  }

  /** ACL, secrets and DEK versions are the old ones, and each old wrap column
      is a row. */
  ghost predicate KeepsOldRows(prior: OldGroup, grp: Group) {
    && grp.acl == prior.acl && grp.secrets == prior.secrets && grp.deks == prior.deks.Keys
    && forall v :: v in prior.deks ==>
         && (v, Operational) in grp.wraps && grp.wraps[(v, Operational)] == prior.deks[v].0
         && (v, Backup) in grp.wraps && grp.wraps[(v, Backup)] == prior.deks[v].1
  }

  lemma MigrationKeepsRows(prior: OldGroup)
    ensures KeepsOldRows(prior, Backfilled(Migrated(prior)))
  {
    MigratedRows(prior);
    BackfillKeepsDeks(Migrated(prior));
  }

  /** A migrated and backfilled v1 database satisfies the whole invariant of a
      v2 database. */
  lemma MigrationEstablishes(ids: map<Endpoint, Identity>, olds: map<Name, OldGroup>, op: Key, backup: Key, tick: nat)
    requires UniqueNames(ids)
    requires forall g :: g in olds ==> OldInv(g, olds[g], op, backup, tick) && olds[g].deks != map[] && olds[g].acl.Keys <= ids.Keys
    ensures DbInv(Db(ids, map g | g in olds :: Backfilled(Migrated(olds[g])), op, backup), tick)
    ensures forall g :: g in olds ==> KeepsOldRows(olds[g], Backfilled(Migrated(olds[g])))
  {
    var db := Db(ids, map g | g in olds :: Backfilled(Migrated(olds[g])), op, backup);
    forall g | g in olds
      ensures KeepsOldRows(olds[g], Backfilled(Migrated(olds[g])))
    {
      MigrationKeepsRows(olds[g]);
    }
    forall g | g in db.groups
      ensures GroupInv(db, g, tick)
    {
      var grp := Migrated(olds[g]);
      MigratedRows(olds[g]);
      ColumnsAreBase(grp, g, olds[g], op, backup, tick);
      BackfillExact(grp);
      BackfillDeks(g, grp, op, backup, tick);
      BackfillSealed(g, grp, tick);
      assert grp.deks != {} by { var v :| v in olds[g].deks; assert v in grp.deks; }
    }
  }

  /** An exact group has nothing to backfill, so a second run creates nothing. */
  lemma BackfillIdempotent(grp: Group)
    ensures WrapsExact(grp) ==> Missing(grp) == {} && Backfilled(grp) == grp
    ensures BaseExact(grp) ==> Missing(Backfilled(grp)) == {}
  {
    BackfillExact(grp);
    if WrapsExact(grp) {
      NothingMissing(grp);
      assert Backfilled(grp).wraps == grp.wraps;
    }
    if BaseExact(grp) {
      NothingMissing(Backfilled(grp));
    }
  }

  lemma NothingMissing(grp: Group)
    requires WrapsExact(grp)
    ensures Missing(grp) == {}
  {
    forall v, e | v in grp.deks && e in Readers(grp)
      ensures (v, Reader(e)) in grp.wraps
    {
      assert Entitled(grp, Reader(e));
    }
  }

  type Triple = (Name, nat, Endpoint)

  ghost predicate Wrappable(groups: map<Name, Group>, triples: seq<Triple>) {
    forall i :: 0 <= i < |triples| ==> triples[i].0 in groups && (triples[i].1, Operational) in groups[triples[i].0].wraps
  }

  /** The groups once the listed wraps have been created, one after another. */
  ghost function Filled(groups: map<Name, Group>, triples: seq<Triple>): (r: map<Name, Group>)
    requires Wrappable(groups, triples)
    ensures r.Keys == groups.Keys
  {
    if triples == [] then groups
    else
      var done, t := Filled(groups, triples[..|triples| - 1]), triples[|triples| - 1];
      var w := Wrap(DekOf(groups[t.0], t.1), EndpointKey(t.2));
      done[t.0 := done[t.0].(wraps := done[t.0].wraps[(t.1, Reader(t.2)) := w])]
  }

  ghost predicate IsListed(triples: seq<Triple>, g: Name, k: (nat, Recipient)) {
    k.1.Reader? && exists i :: 0 <= i < |triples| && triples[i] == (g, k.0, k.1.endpoint)
  }

  lemma {:induction false} FilledAt(groups: map<Name, Group>, triples: seq<Triple>, g: Name, k: (nat, Recipient))
    requires Wrappable(groups, triples) && g in groups
    ensures Filled(groups, triples)[g] == groups[g].(wraps := Filled(groups, triples)[g].wraps)
    ensures k in Filled(groups, triples)[g].wraps <==> k in groups[g].wraps || IsListed(triples, g, k)
    ensures k in Filled(groups, triples)[g].wraps ==>
              if IsListed(triples, g, k)
              then (k.0, Operational) in groups[g].wraps
                   && Filled(groups, triples)[g].wraps[k] == Wrap(DekOf(groups[g], k.0), EndpointKey(k.1.endpoint))
              else Filled(groups, triples)[g].wraps[k] == groups[g].wraps[k]
  {
    if triples != [] {
      var front, t := triples[..|triples| - 1], triples[|triples| - 1];
      FilledAt(groups, front, g, k);
      assert IsListed(triples, g, k) <==> IsListed(front, g, k) || (k.1.Reader? && t == (g, k.0, k.1.endpoint)) by {
        assert forall i :: 0 <= i < |front| ==> front[i] == triples[i];
      }
    }
  }

  function MissingRows(groups: map<Name, Group>): set<Triple> {
    set g, p | g in groups && p in Missing(groups[g]) :: (g, p.0, p.1)
  }

  /** The operational key opens this version's DEK. */
  predicate Opens(grp: Group, v: nat, op: Key) {
    (v, Operational) in grp.wraps && Unwrap(grp.wraps[(v, Operational)], op).Some?
  }

  lemma BackfilledAt(grp: Group, k: (nat, Recipient))
    ensures k in Backfilled(grp).wraps <==>
              k in grp.wraps || (k.1.Reader? && (k.0, k.1.endpoint) in Missing(grp) && (k.0, Operational) in grp.wraps)
    ensures k in Backfilled(grp).wraps && k !in grp.wraps ==>
              Backfilled(grp).wraps[k] == Wrap(DekOf(grp, k.0), EndpointKey(k.1.endpoint))
    ensures k in grp.wraps ==> Backfilled(grp).wraps[k] == grp.wraps[k]
  {
    BackfillKeepsDeks(grp);
    assert k == (k.0, k.1);
  }

  lemma FilledIsBackfilled(groups: map<Name, Group>, missing: seq<Triple>)
    requires Lists(missing, MissingRows(groups)) && Wrappable(groups, missing)
    ensures Filled(groups, missing) == map g | g in groups :: Backfilled(groups[g])
  {
    var r := Filled(groups, missing);
    forall g | g in groups
      ensures r[g] == Backfilled(groups[g])
    {
      forall k: (nat, Recipient)
        ensures k in r[g].wraps <==> k in Backfilled(groups[g]).wraps
        ensures k in r[g].wraps ==> r[g].wraps[k] == Backfilled(groups[g]).wraps[k]
      {
        FilledAt(groups, missing, g, k);
        BackfilledAt(groups[g], k);
        ListedIsMissing(groups, missing, g, k);
      }
      FilledAt(groups, missing, g, (0, Operational));
      assert r[g].wraps == Backfilled(groups[g]).wraps;
    }
  }

  lemma ListedIsMissing(groups: map<Name, Group>, missing: seq<Triple>, g: Name, k: (nat, Recipient))
    requires Lists(missing, MissingRows(groups)) && g in groups
    ensures IsListed(missing, g, k) <==> k.1.Reader? && (k.0, k.1.endpoint) in Missing(groups[g])
  {
    if k.1.Reader? {
      var t := (g, k.0, k.1.endpoint);
      assert t in MissingRows(groups) <==> (k.0, k.1.endpoint) in Missing(groups[g]);
      assert t in missing <==> t in MissingRows(groups);
    }
  }

  /** Wraps the DEK of one version to one reader, if the operational key opens it. */
  method WrapToReader(store: Store, t: Triple, op: Key) returns (ok: bool)
    requires t.0 in store.groups
    modifies store
    ensures ok <==> Opens(old(store.groups)[t.0], t.1, op)
    ensures !ok ==> store.State() == old(store.State())
    ensures ok ==>
              var grp := old(store.groups)[t.0];
              store.State() == old(store.State()).(
                groups := old(store.groups)[t.0 := grp.(wraps := grp.wraps[(t.1, Reader(t.2)) := Wrap(DekOf(grp, t.1), EndpointKey(t.2))])])
  {
    if (t.1, Operational) !in store.groups[t.0].wraps {
      return false;
    }
    var dek := Unwrap(store.groups[t.0].wraps[(t.1, Operational)], op);
    if dek.None? {
      return false;
    }
    store.AddDekWrap(t.0, t.1, Reader(t.2), Wrap(dek.value, EndpointKey(t.2)));
    ok := true;
  }

  /** Each wrap commits by itself, so the first `n` are in place either way. */
  method WrapAll(store: Store, missing: seq<Triple>, op: Key) returns (n: nat)
    requires forall i :: 0 <= i < |missing| ==> missing[i].0 in store.groups
    modifies store
    ensures n <= |missing| && Wrappable(old(store.groups), missing[..n])
    ensures store.State() == old(store.State()).(groups := Filled(old(store.groups), missing[..n]))
    ensures n < |missing| ==> !Opens(old(store.groups)[missing[n].0], missing[n].1, op)
  {
    ghost var before := store.groups;
    n := 0;
    while n < |missing|
      invariant n <= |missing| && Wrappable(before, missing[..n])
      invariant store.State() == old(store.State()).(groups := Filled(before, missing[..n]))
    {
      var t := missing[n];
      FilledAt(before, missing[..n], t.0, (t.1, Operational));
      assert missing[..n + 1][..n] == missing[..n];
      var ok := WrapToReader(store, t, op);
      if !ok {
        return;
      }
      n := n + 1;
    }
  }

  /** Creates every missing reader wrap and returns how many there were. It
      stops at the first DEK that the operational key does not open, with the
      wraps before it in place. */
  method BackfillReaderWraps(store: Store, op: Key) returns (created: Option<nat>, ghost missing: seq<Triple>, ghost done: nat)
    modifies store
    ensures Lists(missing, MissingRows(old(store.groups))) && done <= |missing| && Wrappable(old(store.groups), missing[..done])
    ensures store.State() == old(store.State()).(groups := Filled(old(store.groups), missing[..done]))
    ensures created.Some? ==> created.value == |MissingRows(old(store.groups))| == done
    ensures created.Some? ==> store.State() == old(store.State()).(groups := map g | g in old(store.groups) :: Backfilled(old(store.groups)[g]))
    ensures created.None? ==> done < |missing| && missing[done].0 in old(store.groups)
                              && !Opens(old(store.groups)[missing[done].0], missing[done].1, op)
  {
    ghost var before := store.groups;
    var rows := MissingRows(store.groups);
    var list := Enumerate(rows);
    missing := list;
    assert forall i :: 0 <= i < |list| ==> list[i] in rows;
    var n := WrapAll(store, list, op);
    done := n;
    if n < |list| {
      assert list[n] in rows;
      created := None;
      return;
    }
    assert list[..n] == list;
    FilledIsBackfilled(before, list);
    ListLength(list, rows);
    created := Some(n);
  }

  lemma {:induction false} ListLength<T(!new)>(l: seq<T>, s: set<T>)
    requires Lists(l, s)
    ensures |l| == |s|
  {
    if l != [] {
      var front, last := l[..|l| - 1], l[|l| - 1];
      forall x ensures x in front <==> x in s - {last} {
        if x in s && x != last {
          var i :| 0 <= i < |l| && l[i] == x;
          assert front[i] == x;
        }
      }
      ListLength(front, s - {last});
    } else {
      assert s == {};
    }
  }
}
