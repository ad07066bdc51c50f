/** The events a replica emits, replayed in order, give exactly its listing. */
module Replay {
  import opened Base
  import opened Tables
  import opened Mirror
  import opened Convergence

  datatype Event =
    | GroupAdded(group: Name)
    | GroupRemoved(group: Name)
    | SecretChanged(group: Name, name: Name, version: nat)
    | SecretDeleted(group: Name, name: Name)

  type Listing = map<Name, map<Name, int>>

  function NamesOf(secrets: map<Name, Secret>): map<Name, int> {
    map n | n in secrets :: secrets[n].current
  }

  function ListingOf(db: Db): Listing {
    map g | g in db.groups :: NamesOf(db.groups[g].secrets)
  }

  /** How a subscriber updates its own listing. */
  function Note(l: Listing, ev: Event): Listing {
    match ev
    case GroupAdded(g) => l[g := map[]]
    case GroupRemoved(g) => l - {g}
    case SecretChanged(g, n, v) => if g in l then l[g := l[g][n := v]] else l
    case SecretDeleted(g, n) => if g in l then l[g := l[g] - {n}] else l
  }

  function NoteAll(l: Listing, evs: seq<Event>): Listing {
    if evs == [] then l else Note(NoteAll(l, evs[..|evs| - 1]), evs[|evs| - 1])
  }

  lemma {:induction false} NoteAllAppend(l: Listing, a: seq<Event>, b: seq<Event>)
    ensures NoteAll(l, a + b) == NoteAll(NoteAll(l, a), b)
  {
    if b == [] {
      assert a + b == a;
    } else {
      NoteAllAppend(l, a, b[..|b| - 1]);
      assert (a + b)[..|a + b| - 1] == a + b[..|b| - 1];
    }
  }

  function Changes(g: Name, fetched: seq<Fetched>): seq<Event> {
    seq(|fetched|, i requires 0 <= i < |fetched| => SecretChanged(g, fetched[i].name, fetched[i].cur.version))
  }

  function Deletions(g: Name, removed: seq<Name>): seq<Event> {
    seq(|removed|, i requires 0 <= i < |removed| => SecretDeleted(g, removed[i]))
  }

  /** What one committed change of the mirror publishes. */
  datatype Op = ApplyOp(st: GroupState, fetched: seq<Fetched>, removed: seq<Name>) | DropOp(group: Name) | SweepOp

  ghost predicate OpOk(db: Db, op: Op) {
    op.ApplyOp? ==>
      Elements(op.removed) == Unlisted(StoreFetched(LocalGroup(db, op.st.name).secrets, op.fetched), op.st.secrets)
  }

  function OpResult(db: Db, own: Endpoint, op: Op): Db {
    match op
    case ApplyOp(st, fetched, _) => ApplySync(db, own, st, fetched)
    case DropOp(g) => DropGroup(db, g)
    case SweepOp => SweepIdentities(db)
  }

  function OpEvents(db: Db, op: Op): seq<Event> {
    match op
    case ApplyOp(st, fetched, removed) =>
      (if st.name in db.groups then [] else [GroupAdded(st.name)]) + Changes(st.name, fetched) + Deletions(st.name, removed)
    case DropOp(g) => if g in db.groups then [GroupRemoved(g)] else []
    case SweepOp => []
  }

  lemma {:induction false} ReplayChanges(l: Listing, g: Name, secrets: map<Name, Secret>, fetched: seq<Fetched>)
    requires g in l && l[g] == NamesOf(secrets)
    ensures NoteAll(l, Changes(g, fetched)) == l[g := NamesOf(StoreFetched(secrets, fetched))]
  {
    if fetched != [] {
      var front, last := fetched[..|fetched| - 1], fetched[|fetched| - 1];
      ReplayChanges(l, g, secrets, front);
      assert Changes(g, fetched)[..|fetched| - 1] == Changes(g, front);
      var stored := StoreFetched(secrets, front);
      assert NamesOf(stored)[last.name := last.cur.version] == NamesOf(stored[last.name := Single(last.cur)]);
    } else {
      assert l[g := NamesOf(secrets)] == l;
    }
  }

  lemma {:induction false} ReplayDeletions(l: Listing, g: Name, removed: seq<Name>)
    requires g in l
    ensures NoteAll(l, Deletions(g, removed)) == l[g := l[g] - Elements(removed)]
  {
    if removed == [] {
      assert Elements(removed) == {};
      assert l[g] - {} == l[g];
      assert l[g := l[g]] == l;
    } else {
      var front, last := removed[..|removed| - 1], removed[|removed| - 1];
      ReplayDeletions(l, g, front);
      ElementsAppend(removed);
      assert Deletions(g, removed)[..|removed| - 1] == Deletions(g, front);
      assert (l[g] - Elements(front)) - {last} == l[g] - Elements(removed);
    }
  }

  lemma ListingAfterApply(db: Db, own: Endpoint, st: GroupState, fetched: seq<Fetched>, stored: map<Name, Secret>)
    requires stored == StoreFetched(LocalGroup(db, st.name).secrets, fetched)
    ensures ListingOf(ApplySync(db, own, st, fetched))
         == ListingOf(db)[st.name := NamesOf(stored) - Unlisted(stored, st.secrets)]
  {
    UpsertAllGroups(db, EffectiveAcl(st.acl));
    ListingOfEdit(db, ApplySync(db, own, st, fetched), st.name, stored, Unlisted(stored, st.secrets));
  }

  lemma ListingOfEdit(a: Db, b: Db, g: Name, stored: map<Name, Secret>, gone: set<Name>)
    requires b.groups.Keys == a.groups.Keys + {g} && b.groups[g].secrets == stored - gone
    requires forall h :: h in a.groups && h != g ==> b.groups[h].secrets == a.groups[h].secrets
    ensures ListingOf(b) == ListingOf(a)[g := NamesOf(stored) - gone]
  {
    assert NamesOf(stored) - gone == NamesOf(stored - gone);
  }

  lemma ReplayAdded(db: Db, g: Name)
    ensures NoteAll(ListingOf(db), if g in db.groups then [] else [GroupAdded(g)])
         == ListingOf(db)[g := NamesOf(LocalGroup(db, g).secrets)]
  {
    var l := ListingOf(db);
    if g in db.groups {
      assert l[g := l[g]] == l;
    } else {
      assert [GroupAdded(g)][..0] == [];
      assert NoteAll(l, []) == l;
      assert NamesOf(LocalGroup(db, g).secrets) == map[];
    }
  }

  lemma ReplayApply(db: Db, own: Endpoint, st: GroupState, fetched: seq<Fetched>, removed: seq<Name>)
    requires OpOk(db, ApplyOp(st, fetched, removed))
    ensures NoteAll(ListingOf(db), OpEvents(db, ApplyOp(st, fetched, removed))) == ListingOf(ApplySync(db, own, st, fetched))
  {
    var g, l := st.name, ListingOf(db);
    var stored := StoreFetched(LocalGroup(db, g).secrets, fetched);
    var added := if g in db.groups then [] else [GroupAdded(g)];
    NoteAllAppend(l, added + Changes(g, fetched), Deletions(g, removed));
    NoteAllAppend(l, added, Changes(g, fetched));
    ReplayAdded(db, g);
    ReplaySecrets(l, g, LocalGroup(db, g).secrets, fetched, removed, stored);
    ListingAfterApply(db, own, st, fetched, stored);
  }

  lemma ReplaySecrets(l: Listing, g: Name, secrets: map<Name, Secret>, fetched: seq<Fetched>, removed: seq<Name>, stored: map<Name, Secret>)
    requires stored == StoreFetched(secrets, fetched)
    ensures NoteAll(NoteAll(l[g := NamesOf(secrets)], Changes(g, fetched)), Deletions(g, removed))
         == l[g := NamesOf(stored) - Elements(removed)]
  {
    var l1 := l[g := NamesOf(secrets)];
    ReplayChanges(l1, g, secrets, fetched);
    var l2 := l1[g := NamesOf(stored)];
    ReplayDeletions(l2, g, removed);
  }

  /** One committed change and its events. */
  lemma ReplayOp(db: Db, own: Endpoint, op: Op)
    requires OpOk(db, op)
    ensures NoteAll(ListingOf(db), OpEvents(db, op)) == ListingOf(OpResult(db, own, op))
  {
    match op
    case ApplyOp(st, fetched, removed) => ReplayApply(db, own, st, fetched, removed);
    case DropOp(g) =>
      var l := ListingOf(db);
      assert NoteAll(l, []) == l;
      if g in db.groups {
        assert [GroupRemoved(g)][..0] == [];
        assert NoteAll(l, [GroupRemoved(g)]) == l - {g};
      }
    case SweepOp =>
  }

  ghost predicate OpsOk(db: Db, own: Endpoint, ops: seq<Op>)
    decreases |ops|
  {
    ops == [] || (OpOk(db, ops[0]) && OpsOk(OpResult(db, own, ops[0]), own, ops[1..]))
  }

  function AfterOps(db: Db, own: Endpoint, ops: seq<Op>): Db
    decreases |ops|
  {
    if ops == [] then db else AfterOps(OpResult(db, own, ops[0]), own, ops[1..])
  }

  function AllEvents(db: Db, own: Endpoint, ops: seq<Op>): seq<Event>
    decreases |ops|
  {
    if ops == [] then [] else OpEvents(db, ops[0]) + AllEvents(OpResult(db, own, ops[0]), own, ops[1..])
  }

  /** Event replay, over any sequence of applies, drops and sweeps: a
      subscriber that folds the events in order holds exactly the mirror's
      listing, even when a fetched list repeats names or names unlisted secrets. */
  lemma {:induction false} ReplayGivesListing(db: Db, own: Endpoint, ops: seq<Op>)
    requires OpsOk(db, own, ops)
    ensures NoteAll(ListingOf(db), AllEvents(db, own, ops)) == ListingOf(AfterOps(db, own, ops))
    decreases |ops|
  {
    if ops != [] {
      var db1 := OpResult(db, own, ops[0]);
      ReplayOp(db, own, ops[0]);
      ReplayGivesListing(db1, own, ops[1..]);
      NoteAllAppend(ListingOf(db), OpEvents(db, ops[0]), AllEvents(db1, own, ops[1..]));
    }
  }
}
