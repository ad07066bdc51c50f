/**
 The bunker, seen by its clients, is a plain versioned map: DEK rotations,
 grants, revocations, identity removals, rescue grants and recoveries never
 show through.
 */
module VersionedMap {
  import opened Base
  import opened Crypto
  import opened Encoding
  import opened Tables
  import opened Transactions
  import opened Requests
  import opened Maintenance
  import opened Runs
  import opened Access

  datatype Entry = Entry(value: Bytes, version: nat)

  /** What the last applied write or delete of a secret left, by the clients' account. */
  ghost function LastWrite(n: Node, steps: seq<Step>, g: Name, name: Name): Option<Entry> {
    if steps == [] then None
    else
      var last, before := steps[|steps| - 1], steps[..|steps| - 1];
      if !last.Ask? then LastWrite(n, before, g, name) else
      var answer := Answer(Run(n, before), last.remote, last.req);
      match last.req
      case Put(h, m, value, _) =>
        if h == g && m == name && answer.NewVersion? then Some(Entry(value, answer.version))
        else LastWrite(n, before, g, name)
      case Delete(h, m, _) =>
        if h == g && m == name && answer.Ok? then None
        else LastWrite(n, before, g, name)
      case _ => LastWrite(n, before, g, name)
  }

  /** The stored secret is the given entry. */
  ghost predicate StoredAs(db: Db, g: Name, name: Name, entry: Option<Entry>) {
    match entry
    case None => g in db.groups ==> name !in db.groups[g].secrets
    case Some(en) =>
      && g in db.groups
      && CurrentOf(db.groups[g], name).Some?
      && CurrentOf(db.groups[g], name).value.version == en.version
      && CurrentOf(db.groups[g], name).value.row.cipher.plain == en.value
  }

  /** Transactions other than a write or delete of the secret leave it alone. */
  lemma CommitLeavesSecret(db: Db, tx: Tx, tick: nat, g: Name, name: Name)
    requires TxOk(db, tx)
    requires !(tx.PutSecret? && tx.g == g && tx.name == name)
    requires !(tx.DeleteSecret? && tx.g == g && tx.name == name)
    ensures var db' := Commit(db, tx, tick);
            && (g in db.groups ==> g in db'.groups && SecretIn(db'.groups[g], name) == SecretIn(db.groups[g], name))
            && (g !in db.groups && g in db'.groups ==> name !in db'.groups[g].secrets)
  {
  }

  lemma {:induction false} RunStores(n: Node, steps: seq<Step>, g: Name, name: Name)
    requires Inv(n) && n.db.groups == map[]
    ensures StoredAs(Run(n, steps).db, g, name, LastWrite(n, steps, g, name))
  {
    if steps != [] {
      var last, before := steps[|steps| - 1], steps[..|steps| - 1];
      RunStores(n, before, g, name);
      var m := Run(n, before);
      var tx := NextCases(m, last);
      if tx.PutSecret? && tx.g == g && tx.name == name {
        PutStores(m, last.remote, last.req);
      } else if tx.DeleteSecret? && tx.g == g && tx.name == name {
      } else {
        CommitLeavesSecret(m.db, tx, m.tick, g, name);
        LastWriteSkips(n, steps, g, name);
      }
    }
  }

  lemma PutStores(n: Node, remote: Endpoint, req: Request)
    requires Decide(n.db, remote, req).tx.PutSecret?
    ensures req.Put? && Answer(n, remote, req).NewVersion?
    ensures var tx := Decide(n.db, remote, req).tx;
            && tx.g == req.group && tx.name == req.name
            && StoredAs(After(n, remote, req).db, req.group, req.name,
                        Some(Entry(req.value, Answer(n, remote, req).version)))
  {
  }

  lemma LastWriteSkips(n: Node, steps: seq<Step>, g: Name, name: Name)
    requires steps != []
    requires var last, m := steps[|steps| - 1], Run(n, steps[..|steps| - 1]);
             last.Ask? ==>
               var tx := Decide(m.db, last.remote, last.req).tx;
               && !(tx.PutSecret? && tx.g == g && tx.name == name)
               && !(tx.DeleteSecret? && tx.g == g && tx.name == name)
    ensures LastWrite(n, steps, g, name) == LastWrite(n, steps[..|steps| - 1], g, name)
  {
  }

  /** With the wrap invariant, the operational key opens every stored secret. */
  lemma OperationalOpens(n: Node, g: Name, name: Name)
    requires Inv(n) && g in n.db.groups && CurrentOf(n.db.groups[g], name).Some?
    ensures OpenSecret(g, n.db.groups[g], name, Operational, n.db.op)
         == Some(CurrentOf(n.db.groups[g], name).value.row.cipher.plain)
  {
    var grp := n.db.groups[g];
    assert GroupInv(n.db, g, n.tick);
    var cur := CurrentOf(grp, name).value;
    assert RowSealed(g, grp, name, cur.version, cur.row, n.tick);
    var k := (cur.row.dekVersion, Operational);
    assert k in grp.wraps && grp.wraps[k] == Wrap(DekOf(grp, k.0), KeyFor(n.db.op, n.db.backup, k.1));
  }

  /** Over every run from a fresh database, Get answers a service admin, or a
      registered caller whose ACL row has the read bit, with exactly the value
      and version of the last applied Put since the last applied Delete, and
      everyone else with a denial. */
  lemma GetReturnsLastWrite(n: Node, steps: seq<Step>, remote: Endpoint, g: Name, name: Name)
    requires Inv(n) && n.db.groups == map[]
    ensures var db := Run(n, steps).db;
            var allowed := remote in db.ids && g in db.groups
                           && (db.ids[remote].serviceAdmin || (remote in db.groups[g].acl && db.groups[g].acl[remote].read));
            Answer(Run(n, steps), remote, Get(g, name)) ==
            match LastWrite(n, steps, g, name)
            case None => Denied
            case Some(en) => if allowed then SecretValue(en.value, en.version) else Denied
  {
    RunStores(n, steps, g, name);
    RunKeepsInv(n, steps);
    var m := Run(n, steps);
    DeniedUnlessEntitled(m, remote, Get(g, name));
    if g in m.db.groups && CurrentOf(m.db.groups[g], name).Some? {
      OperationalOpens(m, g, name);
    }
  }

  /** List gives such a caller exactly the secrets last written and not
      deleted since, each with the version of its last write. */
  lemma ListReturnsLastWrites(n: Node, steps: seq<Step>, remote: Endpoint, g: Name, name: Name)
    requires Inv(n) && n.db.groups == map[] && May(Run(n, steps).db, remote, g, ToRead)
    ensures var answer, last := Answer(Run(n, steps), remote, List(g)), LastWrite(n, steps, g, name);
            answer.Names? && (name in answer.names <==> last.Some?) && (last.Some? ==> answer.names[name] == last.value.version)
  {
    RunStores(n, steps, g, name);
    DeniedUnlessEntitled(Run(n, steps), remote, List(g));
    ListingsListTheRows(Run(n, steps), remote, g);
  }

  /** `put`'s early conflict answers equal the store's compare-and-set, except
      at the one version number where adding one would overflow. */
  lemma PutAnswersLikeTheStore(n: Node, remote: Endpoint, g: Name, name: Name, value: Bytes, expected: nat)
    requires Inv(n) && May(n.db, remote, g, ToWrite) && expected <= U64_MAX
    ensures Answer(n, remote, Put(g, name, value, expected)) == PutCas(n.db.groups[g], name, expected)
       <==> !(expected == U64_MAX && VersionOf(n.db.groups[g], name) == U64_MAX)
  {
    WriteReady(n, g, name);
    EarlyMatches(n.db, remote, g, name, value, expected);
  }

  /** Versions are 64-bit words, so the overflow is not met below the signed
      range the database stores: there the two always agree. */
  lemma PutAgreesInRange(n: Node, remote: Endpoint, g: Name, name: Name, value: Bytes, expected: nat)
    requires Inv(n) && May(n.db, remote, g, ToWrite) && expected <= U64_MAX
    requires VersionOf(n.db.groups[g], name) < I64_LIMIT
    ensures Answer(n, remote, Put(g, name, value, expected)) == PutCas(n.db.groups[g], name, expected)
    ensures Answer(n, remote, Put(g, name, value, expected)).NewVersion? ==>
              Answer(n, remote, Put(g, name, value, expected)).version <= I64_LIMIT
  {
    PutAnswersLikeTheStore(n, remote, g, name, value, expected);
  }

  lemma EarlyMatches(db: Db, remote: Endpoint, g: Name, name: Name, value: Bytes, expected: nat)
    requires remote in db.ids && expected <= U64_MAX
    requires Authorized(db, remote, g, WRITE, db.ids[remote].serviceAdmin)
    requires CanSeal(db, db.groups[g], name)
    ensures Decide(db, remote, Put(g, name, value, expected)).response == PutCas(db.groups[g], name, expected)
       <==> !(expected == U64_MAX && VersionOf(db.groups[g], name) == U64_MAX)
  {
  }

  /** The current DEK opens, and a stored secret has a positive version. */
  ghost predicate CanSeal(db: Db, grp: Group, name: Name) {
    && grp.deks != {}
    && (MaxVersion(grp.deks), Operational) in grp.wraps
    && Unwrap(grp.wraps[(MaxVersion(grp.deks), Operational)], db.op).Some?
    && (name in grp.secrets ==> VersionOf(grp, name) > 0)
  }

  lemma WriteReady(n: Node, g: Name, name: Name)
    requires Inv(n) && g in n.db.groups
    ensures CanSeal(n.db, n.db.groups[g], name)
  {
    var grp := n.db.groups[g];
    assert GroupInv(n.db, g, n.tick);
    var k := (MaxVersion(grp.deks), Operational);
    assert k in grp.wraps && grp.wraps[k] == Wrap(DekOf(grp, k.0), KeyFor(n.db.op, n.db.backup, k.1));
  }

  /** A sound node holding one secret that has been written `U64_MAX` times. */
  function WornOut(): Node {
    var dek := Dek(0, [1]);
    var row := Row(1, 1, Sealed(dek, SecretAad([1], [2], U64_MAX, 1), 1, [7]), [3]);
    var grp := NewGroup(NodeKey(0), NodeKey(1), dek, [9]).(secrets := map[[2] := Secret(U64_MAX, map[U64_MAX := row])]);
    Node(Db(map[[9] := Identity([3], true)], map[[1] := grp], NodeKey(0), NodeKey(1)), 2)
  }

  /** There the two answers differ: the store would move on, `put` refuses. */
  lemma PutRefusesTheLastVersion()
    ensures Inv(WornOut())
    ensures Answer(WornOut(), [9], Put([1], [2], [8], U64_MAX)) == VersionConflict(U64_MAX)
    ensures PutCas(WornOut().db.groups[[1]], [2], U64_MAX) == NewVersion(U64_MAX + 1)
  {
    var n := WornOut();
    var grp := n.db.groups[[1]];
    NewGroupKeeps(NodeKey(0), NodeKey(1), [1], [9], 0);
    WrapSetKeys(NodeKey(0), NodeKey(1), Dek(0, [1]), 1, {[9]});
    assert RowSealed([1], grp, [2], U64_MAX, grp.secrets[[2]].versions[U64_MAX], 2);
    assert SecretsSealed([1], grp, 2);
    SameKeysKeep(NodeKey(0), NodeKey(1), [1], NewGroup(NodeKey(0), NodeKey(1), Dek(0, [1]), [9]), grp, 1);
    assert GroupInv(n.db, [1], 2);
    WriteReady(n, [1], [2]);
  }
}
