/**
 The store as an object: tables in fields, transactions as methods. Every
 method works on local copies of the rows it touches and writes them back
 at its end, which is where the transaction commits. A call that fails
 before that leaves the tables as they were.
 */
module Storage {
  import opened Base
  import opened Crypto
  import opened Tables
  import opened Transactions

  /** `l` lists the elements of `s`, each once, in some order. */
  ghost predicate Lists<T(!new)>(l: seq<T>, s: set<T>) {
    && (forall x :: x in l <==> x in s)
    && (forall i, j :: 0 <= i < j < |l| ==> l[i] != l[j])
  }

  /** The rows of a query, in some order. */
  method Enumerate<T(==,!new)>(s: set<T>) returns (l: seq<T>)
    ensures Lists(l, s)
  {
    l := [];
    var left := s;
    while left != {}
      invariant left <= s
      invariant Lists(l, s - left)
      decreases |left|
    {
      var x :| x in left;
      l := l + [x];
      left := left - {x};
    }
    assert s - left == s;
  }

  // ---- wrap rows ----

  type WrapList = seq<(Recipient, Wrap)>
  type VersionList = seq<(nat, Wrap)>

  function AddRows(rows: map<(nat, Recipient), Wrap>, version: nat, wraps: WrapList): map<(nat, Recipient), Wrap> {
    if wraps == [] then rows
    else
      var last := wraps[|wraps| - 1];
      AddRows(rows, version, wraps[..|wraps| - 1])[(version, last.0) := last.1]
  }

  function AddReaderRows(rows: map<(nat, Recipient), Wrap>, e: Endpoint, wraps: VersionList): map<(nat, Recipient), Wrap> {
    if wraps == [] then rows
    else
      var last := wraps[|wraps| - 1];
      AddReaderRows(rows, e, wraps[..|wraps| - 1])[(last.0, Reader(e)) := last.1]
  }

  /** Inserting these rows violates no primary key. */
  ghost predicate NoClash(rows: map<(nat, Recipient), Wrap>, version: nat, wraps: WrapList) {
    && (forall i, j :: 0 <= i < j < |wraps| ==> wraps[i].0 != wraps[j].0)
    && (forall i :: 0 <= i < |wraps| ==> (version, wraps[i].0) !in rows)
  }

  lemma {:induction false} AddRowsKeys(rows: map<(nat, Recipient), Wrap>, version: nat, wraps: WrapList, k: (nat, Recipient))
    ensures k in AddRows(rows, version, wraps) <==> k in rows || (k.0 == version && exists i :: 0 <= i < |wraps| && wraps[i].0 == k.1)
  {
    if wraps != [] {
      var front := wraps[..|wraps| - 1];
      AddRowsKeys(rows, version, front, k);
      assert forall i :: 0 <= i < |front| ==> wraps[i] == front[i];
    }
  }

  /** `SELECT COALESCE(MAX(version), 0) + 1`. */
  method NextDekVersion(deks: set<nat>) returns (next: nat)
    ensures next == NextVersion(deks)
  {
    var left := deks;
    next := 1;
    while left != {}
      invariant left <= deks
      invariant next >= 1 && forall v :: v in deks && v !in left ==> v < next
      invariant next == 1 || next - 1 in deks
      decreases |left|
    {
      var v :| v in left;
      left := left - {v};
      if v >= next {
        next := v + 1;
      }
    }
  }

  ghost function Inserted(grp: Group, wraps: WrapList): Group {
    var next := NextVersion(grp.deks);
    grp.(deks := grp.deks + {next}, wraps := AddRows(grp.wraps, next, wraps))
  }

  /** Appends the next DEK version with its wraps, row by row. */
  method InsertDekVersion(grp: Group, wraps: WrapList) returns (r: Option<Group>)
    ensures r.Some? <==> NoClash(grp.wraps, NextVersion(grp.deks), wraps)
    ensures r.Some? ==> r.value == Inserted(grp, wraps)
  {
    var next := NextDekVersion(grp.deks);
    var rows := grp.wraps;
    for i := 0 to |wraps|
      invariant rows == AddRows(grp.wraps, next, wraps[..i])
      invariant NoClash(grp.wraps, next, wraps[..i])
    {
      AddRowsKeys(grp.wraps, next, wraps[..i], (next, wraps[i].0));
      if (next, wraps[i].0) in rows {
        return None;
      }
      assert wraps[..i + 1][..i] == wraps[..i];
      rows := rows[(next, wraps[i].0) := wraps[i].1];
    }
    assert wraps[..|wraps|] == wraps;
    r := Some(grp.(deks := grp.deks + {next}, wraps := rows));
  }

  // ---- identity removal ----

  /** A group, the recipient whose wraps go, and the wraps of its next DEK. */
  datatype Rotation = Rotation(group: Name, revoked: Endpoint, wraps: WrapList)

  datatype Removal = Removed | NoIdentity | Aborted

  ghost function RotateOne(grp: Group, r: Rotation): Group {
    Inserted(grp.(wraps := DropWraps(grp.wraps, r.revoked)), r.wraps)
  }

  ghost predicate AllIn(groups: map<Name, Group>, rotations: seq<Rotation>) {
    forall i :: 0 <= i < |rotations| ==> rotations[i].group in groups
  }

  ghost function RotateAll(groups: map<Name, Group>, rotations: seq<Rotation>): (r: map<Name, Group>)
    requires AllIn(groups, rotations)
    ensures r.Keys == groups.Keys
  {
    if rotations == [] then groups
    else
      var done, last := RotateAll(groups, rotations[..|rotations| - 1]), rotations[|rotations| - 1];
      done[last.group := RotateOne(done[last.group], last)]
  }

  lemma {:induction false} RotateAllAt(groups: map<Name, Group>, rotations: seq<Rotation>, g: Name)
    requires AllIn(groups, rotations) && g in groups
    requires forall i :: 0 <= i < |rotations| ==> rotations[i].group != g
    ensures RotateAll(groups, rotations)[g] == groups[g]
  {
    if rotations != [] {
      RotateAllAt(groups, rotations[..|rotations| - 1], g);
    }
  }

  /** The rows an identity deletion cascades to. */
  function Cascade(groups: map<Name, Group>, e: Endpoint): map<Name, Group> {
    map g | g in groups :: groups[g].(acl := groups[g].acl - {e})
  }

  ghost predicate ClashFree(groups: map<Name, Group>, rotations: seq<Rotation>)
    requires AllIn(groups, rotations)
  {
    && (forall i, j :: 0 <= i < j < |rotations| ==> rotations[i].group != rotations[j].group)
    && (forall i :: 0 <= i < |rotations| ==>
          NoClash(groups[rotations[i].group].wraps, NextVersion(groups[rotations[i].group].deks), rotations[i].wraps)
          && rotations[i].wraps != [])
  }

  lemma CascadeClashFree(groups: map<Name, Group>, e: Endpoint, rotations: seq<Rotation>)
    requires AllIn(groups, rotations) && ClashFree(groups, rotations)
    ensures AllIn(Cascade(groups, e), rotations) && ClashFree(Cascade(groups, e), rotations)
  {
  }

  lemma DropNoClash(rows: map<(nat, Recipient), Wrap>, version: nat, e: Endpoint, wraps: WrapList)
    requires NoClash(rows, version, wraps)
    ensures NoClash(DropWraps(rows, e), version, wraps)
  {
  }

  /** Drops the revoked wraps and appends a DEK version, group by group. */
  method RotateEach(groups: map<Name, Group>, rotations: seq<Rotation>) returns (r: Option<map<Name, Group>>)
    requires AllIn(groups, rotations)
    ensures r.Some? ==> r.value == RotateAll(groups, rotations)
    ensures ClashFree(groups, rotations) ==> r.Some?
  {
    var work := groups;
    for i := 0 to |rotations|
      invariant work == RotateAll(groups, rotations[..i])
    {
      ghost var done := rotations[..i];
      assert rotations[..i + 1][..i] == done;
      var rot := rotations[i];
      var grp := work[rot.group];
      grp := grp.(wraps := DropWraps(grp.wraps, rot.revoked));
      if ClashFree(groups, rotations) {
        RotateAllAt(groups, done, rot.group);
        DropNoClash(groups[rot.group].wraps, NextVersion(grp.deks), rot.revoked, rot.wraps);
      }
      var inserted := InsertDekVersion(grp, rot.wraps);
      if inserted.None? {
        return None;
      }
      work := work[rot.group := inserted.value];
    }
    assert rotations[..|rotations|] == rotations;
    r := Some(work);
  }

  class Store {
    var ids: map<Endpoint, Identity>
    var groups: map<Name, Group>
    var op: Key
    var backup: Key

    /** The tables as a value. */
    function State(): Db
      reads this
    {
      Db(ids, groups, op, backup)
    }

    constructor (op: Key, backup: Key)
      ensures State() == Db(map[], map[], op, backup)
    {
      ids, groups := map[], map[];
      this.op, this.backup := op, backup;
    }

    method IdentityByName(name: Name) returns (r: Option<Endpoint>)
      requires UniqueNames(ids)
      ensures r == IdByName(ids, name)
    {
      if e :| e in ids && ids[e].name == name {
        return Some(e);
      }
      r := None;
    }

    /** Both columns are unique; a clash inserts nothing. */
    method AddIdentity(name: Name, e: Endpoint, flag: bool) returns (ok: bool)
      modifies this`ids
      ensures ok <==> e !in old(ids) && forall f :: f in old(ids) ==> old(ids)[f].name != name
      ensures ids == if ok then old(ids)[e := Identity(name, flag)] else old(ids)
    {
      if e in ids || exists f :: f in ids && ids[f].name == name {
        return false;
      }
      ids := ids[e := Identity(name, flag)];
      ok := true;
    }

    method SetServiceAdmin(name: Name, flag: bool) returns (ok: bool)
      requires UniqueNames(ids)
      modifies this`ids
      ensures var target := IdByName(old(ids), name);
              && ok == target.Some?
              && ids == if ok then old(ids)[target.value := old(ids)[target.value].(serviceAdmin := flag)] else old(ids)
    {
      var target := IdentityByName(name);
      if target.None? {
        return false;
      }
      ids := ids[target.value := ids[target.value].(serviceAdmin := flag)];
      ok := true;
    }

    method CreateGroup(name: Name, wraps: WrapList, creator: Endpoint, perms: Perms) returns (ok: bool)
      modifies this`groups
      ensures ok <==> wraps != [] && name !in old(groups) && NoClash(map[], 1, wraps)
      ensures groups == if ok then old(groups)[name := Group(map[creator := perms], {1}, AddRows(map[], 1, wraps), map[])]
                        else old(groups)
    {
      if wraps == [] || name in groups {
        return false;
      }
      var inserted := InsertDekVersion(EMPTY_GROUP, wraps);
      if inserted.None? {
        return false;
      }
      assert {} + {1} == {1};
      groups := groups[name := inserted.value.(acl := map[creator := perms])];
      ok := true;
    }

    method SetPerms(e: Endpoint, g: Name, perms: Perms)
      requires g in groups
      modifies this`groups
      ensures groups == old(groups)[g := old(groups)[g].(acl := SetAcl(old(groups)[g].acl, e, perms))]
    {
      var acl := groups[g].acl;
      if perms == NO_PERMS {
        acl := acl - {e};
      } else {
        acl := acl[e := perms];
      }
      groups := groups[g := groups[g].(acl := acl)];
    }

    /** The ACL row and the reader's wraps land together. */
    method GrantWithWraps(e: Endpoint, g: Name, perms: Perms, wraps: VersionList) returns (ok: bool)
      requires g in groups
      modifies this`groups
      ensures ok == perms.read
      ensures groups == if ok then old(groups)[g := old(groups)[g].(
                                                      acl := old(groups)[g].acl[e := perms],
                                                      wraps := AddReaderRows(old(groups)[g].wraps, e, wraps))]
                        else old(groups)
    {
      if !perms.read {
        return false;
      }
      var grp := groups[g];
      grp := grp.(acl := grp.acl[e := perms]);
      var rows := grp.wraps;
      for i := 0 to |wraps|
        invariant rows == AddReaderRows(grp.wraps, e, wraps[..i])
      {
        assert wraps[..i + 1][..i] == wraps[..i];
        rows := rows[(wraps[i].0, Reader(e)) := wraps[i].1];
      }
      assert wraps[..|wraps|] == wraps;
      groups := groups[g := grp.(wraps := rows)];
      ok := true;
    }

    method RevokeReadAndRotate(g: Name, e: Endpoint, perms: Perms, wraps: WrapList) returns (ok: bool)
      requires g in groups
      modifies this`groups
      ensures ok <==> wraps != [] && !perms.read
                      && NoClash(DropWraps(old(groups)[g].wraps, e), NextVersion(old(groups)[g].deks), wraps)
      ensures groups == if ok
                        then old(groups)[g := Inserted(old(groups)[g].(
                                                         acl := SetAcl(old(groups)[g].acl, e, perms),
                                                         wraps := DropWraps(old(groups)[g].wraps, e)), wraps)]
                        else old(groups)
    {
      if wraps == [] || perms.read {
        return false;
      }
      var grp := groups[g];
      if perms == NO_PERMS {
        grp := grp.(acl := grp.acl - {e});
      } else {
        grp := grp.(acl := grp.acl[e := perms]);
      }
      grp := grp.(wraps := DropWraps(grp.wraps, e));
      var inserted := InsertDekVersion(grp, wraps);
      if inserted.None? {
        return false;
      }
      groups := groups[g := inserted.value];
      ok := true;
    }

    method AddDek(g: Name, wraps: WrapList) returns (ok: bool)
      requires g in groups
      modifies this`groups
      ensures ok <==> wraps != [] && NoClash(old(groups)[g].wraps, NextVersion(old(groups)[g].deks), wraps)
      ensures groups == if ok then old(groups)[g := Inserted(old(groups)[g], wraps)] else old(groups)
    {
      if wraps == [] {
        return false;
      }
      var inserted := InsertDekVersion(groups[g], wraps);
      if inserted.None? {
        return false;
      }
      groups := groups[g := inserted.value];
      ok := true;
    }

    method AddDekWrap(g: Name, version: nat, recipient: Recipient, wrapped: Wrap)
      requires g in groups
      modifies this`groups
      ensures groups == old(groups)[g := old(groups)[g].(wraps := old(groups)[g].wraps[(version, recipient) := wrapped])]
    {
      groups := groups[g := groups[g].(wraps := groups[g].wraps[(version, recipient) := wrapped])];
    }

    /** Deletes an identity and rotates the listed groups, or does neither. */
    method RemoveIdentityWithRotations(name: Name, rotations: seq<Rotation>) returns (r: Removal)
      requires UniqueNames(ids) && AllIn(groups, rotations)
      modifies this`ids, this`groups
      ensures r.NoIdentity? ==> IdByName(old(ids), name).None?
      ensures !r.Removed? ==> State() == old(State())
      ensures r.Removed? ==>
                && IdByName(old(ids), name).Some?
                && ids == old(ids) - {IdByName(old(ids), name).value}
                && AllIn(Cascade(old(groups), IdByName(old(ids), name).value), rotations)
                && groups == RotateAll(Cascade(old(groups), IdByName(old(ids), name).value), rotations)
      ensures IdByName(old(ids), name).Some? && ClashFree(old(groups), rotations) ==> r.Removed?
    {
      for i := 0 to |rotations|
        invariant forall k :: 0 <= k < i ==> rotations[k].wraps != []
      {
        if rotations[i].wraps == [] {
          return Aborted;
        }
      }
      var target := IdentityByName(name);
      if target.None? {
        return NoIdentity;
      }
      if ClashFree(groups, rotations) {
        CascadeClashFree(groups, target.value, rotations);
      }
      var work := RotateEach(Cascade(groups, target.value), rotations);
      if work.None? {
        return Aborted;
      }
      ids := ids - {target.value};
      groups := work.value;
      r := Removed;
    }

    /** Compare-and-set write; the row is sealed by the caller. */
    method PutSecret(g: Name, name: Name, expected: nat, row: Row) returns (ok: bool, version: nat)
      requires g in groups
      modifies this`groups
      ensures ok <==> expected == if name in old(groups)[g].secrets then old(groups)[g].secrets[name].current else 0
      ensures version == VersionOf(old(groups)[g], name) + if ok then 1 else 0
      ensures groups == if ok
                        then old(groups)[g := old(groups)[g].(
                                                secrets := old(groups)[g].secrets[name := Stored(SecretIn(old(groups)[g], name), row)])]
                        else old(groups)
    {
      var secrets := groups[g].secrets;
      var current := 0;
      if name in secrets {
        current := secrets[name].current;
      } else {
        if expected != 0 {
          return false, 0;
        }
        secrets := secrets[name := Secret(0, map[])];
      }
      if current != expected {
        return false, current;
      }
      var versions := secrets[name].versions[current + 1 := row];
      secrets := secrets[name := Secret(current + 1, versions)];
      assert secrets == groups[g].secrets[name := Stored(SecretIn(groups[g], name), row)];
      groups := groups[g := groups[g].(secrets := secrets)];
      return true, current + 1;
    }

    method DeleteSecret(g: Name, name: Name, expected: nat) returns (ok: bool, current: nat)
      requires g in groups
      modifies this`groups
      ensures ok <==> name in old(groups)[g].secrets && old(groups)[g].secrets[name].current == expected
      ensures !ok ==> current == VersionOf(old(groups)[g], name)
      ensures groups == if ok then old(groups)[g := old(groups)[g].(secrets := old(groups)[g].secrets - {name})]
                        else old(groups)
    {
      if name !in groups[g].secrets {
        return false, 0;
      }
      current := groups[g].secrets[name].current;
      if current != expected {
        return false, current;
      }
      groups := groups[g := groups[g].(secrets := groups[g].secrets - {name})];
      return true, 0;
    }
  }
}
