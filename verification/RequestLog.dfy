/** What the audit log records about a request. */
module RequestLog {
  import opened Base
  import opened Tables
  import opened Transactions
  import opened Requests
  import opened Audit

  /** ASCII text as bytes. */
  function Ascii(s: string): Bytes {
    if s == "" then [] else [(s[0] as int % 256) as Byte] + Ascii(s[1..])
  }

  /** The ASCII texts `rotate-dek`, `ok`, `denied`, `conflict`, `failed` and `readonly`. */
  const ROTATE_DEK: Bytes := [114, 111, 116, 97, 116, 101, 45, 100, 101, 107]
  const OK: Bytes := [111, 107]
  const DENIED: Bytes := [100, 101, 110, 105, 101, 100]
  const CONFLICT: Bytes := [99, 111, 110, 102, 108, 105, 99, 116]
  const FAILED: Bytes := [102, 97, 105, 108, 101, 100]
  const READONLY: Bytes := [114, 101, 97, 100, 111, 110, 108, 121]

  function OpName(req: Request): Bytes {
    match req
    case Get(_, _) => Ascii("get")
    case Put(_, _, _, _) => Ascii("put")
    case Delete(_, _, _) => Ascii("delete")
    case List(_) => Ascii("list")
    case CreateGroupReq(_) => Ascii("create-group")
    case AddIdentityReq(_, _, _) => Ascii("add-identity")
    case RemoveIdentityReq(_) => Ascii("remove-identity")
    case ListIdentities => Ascii("list-identities")
    case Grant(_, _, _) => Ascii("grant")
    case RotateDek(_) => ROTATE_DEK
    case ListGroups => Ascii("list-groups")
    case GroupAcl(_) => Ascii("group-acl")
    case ListIdentityNames(_) => Ascii("list-identity-names")
    case SetServiceAdminReq(_, _) => Ascii("set-service-admin")
  }

  function TargetName(req: Request): Bytes {
    match req
    case Get(g, n) => g + Ascii("/") + n
    case Put(g, n, _, _) => g + Ascii("/") + n
    case Delete(g, n, _) => g + Ascii("/") + n
    case List(g) => g
    case CreateGroupReq(name) => name
    case AddIdentityReq(name, _, _) => name
    case RemoveIdentityReq(name) => name
    case ListIdentities => []
    case Grant(g, identity, _) => g + Ascii(":") + identity
    case RotateDek(g) => g
    case ListGroups => []
    case GroupAcl(g) => g
    case ListIdentityNames(g) => g
    case SetServiceAdminReq(name, _) => name
  }

  function OutcomeName(r: Response): Bytes {
    match r
    case Denied => DENIED
    case VersionConflict(_) => CONFLICT
    case Failed(_) => FAILED
    case ReadOnlyReplica(_) => READONLY
    case _ => OK
  }

  /** Existing groups that a transaction rotates on the side. */
  function RotatedGroups(db: Db, tx: Tx): set<Name> {
    match tx
    case RevokeAndRotate(g, _, _) => {g}
    case RemoveIdentity(e) => set g | g in db.groups && HasRead(db.groups[g], e)
    case _ => {}
  }

  ghost predicate Records(row: AuditRow, remote: Endpoint, op: Bytes, target: Bytes, outcome: Bytes) {
    row.endpoint == remote && row.op == op && row.target == target && row.outcome == outcome
  }

  /** `rows` extends `prior` by a "rotate-dek" row per rotated group and then
      the row of the request itself. */
  ghost predicate Recorded(
    prior: seq<AuditRow>, rows: seq<AuditRow>, remote: Endpoint, rotated: seq<Name>,
    op: Bytes, target: Bytes, outcome: Bytes) {
    && |rows| == |prior| + |rotated| + 1 && rows[..|prior|] == prior
    && (forall i :: 0 <= i < |rotated| ==> Records(rows[|prior| + i], remote, ROTATE_DEK, rotated[i], OK))
    && Records(rows[|rows| - 1], remote, op, target, outcome)
  }

  /** Every rotation is on record: the DEK versions of an existing group change
      exactly when a request rotates it on the side or is the rotation. */
  lemma RotationsAreRecorded(n: Node, remote: Endpoint, req: Request, g: Name)
    requires g in n.db.groups
    ensures g in After(n, remote, req).db.groups
    ensures After(n, remote, req).db.groups[g].deks != n.db.groups[g].deks <==>
              || g in RotatedGroups(n.db, Decide(n.db, remote, req).tx)
              || (req.RotateDek? && req.group == g && Answer(n, remote, req).Ok?)
  {
    var grp, tx := n.db.groups[g], Decide(n.db, remote, req).tx;
    DecideEstablishes(n.db, remote, req);
    assert grp.deks + {NextVersion(grp.deks)} != grp.deks;
  }

  /** The log tells the outcomes apart, and records as "ok" exactly those whose
      groups are announced. */
  lemma OkMeansSucceeded(r: Response)
    ensures OutcomeName(r) == OK <==> Succeeded(r)
    ensures OutcomeName(r) == DENIED <==> r.Denied?
    ensures OutcomeName(r) == CONFLICT <==> r.VersionConflict?
    ensures OutcomeName(r) == FAILED <==> r.Failed?
    ensures OutcomeName(r) == READONLY <==> r.ReadOnlyReplica?
  {
    assert OK[0] == 111 && DENIED[0] == 100 && CONFLICT[0] == 99 && FAILED[0] == 102 && READONLY[0] == 114;
  }

  method AppendEntry(log: AuditLog, ts: int, remote: Endpoint, op: Bytes, target: Bytes, outcome: Bytes)
    requires log.Valid() && TimestampFits(ts)
    modifies log`rows
    ensures log.Valid() && |log.rows| == |old(log.rows)| + 1
    ensures forall k :: 0 <= k < |old(log.rows)| ==> log.rows[k] == old(log.rows)[k]
    ensures Records(log.rows[|old(log.rows)|], remote, op, target, outcome)
    ensures Chained(log.hash, old(log.rows)) ==> Chained(log.hash, log.rows)
  {
    ghost var before := log.rows;
    log.Append(ts, remote, op, target, outcome);
    assert forall k :: 0 <= k < |before| ==> log.rows[k] == log.rows[..|before|][k];
    LastRow(log.rows[|before|], remote, op, target, outcome);
  }

  /** The log kept its rows, and its chain if it had one. */
  twostate predicate Extended(log: AuditLog, more: nat)
    reads log
  {
    && old(log.Valid()) && log.Valid()
    && |log.rows| == |old(log.rows)| + more
    && (forall k :: 0 <= k < |old(log.rows)| ==> log.rows[k] == old(log.rows)[k])
    && (Chained(log.hash, old(log.rows)) ==> Chained(log.hash, log.rows))
  }

  method RecordRotations(log: AuditLog, ts: int, remote: Endpoint, rotated: seq<Name>)
    requires log.Valid() && TimestampFits(ts)
    modifies log`rows
    ensures Extended(log, |rotated|)
    ensures forall k :: 0 <= k < |rotated| ==> Records(log.rows[|old(log.rows)| + k], remote, ROTATE_DEK, rotated[k], OK)
  {
    for i := 0 to |rotated|
      invariant Extended(log, i)
      invariant forall k :: 0 <= k < i ==> Records(log.rows[|old(log.rows)| + k], remote, ROTATE_DEK, rotated[k], OK)
    {
      AppendEntry(log, ts, remote, ROTATE_DEK, rotated[i], OK);
    }
  }

  /** Appends the rows of one handled request. */
  method Record(log: AuditLog, ts: int, remote: Endpoint, rotated: seq<Name>, op: Bytes, target: Bytes, outcome: Bytes)
    requires log.Valid() && TimestampFits(ts)
    modifies log`rows
    ensures log.Valid() && Recorded(old(log.rows), log.rows, remote, rotated, op, target, outcome)
    ensures Chained(log.hash, old(log.rows)) ==> Chained(log.hash, log.rows)
  {
    RecordRotations(log, ts, remote, rotated);
    AppendEntry(log, ts, remote, op, target, outcome);
    assert log.rows[..|old(log.rows)|] == old(log.rows);
  }

  lemma LastRow(row: AuditRow, remote: Bytes, op: Bytes, target: Bytes, outcome: Bytes)
    requires RowFields(row) == [remote, op, target, outcome]
    ensures Records(row, remote, op, target, outcome)
  {
    assert RowFields(row)[0] == remote && RowFields(row)[1] == op && RowFields(row)[2] == target && RowFields(row)[3] == outcome;
  }
}
