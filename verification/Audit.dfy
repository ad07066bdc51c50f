/** The hash-chained audit log. The hash function is a parameter; what is
    assumed of it is stated where it is needed. */
module Audit {
  import opened Base
  import opened Encoding

  datatype AuditRow = AuditRow(
    id: int, ts: int, endpoint: Bytes, op: Bytes, target: Bytes, outcome: Bytes, prevHash: Bytes, hash: Bytes)

  datatype Verification = Valid(entries: nat, head: Option<(int, Bytes)>) | Broken(id: int)

  const HASH_LEN := 32

  /** The `prev_hash` of the first row. */
  const GENESIS: Bytes :=
    [0, 0, 0, 0, 0, 0, 0, 0, 0, 0, 0, 0, 0, 0, 0, 0, 0, 0, 0, 0, 0, 0, 0, 0, 0, 0, 0, 0, 0, 0, 0, 0]

  /** The two's-complement word of a signed 64-bit number. */
  function Word(ts: int): nat
    requires -0x8000_0000_0000_0000 <= ts < 0x8000_0000_0000_0000
  {
    if ts >= 0 then ts else ts + U64_MAX + 1
  }

  /** A timestamp the source can hold in an `i64`. */
  predicate TimestampFits(ts: int) {
    -0x8000_0000_0000_0000 <= ts < 0x8000_0000_0000_0000
  }

  function RowFields(r: AuditRow): seq<Bytes> {
    [r.endpoint, r.op, r.target, r.outcome]
  }

  function Preimage(prev: Bytes, r: AuditRow): Bytes
    requires TimestampFits(r.ts)
  {
    prev + BigEndian(Word(r.ts), 8) + Fields(RowFields(r))
  }

  predicate Storable(rows: seq<AuditRow>) {
    forall i :: 0 <= i < |rows| ==> TimestampFits(rows[i].ts)
  }

  function PrevHash(rows: seq<AuditRow>, i: nat): Bytes
    requires i <= |rows|
  {
    if i == 0 then GENESIS else rows[i - 1].hash
  }

  function Digest(hash: Hash, prev: Bytes, r: AuditRow): Bytes
    requires TimestampFits(r.ts)
  {
    hash(Preimage(prev, r))
  }

  /** Row `i` continues the chain. */
  predicate Links(hash: Hash, rows: seq<AuditRow>, i: nat)
    requires Storable(rows) && i < |rows|
  {
    rows[i].prevHash == PrevHash(rows, i) && rows[i].hash == Digest(hash, PrevHash(rows, i), rows[i])
  }

  predicate Chained(hash: Hash, rows: seq<AuditRow>)
    requires Storable(rows)
  {
    forall i :: 0 <= i < |rows| ==> Links(hash, rows, i)
  }

  /** The bytes fed to the hasher, field by field. */
  method HashedBytes(prev: Bytes, r: AuditRow) returns (buffer: Bytes)
    requires TimestampFits(r.ts)
    ensures buffer == Preimage(prev, r)
  {
    buffer := prev;
    buffer := buffer + BigEndian(Word(r.ts), 8);
    var fields := RowFields(r);
    for i := 0 to |fields|
      invariant buffer == prev + BigEndian(Word(r.ts), 8) + Fields(fields[..i])
    {
      FieldsAppend(fields[..i], fields[i]);
      assert fields[..i + 1] == fields[..i] + [fields[i]];
      buffer := buffer + BigEndian(|fields[i]|, 8);
      buffer := buffer + fields[i];
    }
    assert fields[..|fields|] == fields;
  }

  lemma AppendLinks(hash: Hash, rows: seq<AuditRow>, r: AuditRow)
    requires Storable(rows) && TimestampFits(r.ts)
    requires r.prevHash == PrevHash(rows, |rows|) && r.hash == Digest(hash, r.prevHash, r)
    ensures Storable(rows + [r]) && Links(hash, rows + [r], |rows|)
    ensures Chained(hash, rows) ==> Chained(hash, rows + [r])
  {
    var extended := rows + [r];
    forall i: nat | i < |rows|
      ensures Links(hash, extended, i) <==> Links(hash, rows, i)
    {
      assert extended[i] == rows[i] && PrevHash(extended, i) == PrevHash(rows, i);
    }
  }

  class AuditLog {
    const hash: Hash
    var rows: seq<AuditRow>

    ghost predicate Valid()
      reads this
    {
      Storable(rows) && (forall i, j :: 0 <= i < j < |rows| ==> rows[i].id < rows[j].id)
    }

    constructor (hash: Hash)
      ensures Valid() && rows == [] && this.hash == hash
    {
      this.hash := hash;
      rows := [];
    }

    /** Appends one entry; the chain stays a chain. */
    method Append(ts: int, endpoint: Bytes, op: Bytes, target: Bytes, outcome: Bytes)
      requires Valid() && TimestampFits(ts)
      modifies this`rows
      ensures Valid() && |rows| == |old(rows)| + 1 && rows[..|old(rows)|] == old(rows)
      ensures Links(hash, rows, |old(rows)|)
      ensures rows[|old(rows)|].ts == ts && RowFields(rows[|old(rows)|]) == [endpoint, op, target, outcome]
      ensures Chained(hash, old(rows)) ==> Chained(hash, rows)
    {
      var prev := if rows == [] then GENESIS else rows[|rows| - 1].hash;
      var id := if rows == [] then 1 else rows[|rows| - 1].id + 1;
      var row := AuditRow(id, ts, endpoint, op, target, outcome, prev, []);
      var bytes := HashedBytes(prev, row);
      row := row.(hash := hash(bytes));
      AppendLinks(hash, rows, row);
      rows := rows + [row];
    }

    /** Walks the chain: accepts exactly the chained logs, with their length
        and head, and otherwise reports the first row that departs. */
    method Verify() returns (v: Verification)
      requires Valid()
      ensures v.Valid? <==> Chained(hash, rows)
      ensures v.Valid? ==> v.entries == |rows|
      ensures v.Valid? ==> v.head == if rows == [] then None else Some((rows[|rows| - 1].id, rows[|rows| - 1].hash))
      ensures v.Broken? ==> exists k :: 0 <= k < |rows| && v.id == rows[k].id && !Links(hash, rows, k)
                                     && forall i :: 0 <= i < k ==> Links(hash, rows, i)
    {
      var entries := 0;
      var prev := GENESIS;
      var head: Option<(int, Bytes)> := None;
      while entries < |rows|
        invariant entries <= |rows|
        invariant forall i :: 0 <= i < entries ==> Links(hash, rows, i)
        invariant prev == PrevHash(rows, entries)
        invariant head == if entries == 0 then None else Some((rows[entries - 1].id, rows[entries - 1].hash))
      {
        var row := rows[entries];
        if row.prevHash != prev {
          assert !Links(hash, rows, entries);
          return Broken(row.id);
        }
        var bytes := HashedBytes(prev, row);
        if hash(bytes) != row.hash {
          assert !Links(hash, rows, entries);
          return Broken(row.id);
        }
        prev := row.hash;
        head := Some((row.id, row.hash));
        entries := entries + 1;
      }
      v := Verification.Valid(entries, head);
    }
  }

  // ---- what the head hash pins down ----

  ghost predicate RowFits(r: AuditRow) {
    FieldsFit(RowFields(r))
  }

  /** The hashes of row `i` of the two logs do not collide. */
  ghost predicate NoCollisionAt(hash: Hash, a: seq<AuditRow>, b: seq<AuditRow>, i: nat)
    requires Storable(a) && Storable(b) && i < |a| == |b|
  {
    Digest(hash, PrevHash(a, i), a[i]) == Digest(hash, PrevHash(b, i), b[i]) ==>
      Preimage(PrevHash(a, i), a[i]) == Preimage(PrevHash(b, i), b[i])
  }

  /** What is assumed of the hash: digests have a fixed length, and the two
      logs hold no collision at any position. */
  ghost predicate NoCollision(hash: Hash, a: seq<AuditRow>, b: seq<AuditRow>)
    requires Storable(a) && Storable(b) && |a| == |b|
  {
    && (forall x :: |hash(x)| == HASH_LEN)
    && forall i :: 0 <= i < |a| ==> NoCollisionAt(hash, a, b, i)
  }

  lemma PreimageInjective(p: Bytes, r: AuditRow, q: Bytes, s: AuditRow)
    requires TimestampFits(r.ts) && TimestampFits(s.ts) && RowFits(r) && RowFits(s)
    requires |p| == |q| && Preimage(p, r) == Preimage(q, s)
    ensures p == q && r.ts == s.ts && RowFields(r) == RowFields(s)
  {
    var x := Preimage(p, r);
    assert x[..|p|] == p && x[..|q|] == q;
    assert x[|p|..|p| + 8] == BigEndian(Word(r.ts), 8) && x[|q|..|q| + 8] == BigEndian(Word(s.ts), 8);
    assert x[|p| + 8..] == Fields(RowFields(r)) && x[|q| + 8..] == Fields(RowFields(s));
    WordIs64Bits();
    BigEndianInjective(Word(r.ts), Word(s.ts), 8);
    FieldsInjective(RowFields(r), RowFields(s));
  }

  /** Two logs agree on a row, apart from the unhashed row id. */
  ghost predicate SameContent(r: AuditRow, s: AuditRow) {
    r.(id := s.id) == s
  }

  ghost predicate BothChained(hash: Hash, a: seq<AuditRow>, b: seq<AuditRow>) {
    && Storable(a) && Storable(b) && |a| == |b|
    && Chained(hash, a) && Chained(hash, b) && NoCollision(hash, a, b)
    && forall i :: 0 <= i < |a| ==> RowFits(a[i]) && RowFits(b[i])
  }

  lemma HashLength(hash: Hash, rows: seq<AuditRow>, i: nat)
    requires Storable(rows) && i < |rows| && Chained(hash, rows) && forall x :: |hash(x)| == HASH_LEN
    ensures |PrevHash(rows, i)| == HASH_LEN
  {
    if i > 0 {
      assert Links(hash, rows, i - 1);
    }
  }

  lemma HashPinsRow(hash: Hash, a: seq<AuditRow>, b: seq<AuditRow>, i: nat)
    requires BothChained(hash, a, b) && i < |a| && a[i].hash == b[i].hash
    ensures SameContent(a[i], b[i]) && PrevHash(a, i) == PrevHash(b, i)
  {
    assert Links(hash, a, i) && Links(hash, b, i);
    HashLength(hash, a, i);
    HashLength(hash, b, i);
    assert NoCollisionAt(hash, a, b, i);
    PreimageInjective(PrevHash(a, i), a[i], PrevHash(b, i), b[i]);
    assert forall k :: 0 <= k < 4 ==> RowFields(a[i])[k] == RowFields(b[i])[k];
  }

  /** Equal length and equal head hash force equal contents, row by row. */
  lemma {:induction false} HeadPinsContents(hash: Hash, a: seq<AuditRow>, b: seq<AuditRow>, n: nat)
    requires BothChained(hash, a, b) && n <= |a|
    requires PrevHash(a, n) == PrevHash(b, n)
    ensures forall i :: 0 <= i < n ==> SameContent(a[i], b[i])
  {
    if n > 0 {
      HashPinsRow(hash, a, b, n - 1);
      HeadPinsContents(hash, a, b, n - 1);
    }
  }
}
