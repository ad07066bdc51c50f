/**
 The length-prefixed byte layouts that bind data to its place: the AEAD
 associated data of a secret, the pre-image of an audit row, and the
 pre-image of the operator's content hash.
 */
module Encoding {
  import opened Base

  // ---- fixed-width integers ----

  function Pow256(k: nat): (p: nat)
    ensures p > 0
  {
    if k == 0 then 1 else 256 * Pow256(k - 1)
  }

  /** The low `k` bytes of `n`, most significant first. */
  function BigEndian(n: nat, k: nat): (b: Bytes)
    ensures |b| == k
  {
    if k == 0 then [] else BigEndian(n / 256, k - 1) + [(n % 256) as Byte]
  }

  /** The low `k` bytes of `n`, least significant first. */
  function LittleEndian(n: nat, k: nat): (b: Bytes)
    ensures |b| == k
  {
    if k == 0 then [] else [(n % 256) as Byte] + LittleEndian(n / 256, k - 1)
  }

  lemma {:induction false} BigEndianInjective(a: nat, b: nat, k: nat)
    requires a < Pow256(k) && b < Pow256(k)
    requires BigEndian(a, k) == BigEndian(b, k)
    ensures a == b
  {
    if k > 0 {
      var x, y := BigEndian(a / 256, k - 1), BigEndian(b / 256, k - 1);
      assert (x + [(a % 256) as Byte])[..k - 1] == x;
      assert (y + [(b % 256) as Byte])[..k - 1] == y;
      assert (x + [(a % 256) as Byte])[k - 1] == (y + [(b % 256) as Byte])[k - 1];
      BigEndianInjective(a / 256, b / 256, k - 1);
    }
  }

  lemma {:induction false} LittleEndianInjective(a: nat, b: nat, k: nat)
    requires a < Pow256(k) && b < Pow256(k)
    requires LittleEndian(a, k) == LittleEndian(b, k)
    ensures a == b
  {
    if k > 0 {
      var x, y := LittleEndian(a / 256, k - 1), LittleEndian(b / 256, k - 1);
      assert ([(a % 256) as Byte] + x)[1..] == x;
      assert ([(b % 256) as Byte] + y)[1..] == y;
      assert ([(a % 256) as Byte] + x)[0] == ([(b % 256) as Byte] + y)[0];
      LittleEndianInjective(a / 256, b / 256, k - 1);
    }
  }

  lemma WordIs64Bits()
    ensures Pow256(8) == U64_MAX + 1
  {
    assert Pow256(4) == 0x1_0000_0000;
  }

  /** Numbers and lengths the source holds in a `u64`. */
  ghost predicate FitsWord(n: nat) {
    n <= U64_MAX
  }

  // ---- length-prefixed fields ----

  function Field(b: Bytes): Bytes {
    BigEndian(|b|, 8) + b
  }

  /** Fields written one after the other. */
  function Fields(fs: seq<Bytes>): Bytes {
    if fs == [] then [] else Field(fs[0]) + Fields(fs[1..])
  }

  /** A field is self-delimiting: whatever follows it, it can be split off in one way only. */
  lemma FieldSplits(a: Bytes, x: Bytes, b: Bytes, y: Bytes)
    requires FitsWord(|a|) && FitsWord(|b|)
    requires Field(a) + x == Field(b) + y
    ensures a == b && x == y
  {
    var s := Field(a) + x;
    assert s[..8] == BigEndian(|a|, 8);
    assert s[..8] == BigEndian(|b|, 8);
    WordIs64Bits();
    BigEndianInjective(|a|, |b|, 8);
    assert s[8..8 + |a|] == a;
    assert s[8..8 + |a|] == b;
    assert s[8 + |a|..] == x;
    assert s[8 + |a|..] == y;
  }

  ghost predicate FieldsFit(fs: seq<Bytes>) {
    forall i :: 0 <= i < |fs| ==> FitsWord(|fs[i]|)
  }

  /** Two lists of fields, even of different lengths, never share an encoding. */
  lemma {:induction false} FieldsInjective(a: seq<Bytes>, b: seq<Bytes>)
    requires FieldsFit(a) && FieldsFit(b)
    requires Fields(a) == Fields(b)
    ensures a == b
    decreases |a|
  {
    if a == [] || b == [] {
      assert |Fields(a)| == 0 ==> a == [];
      assert |Fields(b)| == 0 ==> b == [];
    } else {
      FieldSplits(a[0], Fields(a[1..]), b[0], Fields(b[1..]));
      FieldsInjective(a[1..], b[1..]);
      assert a == [a[0]] + a[1..] && b == [b[0]] + b[1..];
    }
  }

  // ---- AEAD associated data of a secret ----

  /** The ASCII text `secret-bunker-iroh/1`. */
  const AAD_PREFIX: Bytes :=
    [115, 101, 99, 114, 101, 116, 45, 98, 117, 110, 107, 101, 114, 45, 105, 114, 111, 104, 47, 49]

  function SecretAad(group: Name, name: Name, version: nat, dekVersion: nat): Bytes {
    AAD_PREFIX + Fields([group, name]) + BigEndian(version, 8) + BigEndian(dekVersion, 8)
  }

  lemma FieldsAppend(fs: seq<Bytes>, f: Bytes)
    ensures Fields(fs + [f]) == Fields(fs) + Field(f)
  {
    if fs == [] {
      assert [f][1..] == [];
      assert Fields([f]) == Field(f) + Fields([]);
    } else {
      assert (fs + [f])[1..] == fs[1..] + [f];
      FieldsAppend(fs[1..], f);
    }
  }

  /** Builds the associated data by appending to one buffer. */
  method BuildSecretAad(group: Name, name: Name, version: nat, dekVersion: nat) returns (aad: Bytes)
    ensures aad == SecretAad(group, name, version, dekVersion)
  {
    aad := AAD_PREFIX;
    var parts := [group, name];
    for i := 0 to |parts|
      invariant aad == AAD_PREFIX + Fields(parts[..i])
    {
      FieldsAppend(parts[..i], parts[i]);
      assert parts[..i + 1] == parts[..i] + [parts[i]];
      aad := aad + BigEndian(|parts[i]|, 8);
      aad := aad + parts[i];
    }
    assert parts[..|parts|] == parts;
    aad := aad + BigEndian(version, 8);
    aad := aad + BigEndian(dekVersion, 8);
  }

  /** No two logical locations of a secret share their associated data. */
  lemma SecretAadInjective(
    g: Name, n: Name, v: nat, d: nat,
    g': Name, n': Name, v': nat, d': nat)
    requires FitsWord(|g|) && FitsWord(|n|) && FitsWord(v) && FitsWord(d)
    requires FitsWord(|g'|) && FitsWord(|n'|) && FitsWord(v') && FitsWord(d')
    requires SecretAad(g, n, v, d) == SecretAad(g', n', v', d')
    ensures g == g' && n == n' && v == v' && d == d'
  {
    AadFields(g, n, v, d);
    AadFields(g', n', v', d');
    FieldSplits(g, Field(n) + VersionBytes(v, d), g', Field(n') + VersionBytes(v', d'));
    FieldSplits(n, VersionBytes(v, d), n', VersionBytes(v', d'));
    VersionBytesInjective(v, d, v', d');
  }

  function VersionBytes(v: nat, d: nat): Bytes {
    BigEndian(v, 8) + BigEndian(d, 8)
  }

  lemma AadFields(g: Name, n: Name, v: nat, d: nat)
    ensures SecretAad(g, n, v, d)[|AAD_PREFIX|..] == Field(g) + (Field(n) + VersionBytes(v, d))
  {
    TwoFields(g, n);
  }

  lemma VersionBytesInjective(v: nat, d: nat, v': nat, d': nat)
    requires FitsWord(v) && FitsWord(d) && FitsWord(v') && FitsWord(d')
    requires VersionBytes(v, d) == VersionBytes(v', d')
    ensures v == v' && d == d'
  {
    var tail := VersionBytes(v, d);
    assert tail[..8] == BigEndian(v, 8) && tail[..8] == BigEndian(v', 8);
    assert tail[8..] == BigEndian(d, 8) && tail[8..] == BigEndian(d', 8);
    WordIs64Bits();
    BigEndianInjective(v, v', 8);
    BigEndianInjective(d, d', 8);
  }

  lemma TwoFields(a: Bytes, b: Bytes)
    ensures Fields([a, b]) == Field(a) + Field(b)
  {
    assert [a, b][1..] == [b];
    assert [b][1..] == [];
    assert Fields([b]) == Field(b) + Fields([]);
  }

  // ---- content hash pre-image ----

  function LittleField(b: Bytes): Bytes {
    LittleEndian(|b|, 8) + b
  }

  function PairBytes(p: (Bytes, Bytes)): (b: Bytes)
    ensures |b| >= 16
  {
    LittleField(p.0) + LittleField(p.1)
  }

  /** The bytes hashed for a sorted list of (key, value) pairs. */
  function ContentPreimage(pairs: seq<(Bytes, Bytes)>): Bytes {
    if pairs == [] then []
    else PairBytes(pairs[0]) + ContentPreimage(pairs[1..])
  }

  lemma LittleFieldSplits(a: Bytes, x: Bytes, b: Bytes, y: Bytes)
    requires FitsWord(|a|) && FitsWord(|b|)
    requires LittleField(a) + x == LittleField(b) + y
    ensures a == b && x == y
  {
    var s := LittleField(a) + x;
    assert s[..8] == LittleEndian(|a|, 8);
    assert s[..8] == LittleEndian(|b|, 8);
    WordIs64Bits();
    LittleEndianInjective(|a|, |b|, 8);
    assert s[8..8 + |a|] == a;
    assert s[8..8 + |a|] == b;
    assert s[8 + |a|..] == x;
    assert s[8 + |a|..] == y;
  }

  ghost predicate PairsFit(pairs: seq<(Bytes, Bytes)>) {
    forall i :: 0 <= i < |pairs| ==> FitsWord(|pairs[i].0|) && FitsWord(|pairs[i].1|)
  }

  lemma PairSplits(p: (Bytes, Bytes), x: Bytes, q: (Bytes, Bytes), y: Bytes)
    requires FitsWord(|p.0|) && FitsWord(|p.1|) && FitsWord(|q.0|) && FitsWord(|q.1|)
    requires PairBytes(p) + x == PairBytes(q) + y
    ensures p == q && x == y
  {
    assert PairBytes(p) + x == LittleField(p.0) + (LittleField(p.1) + x);
    assert PairBytes(q) + y == LittleField(q.0) + (LittleField(q.1) + y);
    LittleFieldSplits(p.0, LittleField(p.1) + x, q.0, LittleField(q.1) + y);
    LittleFieldSplits(p.1, x, q.1, y);
  }

  /** Equal pre-images force equal data, so only a hash collision can make the
      operator skip an apply it needed. */
  lemma {:induction false} ContentPreimageInjective(a: seq<(Bytes, Bytes)>, b: seq<(Bytes, Bytes)>)
    requires PairsFit(a) && PairsFit(b)
    requires ContentPreimage(a) == ContentPreimage(b)
    ensures a == b
    decreases |a|
  {
    if a != [] && b != [] {
      PairSplits(a[0], ContentPreimage(a[1..]), b[0], ContentPreimage(b[1..]));
      ContentPreimageInjective(a[1..], b[1..]);
      assert a == [a[0]] + a[1..] && b == [b[0]] + b[1..];
    }
  }
}
