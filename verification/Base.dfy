/** Types shared by every part of the model. */
module Base {

  newtype Byte = x: int | 0 <= x < 256

  type Bytes = seq<Byte>

  /** Group, secret and identity names: UTF-8 text, compared byte by byte. */
  type Name = Bytes

  /** A peer's public key, in the lowercase-hex form stored in the database. */
  type Endpoint = Bytes

  /** A cryptographic hash; what is assumed of it is stated where it is needed. */
  type Hash = Bytes -> Bytes

  const U64_MAX: nat := 0xFFFF_FFFF_FFFF_FFFF

  /** The first number a signed 64-bit column cannot hold. */
  const I64_LIMIT: nat := 0x8000_0000_0000_0000

  datatype Option<+T> = None | Some(value: T)

  function Elements(names: seq<Bytes>): set<Bytes> {
    set i | 0 <= i < |names| :: names[i]
  }

  lemma ElementsAppend(names: seq<Bytes>)
    requires names != []
    ensures Elements(names) == Elements(names[..|names| - 1]) + {names[|names| - 1]}
  {
    var front := names[..|names| - 1];
    forall n | n in Elements(front)
      ensures n in Elements(names)
    {
      var i :| 0 <= i < |front| && front[i] == n;
      assert names[i] == n;
    }
    assert names[|names| - 1] in Elements(names);
    forall n | n in Elements(names) && n != names[|names| - 1]
      ensures n in Elements(front)
    {
      var i :| 0 <= i < |names| && names[i] == n;
      assert front[i] == n;
    }
  }
}
