/** Vocabulary shared by every component of the Agent model. */
module Base {

  type Byte = b: int | 0 <= b < 256

  type Bytes = seq<Byte>

  const U64_MAX: nat := 0xFFFF_FFFF_FFFF_FFFF

  /** One transfer chunk, one range read and one staged write are all capped at 1 MiB. */
  const MAX_CHUNK: nat := 1024 * 1024

  datatype Option<+T> = None | Some(value: T)

  type ObjectId = nat

  /** BLAKE3 is treated as collision free. `Hash` is a stand-in with just that property: nothing in
      the model relies on more about it than `HashInjective`. */
  function Hash(data: Bytes): ObjectId {
    if data == [] then 0 else 1 + data[0] + 256 * Hash(data[1..])
  }

  lemma {:induction false} HashInjective(a: Bytes, b: Bytes)
    requires Hash(a) == Hash(b)
    ensures a == b
  {
    if a != [] && b != [] {
      assert (Hash(a) - 1) % 256 == a[0] && (Hash(b) - 1) % 256 == b[0];
      HashInjective(a[1..], b[1..]);
      assert a == [a[0]] + a[1..] && b == [b[0]] + b[1..];
    }
  }

  datatype ObjectSpec = ObjectSpec(id: ObjectId, size: nat)

  type TenantId = string

  type TransferId = string

  function Min(a: nat, b: nat): nat {
    if a <= b then a else b
  }

  function Max(a: nat, b: nat): nat {
    if a <= b then b else a
  }

  lemma {:induction false} SubsetSize<T>(a: set<T>, b: set<T>)
    requires a <= b
    ensures |a| <= |b|
  {
    if a != {} {
      var x :| x in a;
      SubsetSize(a - {x}, b - {x});
    }
  }
}
