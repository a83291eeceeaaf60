/** Value types shared by the whole model. */
module Common {

  type byte = b: int | 0 <= b < 256

  type Path = string

  datatype Option<+T> = None | Some(value: T)

  datatype Result<+T, +E> = Ok(value: T) | Err(error: E)

  /** Names of objects in the bucket.  `Random(n)` is the string returned by the n-th call of the random
      generator, so that two calls never return the same name; `IndexBackup` is the salted name derived once
      for the backup of the index; everything else in the bucket is `Foreign`. */
  datatype Name = Random(id: nat) | IndexBackup | Foreign(text: string)

  /** A collision-free file hash; `NoDigest` is the empty string stored where a hash was lost. */
  datatype Digest = NoDigest | Digest(content: seq<byte>)

  /** The value an SQL integer has after it was read back through a signed 32-bit int. */
  function Int32(x: int): (r: int)
    ensures -0x8000_0000 <= r < 0x8000_0000
    ensures (r - x) % 0x1_0000_0000 == 0
    ensures -0x8000_0000 <= x < 0x8000_0000 ==> r == x
  {
    (x + 0x8000_0000) % 0x1_0000_0000 - 0x8000_0000
  }

  predicate FitsInt32(x: int) {
    -0x8000_0000 <= x < 0x8000_0000
  }

  predicate Distinct<T(==)>(s: seq<T>) {
    forall i, j :: 0 <= i < j < |s| ==> s[i] != s[j]
  }
}
