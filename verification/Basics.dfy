/** Types shared by every part of the store: bytes, keys, entries, errors. */
module Basics {

  type byte = b: int | 0 <= b < 256

  type Key = seq<byte>
  type Value = seq<byte>

  const MAX_KEY_SIZE: nat := 1024
  const MAX_VALUE_SIZE: nat := 1024 * 1024

  datatype Option<+T> = None | Some(value: T)

  /** The errors of the operations modelled here. */
  datatype Error =
    | Corruption
    | ChecksumMismatch(expected: nat, actual: nat)
    | Decompression
    | InvalidOperation
    | InvalidKeySize(size: nat)
    | InvalidValueSize(size: nat)
    | ReadOnly
    | InvalidConfig
    | Closed

  datatype Result<+T> = Ok(value: T) | Err(error: Error) {
    predicate IsFailure() { Err? }

    function PropagateFailure<U>(): Result<U>
      requires Err?
    {
      Err(error)
    }

    function Extract(): T
      requires Ok?
    {
      value
    }
  }

  /** One version of a key. A `None` value is a deletion marker (a tombstone). */
  datatype Entry = Entry(key: Key, value: Option<Value>, timestamp: nat, sequence: nat) {
    function Size(): nat {
      |key| + (if value.Some? then |value.value| else 0) + 16
    }
  }

  function Max(a: nat, b: nat): nat {
    if a < b then b else a
  }
}
