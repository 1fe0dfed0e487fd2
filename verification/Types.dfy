/** Machine integers, option and result types, and the opaque identifiers shared by every component. */
module Types {

  // The source's unsigned machine integers. Sums are taken over unbounded
  // integers and every place where the source can overflow goes through one
  // of the checked functions below.
  const U8_MAX := 0xFF
  const U64_MAX := 0xFFFF_FFFF_FFFF_FFFF

  type U8 = n: int | 0 <= n <= 0xFF
  type U16 = n: int | 0 <= n <= 0xFFFF
  type U64 = n: int | 0 <= n <= 0xFFFF_FFFF_FFFF_FFFF

  type Epoch = U64
  type Incarnation = U64
  type CommitIndex = U64

  datatype Option<+T> = None | Some(value: T)

  datatype Result<+T, +E> = Ok(value: T) | Err(error: E) {
    predicate IsFailure() {
      Err?
    }

    function PropagateFailure<U>(): Result<U, E>
      requires Err?
    {
      Err(error)
    }

    function Extract(): T
      requires Ok?
    {
      value
    }
  }

  function CheckedAdd(a: U64, b: U64): Option<U64> {
    if a + b <= U64_MAX then Some(a + b) else None
  }

  function CheckedSub(a: U64, b: U64): Option<U64> {
    if b <= a then Some(a - b) else None
  }

  function CheckedAddU8(a: U8, b: U8): Option<U8> {
    if a + b <= U8_MAX then Some(a + b) else None
  }

  // Identifiers are compared for equality only; their character rules are not modelled.
  datatype NodeId = NodeId(text: string)
  datatype WorkloadId = WorkloadId(text: string)

  type Bytes32 = b: seq<U8> | |b| == 32 witness seq(32, _ => 0)

  datatype PolicyHash = PolicyHash(bytes: Bytes32)

  datatype StateRoot = StateRoot(bytes: Bytes32) {
    predicate IsZero() {
      forall i | 0 <= i < 32 :: bytes[i] == 0
    }
  }
}
