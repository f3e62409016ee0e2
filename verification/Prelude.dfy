/** Small shared vocabulary: optional values and the machine-integer arithmetic the sources rely on. */
module Prelude {

  datatype Option<+T> = None | Some(value: T)

  function OrElse<T>(o: Option<T>, default: T): T { if o.Some? then o.value else default }

  type Byte = b: nat | b < 256

  type Bytes = seq<Byte>

  /** 2^64 - 1: the top of `u64` and of `usize` on the 64-bit targets the gateway ships for. */
  const U64_MAX: nat := 0xFFFF_FFFF_FFFF_FFFF

  function SatAdd(a: nat, b: nat): nat {
    if a + b > U64_MAX then U64_MAX else a + b
  }

  function SatSub(a: nat, b: nat): nat {
    if a >= b then a - b else 0
  }

  function Min(a: nat, b: nat): nat {
    if a <= b then a else b
  }
}
