/** Constants and enumerations shared by the device, the controller and the host
    driver, together with the failure type used throughout: a step that the
    program would end with a failed assertion or a fatal error is None. */
module PimDef {
  const TWO32: nat := 0x1_0000_0000
  const TWO64: nat := 0x1_0000_0000_0000_0000

  type byte = x: nat | x < 256
  type word = x: nat | x < TWO64

  const FUNC_BASE: nat := 0x0e00_0000
  const SRAM_BASE: nat := 0x0f00_0000
  const SRAM_SIZE: nat := 0x400
  const DRAM_BASE: nat := 0x0f80_0000
  const NUM_FUNC_PARAMS: nat := 8
  const CHUNK_WORDS: nat := 64

  // Commands written to a function slot
  const INIT: nat := 0
  const RUN: nat := 1
  const FINISH: nat := 2

  datatype Option<+T> = None | Some(value: T) {
    predicate IsFailure() {
      None?
    }

    function PropagateFailure<U>(): Option<U>
      requires None?
    {
      None
    }

    function Extract(): T
      requires Some?
    {
      value
    }
  }

  function Min(a: nat, b: nat): nat {
    if a <= b then a else b
  }

  /** std::vector::resize on bytes: truncate, or pad with zeros. */
  function Resize(s: seq<byte>, n: nat): (r: seq<byte>)
    ensures |r| == n
    ensures |s| == n ==> r == s
  {
    if n <= |s| then s[..n] else s + seq(n - |s|, _ => 0)
  }
}
