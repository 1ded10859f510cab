/** Go's fixed-width integers, whose additions wrap around; `int` is 64 bits wide. */
module GoInt {

  const MAX_INT32 := 0x7fff_ffff
  const MAX_INT64 := 0x7fff_ffff_ffff_ffff

  type int32 = x: int | -0x8000_0000 <= x <= 0x7fff_ffff
  type int64 = x: int | -0x8000_0000_0000_0000 <= x <= 0x7fff_ffff_ffff_ffff
  type uint32 = x: int | 0 <= x < 0x1_0000_0000

  function Wrap32(x: int): int32 {
    if -0x8000_0000 <= x <= 0x7fff_ffff then x else (x + 0x8000_0000) % 0x1_0000_0000 - 0x8000_0000
  }

  function Wrap64(x: int): int64 {
    if -0x8000_0000_0000_0000 <= x <= 0x7fff_ffff_ffff_ffff then x
    else (x + 0x8000_0000_0000_0000) % 0x1_0000_0000_0000_0000 - 0x8000_0000_0000_0000
  }

  function ToUint32(x: int32): uint32 {
    if x < 0 then x + 0x1_0000_0000 else x
  }

  // ---------- The only number of the width that differs by a multiple of 2^32, or 2^64 ----------

  lemma Wrap32Differs(x: int) returns (q: int)
    ensures x - Wrap32(x) == q * 0x1_0000_0000
  {
    q := if -0x8000_0000 <= x <= 0x7fff_ffff then 0 else (x + 0x8000_0000) / 0x1_0000_0000;
  }

  lemma Wrap32IsOnly(x: int, y: int32, q: int)
    requires x - y == q * 0x1_0000_0000
    ensures y == Wrap32(x)
  {}

  lemma Wrap64Differs(x: int) returns (q: int)
    ensures x - Wrap64(x) == q * 0x1_0000_0000_0000_0000
  {
    q := if -0x8000_0000_0000_0000 <= x <= 0x7fff_ffff_ffff_ffff then 0 else (x + 0x8000_0000_0000_0000) / 0x1_0000_0000_0000_0000;
  }

  lemma Wrap64IsOnly(x: int, y: int64, q: int)
    requires x - y == q * 0x1_0000_0000_0000_0000
    ensures y == Wrap64(x)
  {}

  lemma ToUint32Differs(x: int32) returns (q: int)
    ensures x - ToUint32(x) == q * 0x1_0000_0000
  {
    q := if x < 0 then -1 else 0;
  }
}
