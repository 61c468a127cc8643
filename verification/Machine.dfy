/** The program's integer widths, powers, and the smaller and larger of two numbers. */
module Machine {

  const U16: nat := 0x1_0000
  const U64: nat := 0x1_0000_0000_0000_0000
  const U64_MAX: nat := 0xFFFF_FFFF_FFFF_FFFF

  function Power(base: nat, n: nat): nat { if n == 0 then 1 else base * Power(base, n - 1) }

  function Least(a: nat, b: nat): nat { if a <= b then a else b }

  function Greatest(a: nat, b: nat): nat { if a <= b then b else a }
}
