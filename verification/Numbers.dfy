/** Arithmetic that several components share. */
module Numbers {
  const U32_MAX := 0xFFFF_FFFF

  function Max(a: nat, b: nat): nat { if a < b then b else a }
}
