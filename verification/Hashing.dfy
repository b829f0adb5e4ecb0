/** The FNV-1a hash that indexes macros and interned strings. */
module Hashing {
  import opened Words

  const FNV_BASIS: nat := 2166136261
  const FNV_PRIME: nat := 16777619

  function Fnv(name: string, h: nat): nat
    decreases |name|
  {
    if name == [] then h
    else
      var x := Bitwise(BXor, h, name[0] as int % 256);
      Fnv(name[1..], x * FNV_PRIME % 0x1_0000_0000)
  }
}
