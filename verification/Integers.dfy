/** Numbers in a fixed count of bytes, lowest first: a frame's length and the place a
    block is bound to. */
module Integers {
  import opened Blocks

  /** The low `count` bytes of `n`, least significant first. */
  function LittleEndian(n: nat, count: nat): (r: seq<byte>)
    ensures |r| == count
  {
    if count == 0 then [] else [n % 256] + LittleEndian(n / 256, count - 1)
  }

  function FromLittleEndian(s: seq<byte>): nat {
    if s == [] then 0 else s[0] as nat + 256 * FromLittleEndian(s[1..])
  }

  /** The values `count` bytes can hold. */
  function Values(count: nat): nat {
    if count == 0 then 1 else 256 * Values(count - 1)
  }

  lemma {:induction false} LittleEndianRoundTrip(n: nat, count: nat)
    ensures FromLittleEndian(LittleEndian(n, count)) < Values(count)
    ensures FromLittleEndian(LittleEndian(n, count)) == n <==> n < Values(count)
  {
    if count > 0 {
      LittleEndianRoundTrip(n / 256, count - 1);
    }
  }
}
