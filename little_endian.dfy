/** Little-endian unsigned integers as Borsh writes them (`to_le_bytes`,
    `from_le_bytes`). */
module LittleEndian {
  import opened Types

  /** 256^n: one more than the largest value that fits in n bytes. */
  function Pow256(n: nat): (r: nat)
    ensures r >= 1
  {
    if n == 0 then 1 else 256 * Pow256(n - 1)
  }

  lemma U32Bound()
    ensures Pow256(4) == 0x1_0000_0000
  {
  }

  lemma U64Bound()
    ensures Pow256(8) == 0x1_0000_0000_0000_0000
  {
  }

  /** The n low-order bytes of x, least significant first. */
  function ToLe(x: nat, n: nat): (r: seq<u8>)
    ensures |r| == n
  {
    if n == 0 then [] else [x % 256] + ToLe(x / 256, n - 1)
  }

  /** The value of a little-endian byte string; it always fits its width. */
  function FromLe(s: seq<u8>): (r: nat)
    ensures r < Pow256(|s|)
  {
    if s == [] then 0
    else
      var rest := FromLe(s[1..]);
      assert 256 * rest <= 256 * (Pow256(|s| - 1) - 1);
      s[0] + 256 * rest
  }

  lemma FromLeCons(b: u8, s: seq<u8>)
    ensures FromLe([b] + s) == b + 256 * FromLe(s)
  {
    assert ([b] + s)[1..] == s;
  }

  /** The low byte and the remaining value of b + 256 * y, for a byte b. */
  lemma DigitSplit(b: u8, y: nat)
    ensures (b + 256 * y) % 256 == b && (b + 256 * y) / 256 == y
  {
  }

  /** Reading back n written bytes gives the value, when it fits in n bytes. */
  lemma {:induction false} FromToLe(x: nat, n: nat)
    requires x < Pow256(n)
    ensures FromLe(ToLe(x, n)) == x
  {
    if n > 0 {
      var q, m := x / 256, x % 256;
      assert q < Pow256(n - 1);
      FromToLe(q, n - 1);
      FromLeCons(m, ToLe(q, n - 1));
    }
  }

  /** Every byte string is the encoding of its own value: the format is canonical. */
  lemma {:induction false} ToFromLe(s: seq<u8>)
    ensures ToLe(FromLe(s), |s|) == s
  {
    if s != [] {
      var b, rest := s[0], s[1..];
      assert s == [b] + rest;
      FromLeCons(b, rest);
      ToFromLe(rest);
      DigitSplit(b, FromLe(rest));
    }
  }
}
