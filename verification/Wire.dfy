/** Big-endian integers as the migration files carry them. */
module Wire {
  type byte = x: int | 0 <= x < 256

  datatype Option<+T> = None | Some(value: T)

  const WORD := 0x1_0000_0000_0000_0000

  /** Subtraction of 64-bit words. */
  function Minus64(a: int, b: int): (r: int) {
    if b <= a then a - b else a - b + WORD
  }

  lemma Minus64Wraps(a: int, b: int)
    requires 0 <= a < WORD && 0 <= b < WORD
    ensures 0 <= Minus64(a, b) < WORD && (Minus64(a, b) + b) % WORD == a
  {
  }

  /** The number of values that n bytes can hold. */
  function Range(n: nat): (r: nat)
    ensures r >= 1
  {
    if n == 0 then 1 else 256 * Range(n - 1)
  }

  /** The n low-order bytes of v, most significant first. */
  function PutBE(v: nat, n: nat): (s: seq<byte>)
    ensures |s| == n
  {
    if n == 0 then [] else PutBE(v / 256, n - 1) + [v % 256]
  }

  function GetBE(s: seq<byte>): (v: nat)
  {
    if s == [] then 0 else GetBE(s[..|s| - 1]) * 256 + s[|s| - 1] as int
  }

  /** Reading back what was written gives the value. */
  lemma {:induction false} GetPut(v: nat, n: nat)
    requires v < Range(n)
    ensures GetBE(PutBE(v, n)) == v
  {
    if n > 0 {
      GetPut(v / 256, n - 1);
      assert PutBE(v, n)[..n - 1] == PutBE(v / 256, n - 1);
    }
  }

  function Put64(v: nat): (s: seq<byte>)
    ensures |s| == 8
  {
    PutBE(v, 8)
  }

  lemma Get64Put64(v: nat)
    requires v < WORD
    ensures GetBE(Put64(v)) == v
  {
    assert Range(4) == 0x1_0000_0000;
    assert Range(8) == WORD;
    GetPut(v, 8);
  }
}
