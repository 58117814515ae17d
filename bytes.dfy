/** Bytes, optional values, results, and unsigned little-endian numbers. */
module Bytes {

  type byte = x: int | 0 <= x < 256

  datatype Option<T> = None | Some(value: T)

  datatype Result<T, E> = Ok(value: T) | Err(error: E)

  function Min(a: int, b: int): int { if a <= b then a else b }

  /** 256 to the power k: one more than the largest k-byte unsigned number. */
  function Pow256(k: nat): (p: nat)
    ensures p >= 1
  {
    if k == 0 then 1 else 256 * Pow256(k - 1)
  }

  /** The unsigned number a little-endian byte string denotes (struct's 'B', '<H', '<I'). */
  function LittleEndian(s: seq<byte>): (n: nat)
    ensures n < Pow256(|s|)
  {
    if s == [] then 0 else s[0] + 256 * LittleEndian(s[1..])
  }

  /** The `width` least significant bytes of n, least significant first. */
  function ToLittleEndian(n: nat, width: nat): (s: seq<byte>)
    ensures |s| == width
  {
    if width == 0 then [] else [n % 256] + ToLittleEndian(n / 256, width - 1)
  }

  lemma {:induction false} LittleEndianOfEncoding(n: nat, width: nat)
    requires n < Pow256(width)
    ensures LittleEndian(ToLittleEndian(n, width)) == n
  {
    if width > 0 {
      var s := ToLittleEndian(n, width);
      assert s[1..] == ToLittleEndian(n / 256, width - 1);
      LittleEndianOfEncoding(n / 256, width - 1);
    }
  }

  lemma {:induction false} EncodingOfLittleEndian(s: seq<byte>)
    ensures ToLittleEndian(LittleEndian(s), |s|) == s
  {
    if s != [] {
      EncodingOfLittleEndian(s[1..]);
      var n := LittleEndian(s);
      assert n % 256 == s[0] && n / 256 == LittleEndian(s[1..]);
    }
  }

  lemma LittleEndian16(s: seq<byte>)
    requires |s| == 2
    ensures LittleEndian(s) == s[0] as int + 256 * (s[1] as int)
  {
    assert s[1..][1..] == [];
  }

  lemma LittleEndian32(s: seq<byte>)
    requires |s| == 4
    ensures LittleEndian(s) == s[0] as int + 256 * (s[1] as int) + 65536 * (s[2] as int) + 16777216 * (s[3] as int)
  {
    LittleEndian16(s[2..]);
    assert s[1..][1..] == s[2..];
  }
}
