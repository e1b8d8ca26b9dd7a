// big.Int.Bytes and SetBytes: minimal big-endian byte strings.
module BigEndian {
  import opened NumberTheory

  newtype byte = x: int | 0 <= x < 256

  function Bytes(n: nat): seq<byte> {
    if n == 0 then [] else Bytes(n / 256) + [(n % 256) as byte]
  }

  // Leading zero bytes are accepted and mean nothing.
  function SetBytes(s: seq<byte>): nat {
    if s == [] then 0 else SetBytes(s[..|s| - 1]) * 256 + s[|s| - 1] as nat
  }

  lemma {:induction false} SetBytesOfBytes(n: nat)
    ensures SetBytes(Bytes(n)) == n
  {
    if n > 0 {
      SetBytesOfBytes(n / 256);
      var s := Bytes(n);
      assert s[..|s| - 1] == Bytes(n / 256);
    }
  }

  lemma {:induction false} BytesMonotone(a: nat, b: nat)
    requires a <= b
    ensures |Bytes(a)| <= |Bytes(b)|
    decreases b
  {
    if a > 0 { BytesMonotone(a / 256, b / 256); }
  }

  // The byte length is the number of base-256 digits.
  lemma {:induction false} BytesLength(n: nat, k: nat)
    ensures |Bytes(n)| <= k <==> n < Pow(256, k)
    decreases k
  {
    if k == 0 {
      assert Pow(256, 0) == 1;
    } else if n > 0 {
      BytesLength(n / 256, k - 1);
      assert Pow(256, k) == 256 * Pow(256, k - 1);
    } else {
      PowPositive(256, k);
    }
  }
}
