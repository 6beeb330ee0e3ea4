/** Octets, and the network byte order the Diameter formats use
    (diam/uintconv.go and encoding/binary's BigEndian). */
module Octets {
  datatype Option<+T> = None | Some(value: T)

  type Byte = x: int | 0 <= x < 256
  type Bytes = seq<Byte>
  type Word = x: int | 0 <= x < 0x1_0000_0000

  function Pow256(k: nat): (p: nat)
    ensures p > 0
  {
    if k == 0 then 1 else 256 * Pow256(k - 1)
  }

  /** The `k` low octets of `n`, most significant first; higher bits are dropped. */
  function Put(n: nat, k: nat): (b: Bytes)
    ensures |b| == k
  {
    if k == 0 then [] else Put(n / 256, k - 1) + [n % 256]
  }

  function Get(b: Bytes): (n: nat) {
    if b == [] then 0 else Get(b[..|b| - 1]) * 256 + b[|b| - 1]
  }

  lemma {:induction false} GetBound(b: Bytes)
    ensures Get(b) < Pow256(|b|)
  {
    if b != [] {
      GetBound(b[..|b| - 1]);
    }
  }

  /** Reading inverts writing exactly when the number fits its field. */
  lemma {:induction false} GetPut(n: nat, k: nat)
    ensures Get(Put(n, k)) == n <==> n < Pow256(k)
  {
    if k == 0 {
    } else {
      GetPut(n / 256, k - 1);
      assert Put(n, k)[..k - 1] == Put(n / 256, k - 1);
      GetBound(Put(n, k));
    }
  }

  lemma {:induction false} PutGet(b: Bytes)
    ensures Put(Get(b), |b|) == b
  {
    if b != [] {
      PutGet(b[..|b| - 1]);
      assert Get(b) / 256 == Get(b[..|b| - 1]) && Get(b) % 256 == b[|b| - 1];
    }
  }

  lemma Widths()
    ensures Pow256(2) == 0x1_0000 && Pow256(3) == 0x100_0000
    ensures Pow256(4) == 0x1_0000_0000 && Pow256(8) == 0x1_0000_0000_0000_0000
  {
    assert Pow256(2) == 256 * Pow256(1);
    assert Pow256(4) == 256 * Pow256(3);
    assert Pow256(6) == 256 * 256 * Pow256(4);
    assert Pow256(8) == 256 * 256 * Pow256(6);
  }

  function Zeros(n: nat): (z: Bytes)
    ensures |z| == n && forall i :: 0 <= i < n ==> z[i] == 0
  {
    seq(n, _ => 0)
  }

  /** Octets that bring a length to the next 32-bit boundary. */
  function Pad(n: nat): (p: nat)
    ensures p < 4 && (n + p) % 4 == 0
  {
    (4 - n % 4) % 4
  }
}
