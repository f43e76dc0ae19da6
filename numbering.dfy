/** The request numbers that successive calls of getNextRequestNumber
    (src/wal/state.go) hand out, with Go's silent uint32 wrap-around. */
module Numbering {
  import opened GoInts

  const Modulus: int := 0x1_0000_0000

  /** The results of `k` successive calls, starting from counter value `start`. */
  function Issued(start: uint32, k: nat): (r: seq<uint32>)
    ensures |r| == k
    decreases k
  {
    if k == 0 then [] else [Increment(start)] + Issued(Increment(start), k - 1)
  }

  /** The i-th call returns the counter plus i + 1, modulo 2^32. */
  lemma {:induction false} IssuedAt(start: uint32, k: nat, i: nat)
    requires i < k
    ensures Issued(start, k)[i] as int == (start as int + i + 1) % Modulus
    decreases k
  {
    if i > 0 {
      var next := Increment(start);
      IssuedAt(next, k - 1, i - 1);
      assert next as int == (start as int + 1) % Modulus;
      ModShift(start as int + 1, i);
    }
  }

  lemma ModShift(a: int, i: nat)
    ensures (a % Modulus + i) % Modulus == (a + i) % Modulus
  {
  }

  /** Below the wrap, the numbers are consecutive: start + 1, start + 2, ...
      and so strictly increasing by exactly one. A fresh counter starts at 1. */
  lemma IssuedConsecutive(start: uint32, k: nat)
    requires start as int + k <= MaxUint32 as int
    ensures forall i :: 0 <= i < k ==> Issued(start, k)[i] as int == start as int + i + 1
  {
    forall i | 0 <= i < k ensures Issued(start, k)[i] as int == start as int + i + 1 {
      IssuedAt(start, k, i);
    }
  }

  /** Within one cycle of 2^32 calls no number is handed out twice. */
  lemma IssuedDistinct(start: uint32, k: nat, i: nat, j: nat)
    requires k <= Modulus
    requires i < j < k
    ensures Issued(start, k)[i] != Issued(start, k)[j]
  {
    IssuedAt(start, k, i);
    IssuedAt(start, k, j);
  }

  /** The counter wraps: the call after 2^32 calls hands out the first number again. */
  lemma IssuedRepeats(start: uint32, k: nat)
    requires k > Modulus
    ensures Issued(start, k)[Modulus] == Issued(start, k)[0]
  {
    IssuedAt(start, k, 0);
    IssuedAt(start, k, Modulus);
    ModShift(start as int + 1, Modulus);
  }
}
