/** Fixed-width integer arithmetic as the C++ code performs it, and powers of two. */
module MachineInts {

  const INT_MAX: int := 0x7FFF_FFFF

  /** Two's-complement reading of the low 32 bits. */
  function Int32(x: int): int {
    if -0x8000_0000 <= x < 0x8000_0000 then x
    else (x + 0x8000_0000) % 0x1_0000_0000 - 0x8000_0000
  }

  /** Two's-complement reading of the low 64 bits. */
  function Int64(x: int): int {
    if -0x8000_0000_0000_0000 <= x < 0x8000_0000_0000_0000 then x
    else (x + 0x8000_0000_0000_0000) % 0x1_0000_0000_0000_0000 - 0x8000_0000_0000_0000
  }

  /** C++ integer division by two, which truncates toward zero. */
  function Half(x: int): int {
    if x >= 0 then x / 2 else -((-x) / 2)
  }

  function Pow2(k: nat): (p: nat)
    ensures p >= 1
  {
    if k == 0 then 1 else 2 * Pow2(k - 1)
  }

  /** The left-child computation of siftdown, wrapping after each 32-bit operation. */
  function LeftChild32(i: int): int {
    Int32(Int32(2 * i) + 1)
  }

  /** The wrapped bound test of siftdown decides exactly the unbounded one, and once it
      lets the loop go on, neither child index has wrapped. */
  lemma GuardIsExact(i: nat, n: nat)
    requires i <= n <= INT_MAX
    ensures (LeftChild32(i) >= n || LeftChild32(i) < 0) <==> 2 * i + 1 >= n
    ensures 2 * i + 1 < n ==> LeftChild32(i) == 2 * i + 1 && Int32(LeftChild32(i) + 1) == 2 * i + 2
  {
    if 2 * i < 0x8000_0000 {
      assert Int32(2 * i) == 2 * i;
    } else {
      assert Int32(2 * i) == 2 * i - 0x1_0000_0000;
    }
  }

  /** The parent computation of siftup stops at the root only because C++ truncates:
      it is the mathematical parent above the root and the root itself at the root. */
  lemma ParentStopsAtRoot(j: nat)
    ensures Half(j - 1) == j <==> j == 0
    ensures j > 0 ==> Half(j - 1) == (j - 1) / 2 < j
  {
  }

  /** The 64-bit reading of a number is in range, differs from it by a multiple of 2^64, and in range is the number. */
  lemma Int64Wraps(x: int) returns (k: int)
    ensures -0x8000_0000_0000_0000 <= Int64(x) < 0x8000_0000_0000_0000
    ensures Int64(x) == x + k * 0x1_0000_0000_0000_0000
    ensures -0x8000_0000_0000_0000 <= x < 0x8000_0000_0000_0000 ==> Int64(x) == x
  {
    k := 0;
    if !(-0x8000_0000_0000_0000 <= x < 0x8000_0000_0000_0000) {
      k := -((x + 0x8000_0000_0000_0000) / 0x1_0000_0000_0000_0000);
    }
  }
}
