/** The growth of the buffer for a decoded chunked body in src/server.c: capacities
    are size_t, so doubling one wraps. */
module DecodeBuffer {

  const WORD := 0x1_0000_0000_0000_0000
  const HALF_WORD := 0x8000_0000_0000_0000
  const START := 65536
  const MOST := 16777216

  function Pow2(k: nat): (n: nat)
    ensures n > 0
  {
    if k == 0 then 1 else 2 * Pow2(k - 1)
  }

  lemma {:induction false} Pow2Sum(a: nat, b: nat)
    ensures Pow2(a + b) == Pow2(a) * Pow2(b)
  {
    if b > 0 {
      Pow2Sum(a, b - 1);
      Twice(Pow2(a), Pow2(b - 1));
    }
  }

  lemma Twice(a: nat, b: nat)
    ensures 2 * (a * b) == a * (2 * b)
  {
  }

  lemma Pow2Values()
    ensures Pow2(16) == START && Pow2(24) == MOST && Pow2(63) == HALF_WORD && 2 * Pow2(63) == WORD
  {
    assert Pow2(8) == 256 by { assert Pow2(4) == 16; }
    Pow2Sum(8, 8);
    Pow2Sum(16, 8);
    assert Pow2(32) == 65536 * 65536 by { Pow2Sum(16, 16); }
    assert Pow2(32) == 2 * Pow2(31);
    Pow2Sum(32, 31);
  }

  lemma {:induction false} Pow2Grows(a: nat, b: nat)
    requires a <= b
    ensures Pow2(a) <= Pow2(b)
  {
    if a < b { Pow2Grows(a, b - 1); }
  }

  /** A capacity of the buffer: a power of two from 64 KiB to 16 MiB. */
  ghost predicate IsCapacity(cap: nat) { exists j: nat :: 16 <= j <= 24 && cap == Pow2(j) }

  lemma SmallestCapacity()
    ensures IsCapacity(START) && START < HALF_WORD
  {
    Pow2Values();
    assert START == Pow2(16);
  }

  lemma CapacityBounds(cap: nat)
    requires IsCapacity(cap)
    ensures START <= cap <= MOST < HALF_WORD
  {
    var j: nat :| 16 <= j <= 24 && cap == Pow2(j);
    Pow2Values();
    Pow2Grows(16, j);
    Pow2Grows(j, 24);
  }

  /** The candidate after k more turns of the loop that starts at 2 * cap. */
  function Candidate(cap: nat, k: nat): nat {
    if k == 0 then 2 * cap % WORD else 2 * Candidate(cap, k - 1) % WORD
  }

  /** Some turn brings the candidate to what is needed. */
  ghost predicate GrowthEnds(cap: nat, needed: nat) { exists k: nat :: Candidate(cap, k) >= needed }

  /** Doubling in a word. */
  lemma Doubles(j: nat)
    requires j <= 63
    ensures 2 * Pow2(j) % WORD == if j < 63 then Pow2(j + 1) else 0
  {
    Pow2Values();
    hide Pow2;
    NextPow2(j);
    if j < 63 { Pow2Grows(j + 1, 63); }
  }

  lemma NextPow2(j: nat)
    ensures Pow2(j + 1) == 2 * Pow2(j)
  {
  }

  lemma {:induction false} CandidateIs(j: nat, k: nat)
    requires j <= 62
    ensures Candidate(Pow2(j), k) == if j + 1 + k <= 63 then Pow2(j + 1 + k) else 0
  {
    hide Pow2;
    if k == 0 {
      Doubles(j);
    } else {
      CandidateIs(j, k - 1);
      if j + k <= 63 { Doubles(j + k); }
    }
  }

  /** The loop ends exactly when what is needed is at most 2^63: past that the
      doubled capacity becomes 0 and stays 0. */
  lemma GrowthEndsIff(cap: nat, needed: nat)
    requires IsCapacity(cap) && needed > cap
    ensures GrowthEnds(cap, needed) <==> needed <= HALF_WORD
  {
    var j: nat :| 16 <= j <= 24 && cap == Pow2(j);
    Pow2Values();
    CandidateIs(j, 62 - j);
    if GrowthEnds(cap, needed) {
      var k: nat :| Candidate(cap, k) >= needed;
      CandidateIs(j, k);
      if j + 1 + k <= 63 { Pow2Grows(j + 1 + k, 63); }
    } else {
      assert Candidate(cap, 62 - j) < needed;
    }
  }

  /** The loop where it ends, and the cap of 16 MiB on its result. */
  method Grow(cap: nat, needed: nat) returns (grown: nat)
    requires IsCapacity(cap) && cap < needed <= HALF_WORD
    ensures IsCapacity(grown) && (grown >= needed || grown == MOST)
  {
    Pow2Values();
    ghost var j: nat :| 16 <= j <= 24 && cap == Pow2(j);
    ghost var i := j + 1;
    grown := cap * 2;
    Pow2Grows(i, 63);
    while grown < needed
      invariant 17 <= i <= 63 && grown == Pow2(i) <= HALF_WORD
      decreases 63 - i
    {
      if i == 63 { assert false; }
      Pow2Grows(i + 1, 63);
      i := i + 1;
      grown := grown * 2 % WORD;
    }
    if grown > MOST {
      grown := MOST;
      i := 24;
    } else if i > 24 {
      Pow2Grows(25, i);
    }
  }
}
