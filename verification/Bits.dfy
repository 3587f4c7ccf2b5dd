/** Unsigned integers as sets of bits: Go's `|`, `&`, `^`, `&^`, `bits.OnesCount` and `bits.TrailingZeros`. */
module Bits {

  function Pow2(i: nat): nat {
    if i == 0 then 1 else 2 * Pow2(i - 1)
  }

  predicate Bit(m: nat, i: nat) {
    if i == 0 then m % 2 == 1 else Bit(m / 2, i - 1)
  }

  datatype Operator = Or | And | Xor | AndNot

  predicate OnBits(op: Operator, x: bool, y: bool) {
    match op
    case Or => x || y
    case And => x && y
    case Xor => x != y
    case AndNot => x && !y
  }

  function Bitwise(op: Operator, a: nat, b: nat): nat
    decreases a + b
  {
    if a == 0 && b == 0 then 0
    else (if OnBits(op, a % 2 == 1, b % 2 == 1) then 1 else 0) + 2 * Bitwise(op, a / 2, b / 2)
  }

  function OnesCount(m: nat): nat {
    if m == 0 then 0 else m % 2 + OnesCount(m / 2)
  }

  function TrailingZeros(m: nat): nat
    requires m > 0
  {
    if m % 2 == 1 then 0 else 1 + TrailingZeros(m / 2)
  }

  /** The positions of the set bits, lowest first, counted from `base`. */
  function Positions(m: nat, base: nat): seq<nat> {
    if m == 0 then []
    else (if m % 2 == 1 then [base] else []) + Positions(m / 2, base + 1)
  }

  function Members(ps: seq<nat>): set<nat> {
    set i | i in ps
  }

  function BitSet(m: nat): set<nat> {
    Members(Positions(m, 0))
  }

  // ---------------------------------------------------------------- bits of results

  lemma {:induction false} ZeroHasNoBits(i: nat)
    ensures !Bit(0, i)
  {
    if i > 0 { ZeroHasNoBits(i - 1); }
  }

  lemma BitwiseParts(op: Operator, a: nat, b: nat)
    requires a != 0 || b != 0
    ensures Bitwise(op, a, b) / 2 == Bitwise(op, a / 2, b / 2)
    ensures Bitwise(op, a, b) % 2 == 1 <==> OnBits(op, a % 2 == 1, b % 2 == 1)
  {
  }

  lemma {:induction false} BitwiseBit(op: Operator, a: nat, b: nat, i: nat)
    ensures Bit(Bitwise(op, a, b), i) == OnBits(op, Bit(a, i), Bit(b, i))
    decreases i
  {
    if a == 0 && b == 0 {
      ZeroHasNoBits(i);
    } else {
      BitwiseParts(op, a, b);
      if i > 0 { BitwiseBit(op, a / 2, b / 2, i - 1); }
    }
  }

  lemma {:induction false} Pow2Bit(k: nat, i: nat)
    ensures Bit(Pow2(k), i) <==> i == k
    decreases i
  {
    if k == 0 {
      if i > 0 { ZeroHasNoBits(i - 1); }
    } else if i > 0 {
      assert Pow2(k) / 2 == Pow2(k - 1);
      Pow2Bit(k - 1, i - 1);
    }
  }

  /** Two masks with the same bits are the same number. */
  lemma {:induction false} SameBits(a: nat, b: nat)
    requires forall i: nat :: Bit(a, i) == Bit(b, i)
    ensures a == b
    decreases a + b
  {
    if a != 0 || b != 0 {
      assert Bit(a, 0) == Bit(b, 0);
      forall i: nat ensures Bit(a / 2, i) == Bit(b / 2, i) {
        assert Bit(a, i + 1) == Bit(b, i + 1);
      }
      SameBits(a / 2, b / 2);
    }
  }

  // ---------------------------------------------------------------- positions

  predicate Ascending(ps: seq<nat>) {
    forall j, k | 0 <= j < k < |ps| :: ps[j] < ps[k]
  }

  /** `Positions` lists exactly the set bits. */
  lemma {:induction false} PositionsMember(m: nat, base: nat, i: nat)
    ensures i in Positions(m, base) <==> i >= base && Bit(m, i - base)
    decreases m
  {
    if m == 0 {
      if i >= base { ZeroHasNoBits(i - base); }
    } else {
      PositionsMember(m / 2, base + 1, i);
    }
  }

  lemma {:induction false} PositionsAscending(m: nat, base: nat)
    ensures Ascending(Positions(m, base))
    decreases m
  {
    if m != 0 {
      var ps, rest := Positions(m, base), Positions(m / 2, base + 1);
      PositionsAscending(m / 2, base + 1);
      if m % 2 == 1 {
        forall k | 0 < k < |ps| ensures ps[0] < ps[k] {
          assert ps[k] == rest[k - 1];
          PositionsMember(m / 2, base + 1, ps[k]);
        }
        assert forall j | 0 < j < |ps| :: ps[j] == rest[j - 1];
      } else {
        assert ps == rest;
      }
    }
  }

  lemma {:induction false} OnesCountIsLength(m: nat, base: nat)
    ensures OnesCount(m) == |Positions(m, base)|
    decreases m
  {
    if m > 0 { OnesCountIsLength(m / 2, base + 1); }
  }

  lemma {:induction false} DistinctSize(ps: seq<nat>)
    requires Ascending(ps)
    ensures |Members(ps)| == |ps|
    decreases |ps|
  {
    if ps != [] {
      var rest := ps[1..];
      assert forall k | 0 <= k < |rest| :: rest[k] == ps[k + 1];
      DistinctSize(rest);
      assert ps == [ps[0]] + rest;
      assert Members(ps) == {ps[0]} + Members(rest);
      assert ps[0] !in rest;
    }
  }

  /** An increasing sequence is determined by its members. */
  lemma {:induction false} AscendingUnique(ps: seq<nat>, qs: seq<nat>)
    requires Ascending(ps) && Ascending(qs) && Members(ps) == Members(qs)
    ensures ps == qs
    decreases |ps|
  {
    DistinctSize(ps);
    DistinctSize(qs);
    if ps != [] {
      assert ps[0] in Members(qs) && qs[0] in Members(ps);
      assert ps[0] == qs[0];
      var p, q := ps[1..], qs[1..];
      assert Members(p) == Members(ps) - {ps[0]} by { assert ps == [ps[0]] + p && ps[0] !in p; }
      assert Members(q) == Members(qs) - {qs[0]} by { assert qs == [qs[0]] + q && qs[0] !in q; }
      AscendingUnique(p, q);
    }
  }

  /** The population count is the number of bits in the set the mask stands for. */
  lemma OnesCountIsSize(m: nat)
    ensures OnesCount(m) == |BitSet(m)|
    ensures forall i: nat :: i in BitSet(m) <==> Bit(m, i)
  {
    PositionsAscending(m, 0);
    OnesCountIsLength(m, 0);
    DistinctSize(Positions(m, 0));
    forall i: nat ensures i in BitSet(m) <==> Bit(m, i) { PositionsMember(m, 0, i); }
  }

  lemma {:induction false} TrailingZerosIsFirst(m: nat, base: nat)
    requires m > 0
    ensures Positions(m, base) != [] && Positions(m, base)[0] == base + TrailingZeros(m)
    decreases m
  {
    if m % 2 == 0 { TrailingZerosIsFirst(m / 2, base + 1); }
  }

  lemma {:induction false} AndNotZero(m: nat)
    ensures Bitwise(AndNot, m, 0) == m
    decreases m
  {
    if m > 0 { AndNotZero(m / 2); }
  }

  /** Clearing the lowest set bit drops the first position. */
  lemma {:induction false} ClearLowest(m: nat, base: nat)
    requires m > 0
    ensures Positions(m, base) != []
    ensures Positions(Bitwise(AndNot, m, Pow2(TrailingZeros(m))), base) == Positions(m, base)[1..]
    decreases m
  {
    TrailingZerosIsFirst(m, base);
    var low := Pow2(TrailingZeros(m));
    var cleared := Bitwise(AndNot, m, low);
    if m % 2 == 1 {
      AndNotZero(m / 2);
      assert cleared == 2 * (m / 2);
    } else {
      assert low == 2 * Pow2(TrailingZeros(m / 2));
      ClearLowest(m / 2, base + 1);
      assert cleared == 2 * Bitwise(AndNot, m / 2, low / 2);
    }
  }
}
