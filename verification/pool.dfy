/** `getRandomBigInt` and the process-wide `generatedNumbers` set. The random
    source is a parameter: `r` stands for the value `rand.Int(rand.Reader, max)`
    returned, which that call promises lies in [0, max). */
module NumberPool {
  import Decimal

  function Pow2(e: nat): (r: nat)
    ensures e < r
  {
    if e == 0 then 1 else 2 * Pow2(e - 1)
  }

  /** The width of a draw in bits. */
  const Bits: nat := 256

  /** The exclusive upper bound of a draw, computed as 2^256 - 1. */
  const Max: nat := Pow2(Bits) - 1

  /** The result of one draw: the value returned and the seen-set afterwards. */
  datatype Drawn = Drawn(n: nat, seen: set<string>)

  /** One draw, as written: the value is returned whether or not its key was
      already in the seen-set; a fresh key is recorded, a repeated one changes
      nothing. There is no redraw. */
  function Draw(seen: set<string>, r: nat): (d: Drawn)
    requires r < Max
    ensures d.n == r && d.n < Max
    ensures Decimal.Render(d.n) in d.seen
    ensures seen <= d.seen
    ensures d.seen - seen <= {Decimal.Render(d.n)}
  {
    var key := Decimal.Render(r);
    if key !in seen then Drawn(r, seen + {key}) else Drawn(r, seen)
  }

  lemma {:induction false} Pow2Add(a: nat, b: nat)
    ensures Pow2(a + b) == Pow2(a) * Pow2(b)
    decreases a
  {
    if a > 0 {
      Pow2Add(a - 1, b);
      DoubleLeft(Pow2(a - 1), Pow2(b));
      assert Pow2(a + b) == 2 * Pow2(a - 1 + b);
    }
  }

  lemma DoubleLeft(x: nat, y: nat)
    ensures 2 * (x * y) == (2 * x) * y
  {
  }

  lemma Pow2Double(k: nat, v: nat)
    requires Pow2(k) == v
    ensures Pow2(k + k) == v * v
  {
    Pow2Add(k, k);
  }

  // 2^16, 2^32, 2^64 and 2^128 by repeated squaring, one step per lemma so
  // that each proof sees only the step before it.

  lemma Pow2At16()
    ensures Pow2(16) == 65536
  {
    assert Pow2(8) == 256;
    Pow2Double(8, 256);
  }

  lemma Pow2At32()
    ensures Pow2(32) == 4294967296
  {
    Pow2At16();
    Pow2Double(16, 65536);
  }

  lemma Pow2At64()
    ensures Pow2(64) == 18446744073709551616
  {
    Pow2At32();
    Pow2Double(32, 4294967296);
  }

  lemma Pow2At128()
    ensures Pow2(128) == 340282366920938463463374607431768211456
  {
    Pow2At64();
    Pow2Double(64, 18446744073709551616);
  }

  /** The bound equals 2^256 - 1 written out in decimal. */
  lemma MaxValue()
    ensures Max == 115792089237316195423570985008687907853269984665640564039457584007913129639935
  {
    Pow2At128();
    Pow2Double(128, 340282366920938463463374607431768211456);
  }

  /** A draw whose key is already recorded leaves the set unchanged and still
      returns the value. */
  lemma DuplicateReturnedAnyway(seen: set<string>, r: nat)
    requires r < Max
    requires Decimal.Render(r) in seen
    ensures Draw(seen, r) == Drawn(r, seen)
  {
  }

  /** A draw with a fresh key grows the set by exactly one. */
  lemma FreshDrawGrowsByOne(seen: set<string>, r: nat)
    requires r < Max
    requires Decimal.Render(r) !in seen
    ensures |Draw(seen, r).seen| == |seen| + 1
  {
  }

  /** Uniqueness of emitted values is not a property of this code: two draws of
      the same value both return it. */
  lemma RepeatedValueEmittedTwice(seen: set<string>, r: nat)
    requires r < Max
    ensures Draw(Draw(seen, r).seen, r).n == Draw(seen, r).n
    ensures Draw(Draw(seen, r).seen, r).seen == Draw(seen, r).seen
  {
  }

  /** A run of draws: the values returned in order and the seen-set afterwards. */
  function DrawEach(seen: set<string>, rs: seq<nat>): (d: (seq<nat>, set<string>))
    requires forall i :: 0 <= i < |rs| ==> rs[i] < Max
    ensures d.0 == rs
    ensures seen <= d.1
    ensures forall i :: 0 <= i < |rs| ==> Decimal.Render(rs[i]) in d.1
    ensures forall k :: k in d.1 - seen ==> exists i :: 0 <= i < |rs| && k == Decimal.Render(rs[i])
    decreases |rs|
  {
    if |rs| == 0 then ([], seen)
    else
      var first := Draw(seen, rs[0]);
      var rest := DrawEach(first.seen, rs[1..]);
      assert forall k :: k in rest.1 - seen ==> exists i :: 0 <= i < |rs| && k == Decimal.Render(rs[i]) by {
        forall k | k in rest.1 - seen
          ensures exists i :: 0 <= i < |rs| && k == Decimal.Render(rs[i])
        {
          if k in first.seen {
            assert k == Decimal.Render(rs[0]);
          } else {
            assert k in rest.1 - first.seen;
            var j :| 0 <= j < |rs[1..]| && k == Decimal.Render(rs[1..][j]);
            assert k == Decimal.Render(rs[j + 1]);
          }
        }
      }
      ([first.n] + rest.0, rest.1)
  }
}
