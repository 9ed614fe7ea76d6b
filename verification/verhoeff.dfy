/** The Verhoeff check digit over the dihedral group D5, as `verhoeff::calculate`
    computes it for section 5.1.4.1 of the Matter Core Specification. */
module Verhoeff {
  import opened Decimal

  /** Sum and difference of two rotations, modulo 5. */
  function Add5(x: Digit, y: Digit): (z: Digit)
    requires x < 5 && y < 5
    ensures z < 5
  {
    if x + y < 5 then x + y else x + y - 5
  }

  function Sub5(x: Digit, y: Digit): (z: Digit)
    requires x < 5 && y < 5
    ensures z < 5
  {
    if y <= x then x - y else x - y + 5
  }

  /** The product of D5: 0..4 are the rotations, 5..9 the reflections. */
  function Mul(a: Digit, b: Digit): Digit {
    if a < 5 then
      if b < 5 then Add5(a, b) else 5 + Add5(a, b - 5)
    else
      if b < 5 then 5 + Sub5(a - 5, b) else Sub5(a - 5, b - 5)
  }

  function Inverse(a: Digit): Digit {
    if 0 < a < 5 then 5 - a else a
  }

  /** The permutation applied once more for each position to the left. */
  function Turn(d: Digit): Digit {
    match d
    case 0 => 1 case 1 => 5 case 2 => 7 case 3 => 6 case 4 => 2
    case 5 => 8 case 6 => 3 case 7 => 0 case 8 => 9 case 9 => 4
  }

  function Turned(times: nat, d: Digit): Digit {
    if times == 0 then d else Turn(Turned(times - 1, d))
  }

  /** The eight-row permutation table: row `position % 8`, column `d`. */
  function Weight(position: nat, d: Digit): Digit {
    Turned(position % 8, d)
  }

  /** Accumulates the digits from the right, the rightmost at `position`. */
  function Fold(ds: seq<Digit>, position: nat, c: Digit): Digit
    decreases |ds|
  {
    if ds == [] then c
    else Fold(ds[..|ds| - 1], position + 1, Mul(c, Weight(position, ds[|ds| - 1])))
  }

  /** The check digit to append to a payload. */
  function Calculate(payload: seq<Digit>): Digit {
    Inverse(Fold(payload, 1, 0))
  }

  /** Payload and check digit together fold to the identity of the group. */
  predicate IsValid(code: seq<Digit>) {
    Fold(code, 0, 0) == 0
  }

  // --- the group and the permutation ---------------------------------------

  lemma AssociativeWithRotation(a: Digit, b: Digit, r: Digit)
    requires r < 5
    ensures Mul(Mul(a, b), r) == Mul(a, Mul(b, r))
  {
  }

  lemma AssociativeWithReflection(a: Digit, b: Digit, r: Digit)
    requires r < 5
    ensures Mul(Mul(a, b), r + 5) == Mul(a, Mul(b, r + 5))
  {
  }

  lemma MulAssociative(a: Digit, b: Digit, c: Digit)
    ensures Mul(Mul(a, b), c) == Mul(a, Mul(b, c))
  {
    if c < 5 { AssociativeWithRotation(a, b, c); } else { AssociativeWithReflection(a, b, c - 5); }
  }

  lemma MulCancels(a: Digit, b: Digit, c: Digit)
    ensures Mul(a, b) == Mul(a, c) ==> b == c
    ensures Mul(b, a) == Mul(c, a) ==> b == c
    ensures Mul(0, a) == a && Mul(a, Inverse(a)) == 0
  {
  }

  lemma TurnPeriod(d: Digit)
    ensures Turned(8, d) == d
  {
    assert Turned(1, d) == Turn(d);
    assert Turned(2, d) == Turn(Turned(1, d));
    assert Turned(3, d) == Turn(Turned(2, d));
    assert Turned(4, d) == Turn(Turned(3, d));
    assert Turned(5, d) == Turn(Turned(4, d));
    assert Turned(6, d) == Turn(Turned(5, d));
    assert Turned(7, d) == Turn(Turned(6, d));
    assert Turned(8, d) == Turn(Turned(7, d));
  }

  lemma WeightNext(position: nat, d: Digit)
    ensures Weight(position + 1, d) == Turn(Weight(position, d))
  {
    TurnPeriod(d);
    if position % 8 == 7 {
      assert (position + 1) % 8 == 0;
      assert Turned(8, d) == Turn(Turned(7, d));
    } else {
      assert (position + 1) % 8 == position % 8 + 1;
    }
  }

  lemma TurnInjective(a: Digit, b: Digit)
    requires Turn(a) == Turn(b)
    ensures a == b
  {
  }

  lemma {:induction false} TurnedInjective(times: nat, a: Digit, b: Digit)
    requires Turned(times, a) == Turned(times, b)
    ensures a == b
  {
    if times > 0 {
      TurnInjective(Turned(times - 1, a), Turned(times - 1, b));
      TurnedInjective(times - 1, a, b);
    }
  }

  /** The anti-symmetry that makes adjacent swaps visible. */
  lemma TurnAntisymmetric(x: Digit, y: Digit)
    requires x != y
    ensures Mul(x, Turn(y)) != Mul(y, Turn(x))
  {
  }

  // --- the fold -------------------------------------------------------------

  lemma {:induction false} FoldFactors(ds: seq<Digit>, position: nat, c: Digit)
    ensures Fold(ds, position, c) == Mul(c, Fold(ds, position, 0))
    decreases |ds|
  {
    MulCancels(c, 0, 0);
    if ds != [] {
      var front, w := ds[..|ds| - 1], Weight(position, ds[|ds| - 1]);
      MulCancels(w, 0, 0);
      FoldFactors(front, position + 1, Mul(c, w));
      FoldFactors(front, position + 1, w);
      MulAssociative(c, w, Fold(front, position + 1, 0));
    }
  }

  lemma FoldInjective(ds: seq<Digit>, position: nat, c: Digit, c': Digit)
    requires c != c'
    ensures Fold(ds, position, c) != Fold(ds, position, c')
  {
    FoldFactors(ds, position, c);
    FoldFactors(ds, position, c');
    MulCancels(Fold(ds, position, 0), c, c');
  }

  lemma {:induction false} FoldSeesSubstitution(ds: seq<Digit>, k: nat, d: Digit, position: nat, c: Digit)
    requires k < |ds| && d != ds[k]
    ensures Fold(ds[k := d], position, c) != Fold(ds, position, c)
    decreases |ds|
  {
    var n := |ds| - 1;
    var changed := ds[k := d];
    if k == n {
      assert changed[..n] == ds[..n];
      var w, w' := Weight(position, ds[n]), Weight(position, d);
      if w == w' { TurnedInjective(position % 8, ds[n], d); }
      MulCancels(c, w, w');
      FoldInjective(ds[..n], position + 1, Mul(c, w), Mul(c, w'));
    } else {
      assert changed[..n] == ds[..n][k := d];
      FoldSeesSubstitution(ds[..n], k, d, position + 1, Mul(c, Weight(position, ds[n])));
    }
  }

  function Swapped(ds: seq<Digit>, k: nat): seq<Digit>
    requires k + 1 < |ds|
  {
    ds[k := ds[k + 1]][k + 1 := ds[k]]
  }

  lemma {:induction false} FoldStep(front: seq<Digit>, d: Digit, position: nat, c: Digit, w: Digit)
    requires w == Weight(position, d)
    ensures Fold(front + [d], position, c) == Fold(front, position + 1, Mul(c, w))
  {
    assert (front + [d])[..|front|] == front;
  }

  lemma FoldOfPair(rest: seq<Digit>, x: Digit, y: Digit, position: nat, c: Digit)
    ensures Fold(rest + [x, y], position, c)
         == Fold(rest, position + 2, Mul(Mul(c, Weight(position, y)), Weight(position + 1, x)))
  {
    var w := Weight(position, y);
    assert rest + [x, y] == (rest + [x]) + [y];
    FoldStep(rest + [x], y, position, c, w);
    FoldStep(rest, x, position + 1, Mul(c, w), Weight(position + 1, x));
  }

  lemma PairSwapDetected(rest: seq<Digit>, x: Digit, y: Digit, position: nat, c: Digit)
    requires x != y
    ensures Fold(rest + [y, x], position, c) != Fold(rest + [x, y], position, c)
  {
    var u, v := Weight(position, x), Weight(position, y);
    if u == v { TurnedInjective(position % 8, x, y); }
    FoldOfPair(rest, x, y, position, c);
    FoldOfPair(rest, y, x, position, c);
    WeightNext(position, x);
    WeightNext(position, y);
    TurnAntisymmetric(u, v);
    MulAssociative(c, u, Turn(v));
    MulAssociative(c, v, Turn(u));
    MulCancels(c, Mul(u, Turn(v)), Mul(v, Turn(u)));
    FoldInjective(rest, position + 2, Mul(Mul(c, u), Turn(v)), Mul(Mul(c, v), Turn(u)));
  }

  lemma {:induction false} FoldSeesSwap(ds: seq<Digit>, k: nat, position: nat, c: Digit)
    requires k + 1 < |ds| && ds[k] != ds[k + 1]
    ensures Fold(Swapped(ds, k), position, c) != Fold(ds, position, c)
    decreases |ds|
  {
    var n := |ds| - 1;
    if k + 1 == n {
      assert ds == ds[..k] + [ds[k], ds[n]];
      assert Swapped(ds, k) == ds[..k] + [ds[n], ds[k]];
      PairSwapDetected(ds[..k], ds[k], ds[n], position, c);
    } else {
      assert Swapped(ds, k)[..n] == Swapped(ds[..n], k);
      FoldSeesSwap(ds[..n], k, position + 1, Mul(c, Weight(position, ds[n])));
    }
  }

  // --- the check digit of the published example code

  lemma {:induction false} TurnedNext(times: nat, d: Digit)
    ensures Turned(0, d) == d && Turned(times + 1, d) == Turn(Turned(times, d))
  {
  }

  lemma {:induction false} TurnedFour(d: Digit, a: Digit, b: Digit, c: Digit, e: Digit)
    requires a == Turn(d) && b == Turn(a) && c == Turn(b) && e == Turn(c)
    ensures Turned(1, d) == a && Turned(2, d) == b && Turned(3, d) == c && Turned(4, d) == e
  {
    hide Turned;
    TurnedNext(0, d);
    TurnedNext(1, d);
    TurnedNext(2, d);
    TurnedNext(3, d);
  }

  lemma {:induction false} ExampleWeights()
    ensures Weight(1, 3) == 6 && Weight(2, 3) == 3 && Weight(3, 2) == 1 && Weight(4, 1) == 4 && Weight(5, 1) == 2
    ensures Weight(6, 0) == 2 && Weight(7, 7) == 2 && Weight(8, 9) == 9 && Weight(9, 4) == 2 && Weight(10, 3) == 3
  {
    hide Turned;
    TurnedFour(3, 6, 3, 6, 3);
    TurnedFour(2, 7, 0, 1, 5);
    TurnedFour(1, 5, 8, 9, 4);
    TurnedNext(4, 1);
    TurnedFour(0, 1, 5, 8, 9);
    TurnedNext(4, 0);
    TurnedNext(5, 0);
    TurnedFour(7, 0, 1, 5, 8);
    TurnedNext(4, 7);
    TurnedNext(5, 7);
    TurnedNext(6, 7);
    TurnedNext(0, 9);
    TurnedNext(0, 4);
  }

  lemma {:induction false} ExampleCheckDigit()
    ensures Calculate([3, 4, 9, 7, 0, 1, 1, 2, 3, 3]) == 2
  {
    hide Weight, Fold;
    ExampleWeights();
    assert [3, 4, 9, 7, 0, 1, 1, 2, 3, 3] == [3, 4, 9, 7, 0, 1, 1, 2, 3] + [3];
    FoldStep([3, 4, 9, 7, 0, 1, 1, 2, 3], 3, 1, 0, 6);
    assert [3, 4, 9, 7, 0, 1, 1, 2, 3] == [3, 4, 9, 7, 0, 1, 1, 2] + [3];
    FoldStep([3, 4, 9, 7, 0, 1, 1, 2], 3, 2, 6, 3);
    assert [3, 4, 9, 7, 0, 1, 1, 2] == [3, 4, 9, 7, 0, 1, 1] + [2];
    FoldStep([3, 4, 9, 7, 0, 1, 1], 2, 3, 8, 1);
    assert [3, 4, 9, 7, 0, 1, 1] == [3, 4, 9, 7, 0, 1] + [1];
    FoldStep([3, 4, 9, 7, 0, 1], 1, 4, 7, 4);
    assert [3, 4, 9, 7, 0, 1] == [3, 4, 9, 7, 0] + [1];
    FoldStep([3, 4, 9, 7, 0], 1, 5, 8, 2);
    assert [3, 4, 9, 7, 0] == [3, 4, 9, 7] + [0];
    FoldStep([3, 4, 9, 7], 0, 6, 6, 2);
    assert [3, 4, 9, 7] == [3, 4, 9] + [7];
    FoldStep([3, 4, 9], 7, 7, 9, 2);
    assert [3, 4, 9] == [3, 4] + [9];
    FoldStep([3, 4], 9, 8, 7, 9);
    assert [3, 4] == [3] + [4];
    FoldStep([3], 4, 9, 3, 2);
    assert [3] == [] + [3];
    FoldStep([], 3, 10, 0, 3);
    FoldDone(11, 3);
  }

  lemma {:induction false} FoldDone(position: nat, c: Digit)
    ensures Fold([], position, c) == c
  {
  }

  // --- what the check digit promises, for codes of any length ----------------

  /** Exactly one digit completes a payload, and it is the calculated one. */
  lemma CheckDigitUnique(payload: seq<Digit>, check: Digit)
    ensures IsValid(payload + [check]) <==> check == Calculate(payload)
  {
    var code := payload + [check];
    assert code[..|code| - 1] == payload;
    MulCancels(check, 0, 0);
    FoldFactors(payload, 1, check);
    var p := Fold(payload, 1, 0);
    MulCancels(Inverse(p), p, p);
    MulCancels(p, check, Inverse(p));
    assert Mul(Inverse(p), p) == 0;
  }

  lemma SubstitutionDetected(code: seq<Digit>, k: nat, d: Digit)
    requires k < |code| && d != code[k] && IsValid(code)
    ensures !IsValid(code[k := d])
  {
    FoldSeesSubstitution(code, k, d, 0, 0);
  }

  lemma SwapDetected(code: seq<Digit>, k: nat)
    requires k + 1 < |code| && code[k] != code[k + 1] && IsValid(code)
    ensures !IsValid(Swapped(code, k))
  {
    FoldSeesSwap(code, k, 0, 0);
  }
}
