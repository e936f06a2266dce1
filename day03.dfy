/** Day 3: the largest number formed by keeping `digits` of a line's digits in order. */
module Day03 {
  import opened Wrappers
  import opened Decimal

  /** The largest digit of a slice and where it first appears. */
  datatype Extremal = Extremal(value: int, position: nat)

  /** `to_numerical_value`: a decimal digit's value; any other character is a panic. */
  function ToNumericalValue(symbol: char): (value: Option<int>)
    ensures value.Some? <==> IsDigit(symbol)
    ensures value.Some? ==> value.value == DigitValue(symbol)
  {
    match symbol
    case '0' => Some(0)
    case '1' => Some(1)
    case '2' => Some(2)
    case '3' => Some(3)
    case '4' => Some(4)
    case '5' => Some(5)
    case '6' => Some(6)
    case '7' => Some(7)
    case '8' => Some(8)
    case '9' => Some(9)
    case _ => None
  }

  /** `p` is the first position of a largest digit of `s`. */
  predicate FirstMaximum(s: string, p: nat)
    requires AllDigits(s)
  {
    p < |s|
    && (forall i :: 0 <= i < |s| ==> DigitValue(s[i]) <= DigitValue(s[p]))
    && (forall i :: 0 <= i < p ==> DigitValue(s[i]) < DigitValue(s[p]))
  }

  /** `find_largest_symbol`: the largest digit and its first position (the comparison is
      strict, so later equal digits do not move it); 0 at position 0 for an empty slice. */
  method FindLargestSymbol(line: string) returns (maximal: Extremal)
    requires AllDigits(line)
    ensures line == [] ==> maximal == Extremal(0, 0)
    ensures line != [] ==> FirstMaximum(line, maximal.position) && maximal.value == DigitValue(line[maximal.position])
  {
    var currentMax := 0;
    var currentPos := 0;
    var position := 0;
    while position < |line|
      invariant 0 <= position <= |line|
      invariant position == 0 ==> currentPos == 0 && currentMax == 0
      invariant position > 0 ==> currentPos < position && currentMax == DigitValue(line[currentPos])
      invariant forall i :: 0 <= i < position ==> DigitValue(line[i]) <= currentMax
      invariant forall i :: 0 <= i < currentPos ==> DigitValue(line[i]) < currentMax
    {
      var value := ToNumericalValue(line[position]).value;
      if value > currentMax {
        currentMax := value;
        currentPos := position;
      }
      position := position + 1;
    }
    maximal := Extremal(currentMax, currentPos);
  }

  // ---------------------------------------------------------------------------
  // Subsequences and the best one

  /** The number of kept positions of a mask. */
  function Count(mask: seq<bool>): (n: nat)
    ensures n <= |mask|
  {
    if mask == [] then 0 else (if mask[0] then 1 else 0) + Count(mask[1..])
  }

  /** The characters of `s` whose positions `mask` keeps, in order. */
  function Picked(s: string, mask: seq<bool>): (picked: string)
    requires |mask| == |s|
    ensures |picked| == Count(mask)
    ensures AllDigits(s) ==> AllDigits(picked)
  {
    if s == [] then ""
    else
      var rest := Picked(s[1..], mask[1..]);
      if mask[0] then [s[0]] + rest else rest
  }

  /** A digit placed in front of a `|rest|`-digit string. */
  lemma PrependDigit(c: char, rest: string)
    requires IsDigit(c) && AllDigits(rest)
    ensures AllDigits([c] + rest)
    ensures DigitsValue([c] + rest) == DigitValue(c) * Exp10(|rest|) + DigitsValue(rest)
  {
    SingleDigit(c);
    DigitsValueConcat([c], rest);
  }

  lemma SingleDigit(c: char)
    requires IsDigit(c)
    ensures AllDigits([c]) && DigitsValue([c]) == DigitValue(c)
  {
    assert [c][..0] == [];
  }

  lemma DigitInFront(d: int, e: int, b: int)
    requires 0 <= d < 10 && 0 <= b < e
    ensures d * e + b < 10 * e
  {
    assert d * e <= 9 * e;
  }

  /** A smaller leading digit gives a smaller number, whatever follows it. */
  lemma SmallerLeadingDigit(a: int, b: int, e: int, x: int, y: int)
    requires 0 <= a < b && 0 <= x < e && y >= 0
    ensures a * e + x < b * e + y
  {
    assert (a + 1) * e <= b * e;
  }

  lemma ShiftValue(v: int, m: int, k: nat)
    requires k >= 1
    ensures (v * 10 + m) * Exp10(k - 1) == v * Exp10(k) + m * Exp10(k - 1)
  {
    assert Exp10(k) == 10 * Exp10(k - 1);
  }

  /** One greedy step keeps the value found so far, shifted, plus the best of what remains. */
  lemma PowerStep(v: int, m: int, k: nat, best: int, tail: int, total: int)
    requires k >= 1 && v * Exp10(k) + best == total && best == m * Exp10(k - 1) + tail
    ensures (v * 10 + m) * Exp10(k - 1) + tail == total
  {
    ShiftValue(v, m, k);
  }

  /** The largest value of a `k`-digit subsequence of `s`: either its first digit leads,
      or the best subsequence skips it. */
  function Best(s: string, k: nat): (best: nat)
    requires AllDigits(s) && k <= |s|
    ensures best < Exp10(k)
    decreases |s|
  {
    if k == 0 then 0
    else
      var rest := Best(s[1..], k - 1);
      DigitInFront(DigitValue(s[0]), Exp10(k - 1), rest);
      var take := DigitValue(s[0]) * Exp10(k - 1) + rest;
      if |s| == k then take
      else
        var skip := Best(s[1..], k);
        if take >= skip then take else skip
  }

  /** A `k`-digit subsequence that reaches `Best`. */
  function BestChoice(s: string, k: nat): (mask: seq<bool>)
    requires AllDigits(s) && k <= |s|
    ensures |mask| == |s| && Count(mask) == k
    ensures DigitsValue(Picked(s, mask)) == Best(s, k)
    decreases |s|
  {
    if s == [] then []
    else if k == 0 then
      var rest := BestChoice(s[1..], 0);
      PickedCons(s, false, rest);
      [false] + rest
    else
      var take := DigitValue(s[0]) * Exp10(k - 1) + Best(s[1..], k - 1);
      if |s| == k || take >= Best(s[1..], k) then
        var rest := BestChoice(s[1..], k - 1);
        PickedCons(s, true, rest);
        PrependDigit(s[0], Picked(s[1..], rest));
        [true] + rest
      else
        var rest := BestChoice(s[1..], k);
        PickedCons(s, false, rest);
        [false] + rest
  }

  /** Picking with a mask that starts with `keep`. */
  lemma PickedCons(s: string, keep: bool, rest: seq<bool>)
    requires s != [] && |rest| == |s| - 1
    ensures Count([keep] + rest) == (if keep then 1 else 0) + Count(rest)
    ensures Picked(s, [keep] + rest) == (if keep then [s[0]] else []) + Picked(s[1..], rest)
  {
    assert ([keep] + rest)[1..] == rest;
  }

  /** No `k`-digit subsequence is larger than `Best`. */
  lemma {:induction false} BestIsMax(s: string, k: nat, mask: seq<bool>)
    requires AllDigits(s) && |mask| == |s| && Count(mask) == k
    ensures DigitsValue(Picked(s, mask)) <= Best(s, k)
    decreases |s|
  {
    if s != [] {
      var rest := Picked(s[1..], mask[1..]);
      if mask[0] {
        BestIsMax(s[1..], k - 1, mask[1..]);
        PrependDigit(s[0], rest);
      } else {
        BestIsMax(s[1..], k, mask[1..]);
      }
    }
  }

  /** `Best` is the maximum of the values of the `k`-digit subsequences. */
  lemma BestIsMaximalSubsequence(s: string, k: nat)
    requires AllDigits(s) && k <= |s|
    ensures exists mask :: |mask| == |s| && Count(mask) == k && DigitsValue(Picked(s, mask)) == Best(s, k)
    ensures forall mask :: |mask| == |s| && Count(mask) == k ==> DigitsValue(Picked(s, mask)) <= Best(s, k)
  {
    var mask := BestChoice(s, k);
    forall mask | |mask| == |s| && Count(mask) == k
      ensures DigitsValue(Picked(s, mask)) <= Best(s, k)
    {
      BestIsMax(s, k, mask);
    }
  }

  /** Leading with any digit that leaves enough digits behind it is no better than `Best`. */
  lemma {:induction false} BestAtLeastEachFirst(s: string, k: nat, i: nat)
    requires AllDigits(s) && 1 <= k <= |s| && i <= |s| - k
    ensures DigitValue(s[i]) * Exp10(k - 1) + Best(s[i + 1..], k - 1) <= Best(s, k)
    decreases i
  {
    if i > 0 {
      BestAtLeastEachFirst(s[1..], k, i - 1);
      assert s[1..][i - 1] == s[i] && s[1..][i..] == s[i + 1..];
    }
  }

  /** `Best` is reached by leading with some digit that leaves enough digits behind it. */
  lemma {:induction false} BestFromSomeFirst(s: string, k: nat) returns (i: nat)
    requires AllDigits(s) && 1 <= k <= |s|
    ensures i <= |s| - k
    ensures Best(s, k) == DigitValue(s[i]) * Exp10(k - 1) + Best(s[i + 1..], k - 1)
    decreases |s|
  {
    var take := DigitValue(s[0]) * Exp10(k - 1) + Best(s[1..], k - 1);
    if |s| == k || take >= Best(s[1..], k) {
      i := 0;
    } else {
      var j := BestFromSomeFirst(s[1..], k);
      assert s[1..][j] == s[j + 1] && s[1..][j + 1..] == s[j + 2..];
      i := j + 1;
    }
  }

  /** A shorter suffix has no better subsequence. */
  lemma {:induction false} BestSuffixMonotone(s: string, i: nat, j: nat, k: nat)
    requires AllDigits(s) && i <= j && j + k <= |s|
    ensures Best(s[j..], k) <= Best(s[i..], k)
    decreases j - i
  {
    if i < j {
      BestSuffixMonotone(s, i + 1, j, k);
      assert s[i..][1..] == s[i + 1..];
    }
  }

  /** The greedy choice: leading with the first largest digit of the window that leaves `k - 1`
      digits behind it reaches `Best`. */
  lemma GreedyStep(s: string, k: nat, p: nat)
    requires AllDigits(s) && 1 <= k <= |s|
    requires FirstMaximum(s[..|s| - k + 1], p)
    ensures Best(s, k) == DigitValue(s[p]) * Exp10(k - 1) + Best(s[p + 1..], k - 1)
  {
    var w := s[..|s| - k + 1];
    var i := BestFromSomeFirst(s, k);
    BestAtLeastEachFirst(s, k, p);
    assert w[i] == s[i] && w[p] == s[p];
    if DigitValue(s[i]) < DigitValue(s[p]) {
      SmallerLeadingDigit(DigitValue(s[i]), DigitValue(s[p]), Exp10(k - 1), Best(s[i + 1..], k - 1), Best(s[p + 1..], k - 1));
    } else {
      assert p <= i;
      BestSuffixMonotone(s, p + 1, i + 1, k - 1);
    }
  }

  /** `find_maximal_power`: repeatedly take the first largest digit of the window that still
      leaves enough digits after it; the result is the largest `digits`-digit subsequence. */
  method FindMaximalPower(line: string, digits: nat) returns (value: int)
    requires AllDigits(line) && digits <= |line|
    ensures value == Best(line, digits)
  {
    var length := |line|;
    var offset := 0;
    value := 0;
    ghost var remaining: nat := digits;
    for position := 0 to digits
      invariant remaining == digits - position && 0 <= offset <= length - remaining
      invariant value * Exp10(remaining) + Best(line[offset..], remaining) == Best(line, digits)
    {
      var finalSymbolIndex := length - digits + position;
      var maximal := FindLargestSymbol(line[offset..finalSymbolIndex + 1]);
      GreedyAdvance(line, digits, offset, remaining, value, maximal.position, maximal.value);
      value := value * 10 + maximal.value;
      offset := offset + maximal.position + 1;
      remaining := remaining - 1;
    }
  }

  /** One pass of `find_maximal_power`'s loop keeps the value found so far, shifted, plus the
      best of what is left, equal to the best of the whole line. */
  lemma GreedyAdvance(line: string, digits: nat, offset: nat, remaining: nat, value: int, p: nat, m: int)
    requires AllDigits(line) && 1 <= remaining && offset <= |line| - remaining && digits <= |line|
    requires value * Exp10(remaining) + Best(line[offset..], remaining) == Best(line, digits)
    requires FirstMaximum(line[offset..|line| - remaining + 1], p)
    requires m == DigitValue(line[offset..|line| - remaining + 1][p])
    ensures offset + p + 1 <= |line| - (remaining - 1)
    ensures (value * 10 + m) * Exp10(remaining - 1) + Best(line[offset + p + 1..], remaining - 1) == Best(line, digits)
  {
    var rest := line[offset..];
    assert rest[..|rest| - remaining + 1] == line[offset..|line| - remaining + 1];
    GreedyStep(rest, remaining, p);
    assert rest[p] == line[offset + p];
    assert rest[p + 1..] == line[offset + p + 1..];
    PowerStep(value, DigitValue(line[offset + p]), remaining, Best(rest, remaining), Best(rest[p + 1..], remaining - 1), Best(line, digits));
  }

  /** Two digits, picked greedily: the first largest digit before the last position, then the
      first largest digit after it. */
  lemma TwoDigitGreedy(s: string, p: nat, q: nat)
    requires AllDigits(s) && 2 <= |s|
    requires FirstMaximum(s[..|s| - 1], p) && FirstMaximum(s[p + 1..], q)
    ensures Best(s, 2) == 10 * DigitValue(s[p]) + DigitValue(s[p + 1 + q])
  {
    var rest := s[p + 1..];
    assert Exp10(1) == 10 && Exp10(0) == 1;
    assert Best(rest, 1) == DigitValue(s[p + 1 + q]) by {
      assert rest[..|rest|] == rest && rest[q] == s[p + 1 + q];
      GreedyStep(rest, 1, q);
    }
    GreedyStep(s, 2, p);
  }

  /** With two digits, `000900800900` gives 99: the first 9, then the next 9. */
  lemma MultipleMaximaExample()
    ensures Best("000900800900", 2) == 99
  {
    TwoDigitGreedy("000900800900", 3, 5);
  }

  /** With two digits, `0007008009` gives 89: the window for the first digit stops before the
      final 9. */
  lemma MaximumAtEndExample()
    ensures Best("0007008009", 2) == 89
  {
    TwoDigitGreedy("0007008009", 6, 2);
  }
}
