/** Day 10: machines whose indicator lights are toggled by buttons; the fewest distinct
    buttons bringing all-off lights into the target pattern. */
module Day10 {
  import opened Wrappers
  import Text
  import Seqs
  import Arith

  // ---------------------------------------------------------------------------
  // Light patterns

  /** `LightPattern::from_str`: `'#'` is on, `'.'` is off, every other character is skipped. */
  function PatternOf(line: string): (pattern: seq<bool>)
    ensures |pattern| <= |line|
  {
    if line == [] then []
    else
      var rest := PatternOf(line[1..]);
      if line[0] == '#' then [true] + rest
      else if line[0] == '.' then [false] + rest
      else rest
  }

  /** The pattern written as in the input, between brackets. */
  function Diagram(pattern: seq<bool>): (s: string)
    ensures |s| == |pattern|
  {
    if pattern == [] then [] else [if pattern[0] then '#' else '.'] + Diagram(pattern[1..])
  }

  lemma {:induction false} PatternOfDiagram(pattern: seq<bool>, rest: string)
    ensures PatternOf(Diagram(pattern) + rest) == pattern + PatternOf(rest)
  {
    if pattern != [] {
      PatternOfDiagram(pattern[1..], rest);
      var s := Diagram(pattern) + rest;
      assert s[0] == if pattern[0] then '#' else '.';
      assert s[1..] == Diagram(pattern[1..]) + rest;
      assert PatternOf(s) == [pattern[0]] + PatternOf(s[1..]);
      assert [pattern[0]] + (pattern[1..] + PatternOf(rest)) == pattern + PatternOf(rest);
    } else {
      assert Diagram(pattern) + rest == rest;
    }
  }

  /** `from_str` reads back the diagram of a pattern: the brackets are skipped. */
  lemma PatternOfBracketed(pattern: seq<bool>)
    ensures PatternOf("[" + Diagram(pattern) + "]") == pattern
  {
    assert ("[" + Diagram(pattern) + "]")[1..] == Diagram(pattern) + "]";
    PatternOfDiagram(pattern, "]");
    assert PatternOf("]") == [];
  }

  /** How often `i` is listed. */
  function Count(lights: seq<int>, i: int): nat {
    if lights == [] then 0 else Count(lights[..|lights| - 1], i) + (if lights[|lights| - 1] == i then 1 else 0)
  }

  predicate Odd(n: nat) {
    n % 2 == 1
  }

  /** Every listed index is one of the `n` lights (otherwise indexing panics). */
  predicate InRange(lights: seq<int>, n: nat) {
    forall k :: 0 <= k < |lights| ==> 0 <= lights[k] < n
  }

  /** The pattern after toggling the listed lights one after the other; `None` if an index is
      past the end. Exactly the lights listed an odd number of times change. */
  function Toggled(pattern: seq<bool>, lights: seq<int>): (r: Option<seq<bool>>)
    ensures r.Some? <==> InRange(lights, |pattern|)
    ensures r.Some? ==> (|r.value| == |pattern|
      && forall i :: 0 <= i < |pattern| ==> r.value[i] == (pattern[i] != Odd(Count(lights, i))))
  {
    if lights == [] then Some(pattern)
    else
      var n := |lights|;
      var last := lights[n - 1];
      match Toggled(pattern, lights[..n - 1])
      case None => None
      case Some(p) =>
        if 0 <= last < |p| then Some(p[last := !p[last]]) else None
  }

  /** Pressing the same button twice restores the pattern. */
  lemma ToggleTwice(pattern: seq<bool>, lights: seq<int>)
    requires InRange(lights, |pattern|)
    ensures Toggled(Toggled(pattern, lights).value, lights) == Some(pattern)
  {
    var once := Toggled(pattern, lights).value;
    var twice := Toggled(once, lights).value;
    forall i | 0 <= i < |pattern|
      ensures twice[i] == pattern[i]
    {
      assert once[i] == (pattern[i] != Odd(Count(lights, i)));
    }
    assert twice == pattern;
  }

  datatype Button = Button(connectedLights: seq<int>)

  /** `n` lights, all off. */
  function AllOff(n: nat): (p: seq<bool>)
    ensures |p| == n && forall i :: 0 <= i < n ==> !p[i]
  {
    seq(n, _ => false)
  }

  /** A machine's indicator lights. */
  class LightPattern {
    var pattern: seq<bool>

    /** `LightPattern::from_str`. */
    constructor FromStr(line: string)
      ensures pattern == PatternOf(line)
    {
      pattern := PatternOf(line);
    }

    /** `LightPattern::from_len`: `len` lights, all off. */
    constructor FromLen(len: nat)
      ensures pattern == AllOff(len)
    {
      pattern := AllOff(len);
    }

    /** `LightPattern::len`. */
    function Len(): nat
      reads this
    {
      |pattern|
    }

    /** `apply_button`: toggles the button's lights in place. */
    method ApplyButton(button: Button)
      requires InRange(button.connectedLights, |pattern|)
      modifies this
      ensures Some(pattern) == Toggled(old(pattern), button.connectedLights)
    {
      var lights := button.connectedLights;
      for k := 0 to |lights|
        invariant Toggled(old(pattern), lights[..k]) == Some(pattern)
      {
        assert lights[..k + 1][..k] == lights[..k];
        pattern := pattern[lights[k] := !pattern[lights[k]]];
      }
      assert lights[..|lights|] == lights;
    }

    /** `eq`: the same number of lights, pairwise equal. */
    predicate Eq(other: LightPattern)
      reads this, other
      ensures Eq(other) <==> pattern == other.pattern
    {
      SamePattern(pattern, other.pattern)
    }
  }

  /** `eq` on the lights themselves. */
  predicate SamePattern(a: seq<bool>, b: seq<bool>)
    ensures SamePattern(a, b) <==> a == b
  {
    |a| == |b| && PairwiseEqual(a, b)
  }

  /** `zip(a, b).all(|(x, y)| x == y)`: compares up to the shorter length. */
  predicate PairwiseEqual(a: seq<bool>, b: seq<bool>)
    ensures PairwiseEqual(a, b) <==> forall i :: 0 <= i < |a| && i < |b| ==> a[i] == b[i]
  {
    if a == [] || b == [] then true
    else
      assert forall i :: 1 <= i < |a| && i < |b| ==> a[i] == a[1..][i - 1] && b[i] == b[1..][i - 1];
      a[0] == b[0] && PairwiseEqual(a[1..], b[1..])
  }

  // ---------------------------------------------------------------------------
  // Joltages

  /** The values after subtracting `count` at every listed index in turn; `None` if an index
      is past the end. */
  function Subtracted(values: seq<int>, lights: seq<int>, count: nat): (r: Option<seq<int>>)
    ensures r.Some? <==> InRange(lights, |values|)
    ensures r.Some? ==> (|r.value| == |values|
      && forall i :: 0 <= i < |values| ==> r.value[i] == values[i] - count * Count(lights, i))
  {
    if lights == [] then Some(values)
    else
      var n := |lights|;
      var last := lights[n - 1];
      match Subtracted(values, lights[..n - 1], count)
      case None => None
      case Some(v) =>
        if 0 <= last < |v| then
          assert count * (Count(lights[..n - 1], last) + 1) == count * Count(lights[..n - 1], last) + count;
          Some(v[last := v[last] - count])
        else None
  }

  predicate AllZero(values: seq<int>)
    ensures AllZero(values) <==> forall i :: 0 <= i < |values| ==> values[i] == 0
  {
    values == [] || (values[0] == 0 && AllZero(values[1..]))
  }

  /** The joltage requirements of a machine. */
  class Joltages {
    var values: seq<int>

    constructor (values: seq<int>)
      ensures this.values == values
    {
      this.values := values;
    }

    /** `apply_button`: `count` presses of the button lower each of its counters by `count`. */
    method ApplyButton(button: Button, count: nat)
      requires InRange(button.connectedLights, |values|)
      modifies this
      ensures Some(values) == Subtracted(old(values), button.connectedLights, count)
    {
      var lights := button.connectedLights;
      for k := 0 to |lights|
        invariant Subtracted(old(values), lights[..k], count) == Some(values)
      {
        assert lights[..k + 1][..k] == lights[..k];
        values := values[lights[k] := values[lights[k]] - count];
      }
      assert lights[..|lights|] == lights;
    }

    /** `is_perfect`: every counter is at zero. */
    predicate IsPerfect()
      reads this
      ensures IsPerfect() <==> forall i :: 0 <= i < |values| ==> values[i] == 0
    {
      AllZero(values)
    }
  }

  // ---------------------------------------------------------------------------
  // Parsing a machine

  /** Every field parsed as an integer in `lo..=hi`. */
  function ParseNumbers(fields: seq<string>, lo: int, hi: int): (r: Option<seq<int>>)
    ensures r.Some? <==> forall k :: 0 <= k < |fields| ==> Text.ParseInt(fields[k], lo, hi).Some?
    ensures r.Some? ==> (|r.value| == |fields|
      && forall k :: 0 <= k < |fields| ==> Some(r.value[k]) == Text.ParseInt(fields[k], lo, hi))
  {
    if fields == [] then Some([])
    else
      var n := |fields|;
      match ParseNumbers(fields[..n - 1], lo, hi)
      case None => None
      case Some(init) =>
        match Text.ParseInt(fields[n - 1], lo, hi)
        case None => None
        case Some(v) => Some(init + [v])
  }

  /** `line[1..line.len() - 1].split(",").map(|s| s.parse().unwrap())`: the enclosing
      characters are dropped and the comma-separated values parsed; a line shorter than two
      characters or a field that does not parse panics. */
  function ParseList(line: string, lo: int, hi: int): (r: Option<seq<int>>)
    ensures r.Some? ==> |line| >= 2
  {
    if |line| < 2 then None else ParseNumbers(Text.Split(line[1..|line| - 1], ','), lo, hi)
  }

  /** The decimal renderings of the values. */
  function Rendered(values: seq<int>): (fields: seq<string>)
    ensures |fields| == |values| && forall k :: 0 <= k < |values| ==> fields[k] == Text.Render(values[k])
  {
    Seqs.Map(Text.Render, values)
  }

  /** The renderings of values in range parse back to the values. */
  lemma ParseNumbersRendered(values: seq<int>, lo: int, hi: int)
    requires forall k :: 0 <= k < |values| ==> lo <= values[k] <= hi
    ensures ParseNumbers(Rendered(values), lo, hi) == Some(values)
  {
    var fields := Rendered(values);
    forall k | 0 <= k < |fields|
      ensures Text.ParseInt(fields[k], lo, hi) == Some(values[k])
    {
      Text.ParseRendered(values[k], lo, hi);
    }
    var r := ParseNumbers(fields, lo, hi);
    assert r.value == values;
  }

  /** A nonempty list of values in range, written between two enclosing characters with
      commas between, parses back to the values. */
  lemma ParseListRendered(values: seq<int>, lo: int, hi: int, open: char, close: char)
    requires values != [] && forall k :: 0 <= k < |values| ==> lo <= values[k] <= hi
    ensures ParseList([open] + Text.Join(Rendered(values), ',') + [close], lo, hi) == Some(values)
  {
    var fields := Rendered(values);
    var line := [open] + Text.Join(fields, ',') + [close];
    assert line[1..|line| - 1] == Text.Join(fields, ',');
    forall k | 0 <= k < |fields|
      ensures ',' !in fields[k]
    {
      Text.RenderWithout(values[k], ',');
    }
    Text.SplitJoin(fields, ',');
    ParseNumbersRendered(values, lo, hi);
  }

  /** `Button::from_str`: the light indices are `usize` values. */
  function ParseButton(s: string): Option<Button> {
    match ParseList(s, 0, Text.USIZE_MAX)
    case None => None
    case Some(lights) => Some(Button(lights))
  }

  /** `Joltages::from_str`: the counters are `i64` values. */
  function ParseJoltages(s: string): Option<seq<int>> {
    ParseList(s, Text.I64_MIN, Text.I64_MAX)
  }

  /** A machine as `to_machine` builds it; the lights hold the target pattern. */
  datatype Machine = Machine(pattern: seq<bool>, buttons: seq<Button>, joltages: seq<int>)

  datatype MachineError = TooFewFields | BadButton(index: nat) | BadJoltages

  /** `elem[1..elem.len() - 1].iter().map(Button::from_str).collect()`: the first button that
      does not parse panics. */
  function ParseButtons(fields: seq<string>): (r: Result<seq<Button>, MachineError>)
    ensures r.Ok? ==> |r.value| == |fields| && forall k :: 0 <= k < |fields| ==> Some(r.value[k]) == ParseButton(fields[k])
    ensures r.Err? ==> r.error.BadButton? && r.error.index < |fields| && ParseButton(fields[r.error.index]).None?
  {
    if fields == [] then Ok([])
    else
      var n := |fields|;
      match ParseButtons(fields[..n - 1])
      case Err(e) => Err(e)
      case Ok(init) =>
        match ParseButton(fields[n - 1])
        case None => Err(BadButton(n - 1))
        case Some(b) =>
          ButtonsAppend(fields, init, b);
          Ok(init + [b])
  }

  /** One more button read after those of the earlier fields. */
  lemma ButtonsAppend(fields: seq<string>, init: seq<Button>, b: Button)
    requires fields != [] && |init| == |fields| - 1
    requires forall k :: 0 <= k < |init| ==> Some(init[k]) == ParseButton(fields[..|fields| - 1][k])
    requires Some(b) == ParseButton(fields[|fields| - 1])
    ensures forall k :: 0 <= k < |fields| ==> Some((init + [b])[k]) == ParseButton(fields[k])
  {
    forall k | 0 <= k < |fields|
      ensures Some((init + [b])[k]) == ParseButton(fields[k])
    {
      if k < |init| {
        assert fields[..|fields| - 1][k] == fields[k];
      }
    }
  }

  /** `to_machine`: space-separated fields, the pattern first, the joltages last and the
      buttons between; a line without a space panics, as the slice of buttons is then empty
      past its end. */
  function ParseMachine(line: string): (r: Result<Machine, MachineError>)
    ensures r.Ok? ==> |r.value.buttons| == |Text.Split(line, ' ')| - 2
  {
    var elem := Text.Split(line, ' ');
    if |elem| < 2 then Err(TooFewFields)
    else
      match ParseButtons(elem[1..|elem| - 1])
      case Err(e) => Err(e)
      case Ok(buttons) =>
        match ParseJoltages(elem[|elem| - 1])
        case None => Err(BadJoltages)
        case Some(joltages) => Ok(Machine(PatternOf(elem[0]), buttons, joltages))
  }

  /** `code.lines().map(to_machine).collect()`. */
  function ParseMachines(lines: seq<string>): (r: Result<seq<Machine>, MachineError>)
    ensures r.Ok? ==> |r.value| == |lines|
  {
    if lines == [] then Ok([])
    else
      match ParseMachines(lines[..|lines| - 1])
      case Err(e) => Err(e)
      case Ok(init) =>
        match ParseMachine(lines[|lines| - 1])
        case Err(e) => Err(e)
        case Ok(m) => Ok(init + [m])
  }

  // ---------------------------------------------------------------------------
  // The linear system of a machine

  /** Whether button `b` lists counter `index` (`contains`). */
  function Coefficient(b: Button, index: int): (c: int)
    ensures c == 1 <==> index in b.connectedLights
    ensures c == 0 <==> index !in b.connectedLights
  {
    if index in b.connectedLights then 1 else 0
  }

  /** One row: a coefficient per button, then the joltage. */
  function Row(buttons: seq<Button>, index: int, jolts: int): (row: seq<int>)
    ensures |row| == |buttons| + 1 && row[|buttons|] == jolts
    ensures forall j :: 0 <= j < |buttons| ==> row[j] == Coefficient(buttons[j], index)
  {
    if buttons == [] then [jolts] else [Coefficient(buttons[0], index)] + Row(buttons[1..], index, jolts)
  }

  /** `SystemOfLinearEquations::from_machine`: one row per joltage counter. */
  function FromMachine(m: Machine): (rows: seq<seq<int>>)
    ensures |rows| == |m.joltages|
    ensures forall i :: 0 <= i < |rows| ==> rows[i] == Row(m.buttons, i, m.joltages[i])
  {
    RowsFrom(m, 0)
  }

  function RowsFrom(m: Machine, i: nat): (rows: seq<seq<int>>)
    requires i <= |m.joltages|
    ensures |rows| == |m.joltages| - i
    ensures forall k :: 0 <= k < |rows| ==> rows[k] == Row(m.buttons, i + k, m.joltages[i + k])
    decreases |m.joltages| - i
  {
    if i == |m.joltages| then []
    else
      var rest := RowsFrom(m, i + 1);
      assert forall k :: 1 <= k < |rest| + 1 ==> ([Row(m.buttons, i, m.joltages[i])] + rest)[k] == rest[k - 1];
      [Row(m.buttons, i, m.joltages[i])] + rest
  }

  // ---------------------------------------------------------------------------
  // Distributing presses over buttons

  function Sum(v: seq<nat>): nat {
    if v == [] then 0 else v[0] + Sum(v[1..])
  }

  lemma {:induction false} SumConcat(a: seq<nat>, b: seq<nat>)
    ensures Sum(a + b) == Sum(a) + Sum(b)
  {
    if a != [] {
      SumConcat(a[1..], b);
      assert (a + b)[1..] == a[1..] + b;
    } else {
      assert a + b == b;
    }
  }

  function Zeros(n: nat): (z: seq<nat>)
    ensures |z| == n && Sum(z) == 0 && forall k :: 0 <= k < n ==> z[k] == 0
  {
    if n == 0 then [] else [0] + Zeros(n - 1)
  }

  function Min(a: int, b: int): int {
    if a <= b then a else b
  }

  function Max(a: int, b: int): int {
    if a <= b then b else a
  }

  /** `max_count * slots`, the most presses `slots` buttons take at most `max_count` each,
      written as a repeated sum. */
  function Capacity(maxCount: nat, slots: nat): nat {
    if slots == 0 then 0 else Capacity(maxCount, slots - 1) + maxCount
  }

  /** The repeated sum is the product `max_count * slots`. */
  lemma {:induction false} CapacityProduct(maxCount: nat, slots: nat)
    ensures Capacity(maxCount, slots) == maxCount * slots
  {
    if slots > 0 {
      CapacityProduct(maxCount, slots - 1);
      assert maxCount * slots == maxCount * (slots - 1) + maxCount;
    }
  }

  /** `usize::div_ceil`: the number of blocks of `b` that cover `a`, counted block by block. */
  function DivCeil(a: nat, b: nat): nat
    requires b > 0
    decreases a
  {
    if a == 0 then 0 else if a <= b then 1 else 1 + DivCeil(a - b, b)
  }

  /** The blocks counted are the quotient rounded up. */
  lemma {:induction false} DivCeilQuotient(a: nat, b: nat)
    requires b > 0
    ensures DivCeil(a, b) == (a + b - 1) / b
    decreases a
  {
    if a == 0 {
      Arith.ModUnique(b - 1, b, 0, b - 1);
    } else if a <= b {
      Arith.ModUnique(a + b - 1, b, 1, a - 1);
    } else {
      DivCeilQuotient(a - b, b);
      var q := (a - b + b - 1) / b;
      var r := (a - b + b - 1) % b;
      assert a - b + b - 1 == b * q + r;
      assert a + b - 1 == b * (q + 1) + r;
      Arith.ModUnique(a + b - 1, b, q + 1, r);
    }
  }

  /** At most `s` blocks of `b` are needed exactly when `s` slots of capacity `b` hold `a`. */
  lemma {:induction false} DivCeilBound(a: nat, b: nat, s: nat)
    requires b > 0
    ensures DivCeil(a, b) <= s <==> a <= Capacity(b, s)
    decreases a
  {
    if s > 0 {
      CapacityAtLeast(b, s);
    }
    if a > b && s > 0 {
      DivCeilBound(a - b, b, s - 1);
    }
  }

  /** Presses of at most one each fit whenever there are as many buttons as presses. */
  lemma {:induction false} FeasibleOne(count: nat, slots: nat)
    requires count <= slots
    ensures Feasible(count, slots, 1)
    decreases count
  {
    if count > 1 {
      FeasibleOne(count - 1, slots - 1);
    }
  }

  lemma CapacityAtLeast(maxCount: nat, slots: nat)
    requires slots > 0
    ensures Capacity(maxCount, slots) >= maxCount
  {
  }

  /** The arguments for which `combinations` neither divides by zero nor underflows in
      `slots - count.div_ceil(max_count)`. */
  predicate Feasible(count: nat, slots: nat, maxCount: nat) {
    count == 0 || (maxCount > 0 && DivCeil(count, maxCount) <= slots)
  }

  /** A distribution of `count` presses over `slots` buttons, at most `bound` each. */
  predicate Shaped(v: seq<nat>, slots: nat, count: nat, bound: nat) {
    |v| == slots && Sum(v) == count && forall k :: 0 <= k < |v| ==> v[k] <= bound
  }

  predicate AllShaped(r: seq<seq<nat>>, slots: nat, count: nat, bound: nat) {
    forall k :: 0 <= k < |r| ==> Shaped(r[k], slots, count, bound)
  }

  lemma AllShapedConcat(a: seq<seq<nat>>, b: seq<seq<nat>>, slots: nat, count: nat, bound: nat)
    requires AllShaped(a, slots, count, bound) && AllShaped(b, slots, count, bound)
    ensures AllShaped(a + b, slots, count, bound)
  {
    forall k | 0 <= k < |a + b|
      ensures Shaped((a + b)[k], slots, count, bound)
    {
      if k >= |a| {
        assert (a + b)[k] == b[k - |a|];
      }
    }
  }

  /** `combinations(count, slots, max_count)`: for each number of leading zeros (`padding`),
      each first nonzero amount, and each distribution of the rest over the remaining slots.
      The inner `max_count` shadows the parameter and bounds the recursive call. */
  function Combinations(count: nat, slots: nat, maxCount: nat): (r: seq<seq<nat>>)
    requires Feasible(count, slots, maxCount)
    ensures AllShaped(r, slots, count, maxCount)
    decreases count, 2, 0
  {
    if count == 0 then [Zeros(slots)]
    else Paddings(count, slots, maxCount, slots - DivCeil(count, maxCount) + 1)
  }

  /** The paddings below `upto`, each with the amounts its own loop allows. */
  function Paddings(count: nat, slots: nat, maxCount: nat, upto: nat): (r: seq<seq<nat>>)
    requires count > 0 && Feasible(count, slots, maxCount) && upto <= slots - DivCeil(count, maxCount) + 1
    ensures AllShaped(r, slots, count, maxCount)
    decreases count, 1, upto
  {
    if upto == 0 then []
    else
      var padding := upto - 1;
      DivCeilBound(count, maxCount, 0);
      var rest := slots - padding - 1;
      var minCount := Max(1, count - Min(count, Capacity(maxCount, rest)));
      var maxHere := Min(count, maxCount);
      var earlier := Paddings(count, slots, maxCount, upto - 1);
      var these := Amounts(count, slots, maxCount, padding, minCount, maxHere + 1);
      AllShapedConcat(earlier, these, slots, count, maxCount);
      earlier + these
  }

  /** For one padding, the first nonzero amounts from `from` below `upto`. */
  function Amounts(count: nat, slots: nat, maxCount: nat, padding: nat, from: nat, upto: nat): (r: seq<seq<nat>>)
    requires count > 0 && maxCount > 0 && padding < slots
    requires from == Max(1, count - Min(count, Capacity(maxCount, slots - padding - 1)))
    requires upto <= Min(count, maxCount) + 1
    ensures AllShaped(r, slots, count, maxCount)
    decreases count, 0, upto
  {
    if upto <= from then []
    else
      var current: nat := upto - 1;
      var rest: nat := slots - padding - 1;
      var maxHere: nat := Min(count, maxCount);
      assert Feasible(count - current, rest, maxHere) by {
        FeasibleRest(count, maxCount, rest, current);
      }
      var sub := Combinations(count - current, rest, maxHere);
      var prefix: seq<nat> := Zeros(padding) + [current];
      var these := Prefixed(prefix, sub);
      PrefixedShaped(prefix, padding, current, sub, slots, count, maxCount, maxHere);
      var earlier := Amounts(count, slots, maxCount, padding, from, upto - 1);
      AllShapedConcat(earlier, these, slots, count, maxCount);
      earlier + these
  }

  lemma FeasibleRest(count: nat, maxCount: nat, rest: nat, current: nat)
    requires 0 < maxCount && 1 <= current <= Min(count, maxCount)
    requires current >= count - Min(count, Capacity(maxCount, rest))
    ensures Feasible(count - current, rest, Min(count, maxCount))
  {
    if count - current > 0 {
      var maxHere := Min(count, maxCount);
      assert count - current <= Capacity(maxCount, rest);
      if maxHere == maxCount {
        DivCeilBound(count - current, maxCount, rest);
      } else {
        assert rest >= 1;
        assert count - current <= Capacity(maxHere, rest);
        DivCeilBound(count - current, maxHere, rest);
      }
    }
  }

  /** `sub_pattern`: every combination behind the same prefix. */
  function Prefixed(prefix: seq<nat>, combos: seq<seq<nat>>): (r: seq<seq<nat>>)
    ensures |r| == |combos| && forall k :: 0 <= k < |combos| ==> r[k] == prefix + combos[k]
  {
    if combos == [] then [] else Prefixed(prefix, combos[..|combos| - 1]) + [prefix + combos[|combos| - 1]]
  }

  /** Behind `padding` zeros and the amount `current`, distributions of the rest stay distributions. */
  lemma PrefixedShaped(prefix: seq<nat>, padding: nat, current: nat, sub: seq<seq<nat>>, slots: nat, count: nat, maxCount: nat, bound: nat)
    requires prefix == Zeros(padding) + [current]
    requires padding < slots && current <= count && current <= maxCount && bound <= maxCount
    requires AllShaped(sub, slots - padding - 1, count - current, bound)
    ensures AllShaped(Prefixed(prefix, sub), slots, count, maxCount)
  {
    var r := Prefixed(prefix, sub);
    forall k | 0 <= k < |r|
      ensures Shaped(r[k], slots, count, maxCount)
    {
      PrefixShaped(padding, current, sub[k], slots, count, maxCount, bound);
    }
  }

  lemma PrefixShaped(padding: nat, current: nat, w: seq<nat>, slots: nat, count: nat, maxCount: nat, bound: nat)
    requires padding < slots && current <= count && current <= maxCount && bound <= maxCount
    requires Shaped(w, slots - padding - 1, count - current, bound)
    ensures Shaped(Zeros(padding) + [current] + w, slots, count, maxCount)
  {
    var v := Zeros(padding) + [current] + w;
    SumConcat(Zeros(padding), [current]);
    SumConcat(Zeros(padding) + [current], w);
    assert Sum([current]) == current;
    forall k | 0 <= k < |v|
      ensures v[k] <= maxCount
    {
      if k > padding {
        assert v[k] == w[k - padding - 1];
      }
    }
  }

  /** `count` presses on every one of the slots. */
  function Full(slots: nat, amount: nat): (v: seq<nat>)
    ensures |v| == slots && forall k :: 0 <= k < slots ==> v[k] == amount
  {
    if slots == 0 then [] else [amount] + Full(slots - 1, amount)
  }

  /** With `max * slots` presses there is one distribution: `max` on every slot. This covers
      `combinations(5, 5, 1)`, `combinations(10, 5, 2)` and `combinations(25, 5, 5)`. */
  lemma {:induction false} FullCombinations(slots: nat, maxCount: nat)
    requires maxCount > 0
    ensures Feasible(Capacity(maxCount, slots), slots, maxCount)
    ensures Combinations(Capacity(maxCount, slots), slots, maxCount) == [Full(slots, maxCount)]
  {
    DivCeilBound(Capacity(maxCount, slots), maxCount, slots);
    if slots > 0 {
      FullCombinations(slots - 1, maxCount);
      FullStep(slots, maxCount);
    } else {
      assert Full(slots, maxCount) == Zeros(0);
    }
  }

  /** The numbers of the loops of `combinations(max * slots, slots, max)`: no padding, and
      exactly `max` at the first slot. */
  lemma FullBounds(slots: nat, maxCount: nat)
    requires maxCount > 0 && slots > 0
    ensures Feasible(Capacity(maxCount, slots), slots, maxCount)
    ensures DivCeil(Capacity(maxCount, slots), maxCount) == slots
    ensures Capacity(maxCount, slots) - maxCount == Capacity(maxCount, slots - 1)
    ensures Max(1, Capacity(maxCount, slots) - Min(Capacity(maxCount, slots), Capacity(maxCount, slots - 1))) == maxCount
    ensures Min(Capacity(maxCount, slots), maxCount) == maxCount
  {
    var count := Capacity(maxCount, slots);
    DivCeilBound(count, maxCount, slots);
    DivCeilBound(count, maxCount, slots - 1);
    assert Capacity(maxCount, slots - 1) == count - maxCount;
  }

  /** One more slot in `FullCombinations`. */
  lemma FullStep(slots: nat, maxCount: nat)
    requires maxCount > 0 && slots > 0
    requires Feasible(Capacity(maxCount, slots - 1), slots - 1, maxCount)
    requires Combinations(Capacity(maxCount, slots - 1), slots - 1, maxCount) == [Full(slots - 1, maxCount)]
    ensures Feasible(Capacity(maxCount, slots), slots, maxCount)
    ensures Combinations(Capacity(maxCount, slots), slots, maxCount) == [Full(slots, maxCount)]
  {
    var count := Capacity(maxCount, slots);
    FullBounds(slots, maxCount);
    var sub := Combinations(count - maxCount, slots - 1, maxCount);
    var prefix: seq<nat> := Zeros(0) + [maxCount];
    assert Prefixed(prefix, sub) == [Full(slots, maxCount)] by {
      assert prefix == [maxCount];
      assert prefix + Full(slots - 1, maxCount) == Full(slots, maxCount);
    }
    FullAmounts(slots, maxCount);
    assert Paddings(count, slots, maxCount, 1) == [Full(slots, maxCount)];
  }

  /** The one round of the middle loop in `FullStep`: the amount `max` behind no padding. */
  lemma FullAmounts(slots: nat, maxCount: nat)
    requires maxCount > 0 && slots > 0
    requires Feasible(Capacity(maxCount, slots - 1), slots - 1, maxCount)
    ensures Feasible(Capacity(maxCount, slots), slots, maxCount)
    ensures Capacity(maxCount, slots) > 0 && Max(1, Capacity(maxCount, slots) - Min(Capacity(maxCount, slots), Capacity(maxCount, slots - 1))) == maxCount
    ensures Amounts(Capacity(maxCount, slots), slots, maxCount, 0, maxCount, maxCount + 1)
         == Prefixed(Zeros(0) + [maxCount], Combinations(Capacity(maxCount, slots - 1), slots - 1, maxCount))
  {
    var count := Capacity(maxCount, slots);
    FullBounds(slots, maxCount);
    assert Amounts(count, slots, maxCount, 0, maxCount, maxCount) == [];
  }

  lemma CombinationsOfZero(slots: nat, maxCount: nat)
    ensures Combinations(0, slots, maxCount) == [Full(slots, 0)]
  {
    assert Zeros(slots) == Full(slots, 0);
  }

  /** The examples of the unit tests. */
  lemma CombinationsExampleZero()
    ensures Combinations(0, 5, 1) == [[0, 0, 0, 0, 0]]
  {
    CombinationsOfZero(5, 1);
    assert Full(5, 0) == [0, 0, 0, 0, 0];
  }

  lemma CombinationsExampleOnes()
    ensures Combinations(5, 5, 1) == [[1, 1, 1, 1, 1]]
  {
    FullExample(5, 1, 5, [1, 1, 1, 1, 1]);
  }

  lemma CombinationsExampleTwos()
    ensures Combinations(10, 5, 2) == [[2, 2, 2, 2, 2]]
  {
    FullExample(5, 2, 10, [2, 2, 2, 2, 2]);
  }

  lemma CombinationsExampleFives()
    ensures Combinations(25, 5, 5) == [[5, 5, 5, 5, 5]]
  {
    FullExample(5, 5, 25, [5, 5, 5, 5, 5]);
  }

  /** `FullCombinations` for given numbers. */
  lemma FullExample(slots: nat, maxCount: nat, count: nat, expected: seq<nat>)
    requires maxCount > 0 && count == Capacity(maxCount, slots) && expected == Full(slots, maxCount)
    ensures Feasible(count, slots, maxCount) && Combinations(count, slots, maxCount) == [expected]
  {
    FullCombinations(slots, maxCount);
  }

  // Every distribution is produced

  function FirstNonzero(v: seq<nat>): (i: nat)
    requires Sum(v) > 0
    ensures i < |v| && v[i] > 0 && forall k :: 0 <= k < i ==> v[k] == 0
  {
    if v[0] > 0 then 0 else 1 + FirstNonzero(v[1..])
  }

  lemma {:induction false} SumBound(w: seq<nat>, bound: nat)
    requires forall k :: 0 <= k < |w| ==> w[k] <= bound
    ensures Sum(w) <= Capacity(bound, |w|)
  {
    if w != [] {
      SumBound(w[1..], bound);
      assert Capacity(bound, |w|) == bound + Capacity(bound, |w[1..]|);
    }
  }

  lemma {:induction false} EntryBelowSum(w: seq<nat>, k: nat)
    requires k < |w|
    ensures w[k] <= Sum(w)
  {
    if k > 0 {
      EntryBelowSum(w[1..], k - 1);
    }
  }

  lemma {:induction false} SumZero(v: seq<nat>)
    requires Sum(v) == 0
    ensures v == Zeros(|v|)
  {
    if v != [] {
      SumZero(v[1..]);
    }
  }

  lemma InPrefixed(prefix: seq<nat>, sub: seq<seq<nat>>, w: seq<nat>)
    requires w in sub
    ensures prefix + w in Prefixed(prefix, sub)
  {
    var k :| 0 <= k < |sub| && sub[k] == w;
    assert Prefixed(prefix, sub)[k] == prefix + w;
  }

  lemma {:induction false} InAmounts(count: nat, slots: nat, maxCount: nat, padding: nat, from: nat, upto: nat,
                                     current: nat, w: seq<nat>)
    requires count > 0 && maxCount > 0 && padding < slots
    requires from == Max(1, count - Min(count, Capacity(maxCount, slots - padding - 1)))
    requires upto <= Min(count, maxCount) + 1 && from <= current < upto
    requires Feasible(count - current, slots - padding - 1, Min(count, maxCount))
    requires w in Combinations(count - current, slots - padding - 1, Min(count, maxCount))
    ensures Zeros(padding) + [current] + w in Amounts(count, slots, maxCount, padding, from, upto)
    decreases upto
  {
    if current < upto - 1 {
      InAmounts(count, slots, maxCount, padding, from, upto - 1, current, w);
    } else {
      var prefix: seq<nat> := Zeros(padding) + [current];
      InPrefixed(prefix, Combinations(count - current, slots - padding - 1, Min(count, maxCount)), w);
    }
  }

  lemma {:induction false} InPaddings(count: nat, slots: nat, maxCount: nat, upto: nat, padding: nat, v: seq<nat>)
    requires count > 0 && Feasible(count, slots, maxCount) && upto <= slots - DivCeil(count, maxCount) + 1
    requires padding < upto
    requires DivCeil(count, maxCount) >= 1
    requires v in Amounts(count, slots, maxCount, padding, Max(1, count - Min(count, Capacity(maxCount, slots - padding - 1))), Min(count, maxCount) + 1)
    ensures v in Paddings(count, slots, maxCount, upto)
    decreases upto
  {
    if padding < upto - 1 {
      InPaddings(count, slots, maxCount, upto - 1, padding, v);
    }
  }

  /** A distribution is its leading zeros, its first nonzero amount and the rest, which
      the loops of `combinations` allow. */
  lemma Decompose(v: seq<nat>, slots: nat, count: nat, maxCount: nat) returns (padding: nat, current: nat, w: seq<nat>)
    requires count > 0 && maxCount > 0 && Shaped(v, slots, count, maxCount)
    ensures padding < slots && v == Zeros(padding) + [current] + w
    ensures 1 <= current <= Min(count, maxCount)
    ensures current >= count - Min(count, Capacity(maxCount, slots - padding - 1))
    ensures DivCeil(count, maxCount) <= slots - padding
    ensures Shaped(w, slots - padding - 1, count - current, Min(count, maxCount))
  {
    padding := FirstNonzero(v);
    current := v[padding];
    w := v[padding + 1..];
    SplitSums(v, padding);
    SumBound(v[padding..], maxCount);
    DivCeilBound(count, maxCount, slots - padding);
    SumBound(w, maxCount);
    EntryBelowSum(v, padding);
    EntriesBelowSum(w);
  }

  lemma SplitSums(v: seq<nat>, padding: nat)
    requires padding < |v| && forall k :: 0 <= k < padding ==> v[k] == 0
    ensures v == Zeros(padding) + [v[padding]] + v[padding + 1..]
    ensures v[padding..] == [v[padding]] + v[padding + 1..]
    ensures Sum(v) == Sum(v[padding..]) == v[padding] + Sum(v[padding + 1..])
  {
    var current := v[padding];
    var w := v[padding + 1..];
    assert v == Zeros(padding) + [current] + w;
    SumConcat(Zeros(padding), [current]);
    SumConcat(Zeros(padding) + [current], w);
    assert Sum([current]) == current;
    assert v[padding..] == [current] + w;
    SumConcat([current], w);
  }

  lemma EntriesBelowSum(w: seq<nat>)
    ensures forall k :: 0 <= k < |w| ==> w[k] <= Sum(w)
  {
    forall k | 0 <= k < |w|
      ensures w[k] <= Sum(w)
    {
      EntryBelowSum(w, k);
    }
  }

  /** Every distribution of `count` presses over `slots` buttons, at most `max_count` each,
      is among `combinations(count, slots, max_count)`. */
  lemma {:induction false} CombinationsComplete(count: nat, slots: nat, maxCount: nat, v: seq<nat>)
    requires Feasible(count, slots, maxCount) && Shaped(v, slots, count, maxCount)
    ensures v in Combinations(count, slots, maxCount)
    decreases count
  {
    if count == 0 {
      SumZero(v);
    } else {
      var padding, current, w := Decompose(v, slots, count, maxCount);
      FeasibleRest(count, maxCount, slots - padding - 1, current);
      CombinationsComplete(count - current, slots - padding - 1, Min(count, maxCount), w);
      CompleteStep(count, slots, maxCount, v, padding, current, w);
    }
  }

  /** A distribution whose rest is among the combinations for the rest is among the
      combinations. */
  lemma CompleteStep(count: nat, slots: nat, maxCount: nat, v: seq<nat>, padding: nat, current: nat, w: seq<nat>)
    requires count > 0 && Feasible(count, slots, maxCount)
    requires padding < slots && v == Zeros(padding) + [current] + w
    requires 1 <= current <= Min(count, maxCount)
    requires current >= count - Min(count, Capacity(maxCount, slots - padding - 1))
    requires DivCeil(count, maxCount) <= slots - padding
    requires Feasible(count - current, slots - padding - 1, Min(count, maxCount))
    requires w in Combinations(count - current, slots - padding - 1, Min(count, maxCount))
    ensures v in Combinations(count, slots, maxCount)
  {
    var from := Max(1, count - Min(count, Capacity(maxCount, slots - padding - 1)));
    InAmounts(count, slots, maxCount, padding, from, Min(count, maxCount) + 1, current, w);
    AmountsInCombinations(count, slots, maxCount, padding, v);
  }

  /** A distribution among the amounts of an allowed padding is among the combinations. */
  lemma AmountsInCombinations(count: nat, slots: nat, maxCount: nat, padding: nat, v: seq<nat>)
    requires count > 0 && Feasible(count, slots, maxCount)
    requires padding < slots && DivCeil(count, maxCount) <= slots - padding
    requires v in Amounts(count, slots, maxCount, padding, Max(1, count - Min(count, Capacity(maxCount, slots - padding - 1))), Min(count, maxCount) + 1)
    ensures v in Combinations(count, slots, maxCount)
  {
    DivCeilBound(count, maxCount, 0);
    var upto := slots - DivCeil(count, maxCount) + 1;
    InPaddings(count, slots, maxCount, upto, padding, v);
    assert Combinations(count, slots, maxCount) == Paddings(count, slots, maxCount, upto);
  }

  /** `combinations`, with its loops. The final size check cannot fire. */
  method ComputeCombinations(count: nat, slots: nat, maxCount: nat) returns (result: seq<seq<nat>>)
    requires Feasible(count, slots, maxCount)
    ensures result == Combinations(count, slots, maxCount)
    decreases count, 2
  {
    result := [];
    if count == 0 {
      result := result + [Zeros(slots)];
    } else {
      DivCeilBound(count, maxCount, 0);
      var maxPadding := slots - DivCeil(count, maxCount);
      for padding := 0 to maxPadding + 1
        invariant result == Paddings(count, slots, maxCount, padding)
      {
        var amounts := AmountsLoop(count, slots, maxCount, padding);
        result := result + amounts;
      }
    }
    assert AllShaped(result, slots, count, maxCount);
  }

  /** The loop over the first nonzero amount, for one padding. */
  method AmountsLoop(count: nat, slots: nat, maxCount: nat, padding: nat) returns (result: seq<seq<nat>>)
    requires count > 0 && maxCount > 0 && DivCeil(count, maxCount) <= slots - padding
    ensures result == Amounts(count, slots, maxCount, padding, Max(1, count - Min(count, Capacity(maxCount, slots - padding - 1))), Min(count, maxCount) + 1)
    decreases count, 1
  {
    result := [];
    AmountsRange(count, maxCount, slots - padding - 1);
    var minCount := Max(1, count - Min(count, Capacity(maxCount, slots - padding - 1)));
    var maxHere := Min(count, maxCount);
    var currentCount := minCount;
    while currentCount <= maxHere
      invariant minCount <= currentCount <= maxHere + 1
      invariant result == Amounts(count, slots, maxCount, padding, minCount, currentCount)
      decreases maxHere + 1 - currentCount
    {
      result := AmountStep(count, slots, maxCount, padding, minCount, currentCount, result);
      currentCount := currentCount + 1;
    }
  }

  /** A feasible split leaves at least one amount for the first nonzero slot. */
  lemma AmountsRange(count: nat, maxCount: nat, rest: nat)
    requires count > 0 && maxCount > 0 && DivCeil(count, maxCount) <= rest + 1
    ensures Max(1, count - Min(count, Capacity(maxCount, rest))) <= Min(count, maxCount)
  {
    DivCeilBound(count, maxCount, rest + 1);
    assert Capacity(maxCount, rest + 1) == Capacity(maxCount, rest) + maxCount;
  }

  /** One round of the inner loop: the combinations with `current` at the first nonzero
      slot pushed behind those with smaller amounts. */
  method AmountStep(count: nat, slots: nat, maxCount: nat, padding: nat, from: nat, current: nat,
                    result0: seq<seq<nat>>)
    returns (result: seq<seq<nat>>)
    requires count > 0 && maxCount > 0 && padding < slots
    requires from == Max(1, count - Min(count, Capacity(maxCount, slots - padding - 1)))
    requires from <= current <= Min(count, maxCount)
    requires result0 == Amounts(count, slots, maxCount, padding, from, current)
    ensures result == Amounts(count, slots, maxCount, padding, from, current + 1)
    decreases count, 0
  {
    var localPattern: seq<nat> := Zeros(padding) + [current];
    FeasibleRest(count, maxCount, slots - padding - 1, current);
    var subs := ComputeCombinations(count - current, slots - padding - 1, Min(count, maxCount));
    AmountsNext(count, slots, maxCount, padding, from, current, subs);
    result := PushPrefixed(result0, localPattern, subs);
  }

  /** `Amounts` grows by the combinations for one more amount. */
  lemma AmountsNext(count: nat, slots: nat, maxCount: nat, padding: nat, from: nat, current: nat, subs: seq<seq<nat>>)
    requires count > 0 && maxCount > 0 && padding < slots
    requires from == Max(1, count - Min(count, Capacity(maxCount, slots - padding - 1)))
    requires from <= current <= Min(count, maxCount)
    requires Feasible(count - current, slots - padding - 1, Min(count, maxCount))
    requires subs == Combinations(count - current, slots - padding - 1, Min(count, maxCount))
    ensures Amounts(count, slots, maxCount, padding, from, current + 1)
      == Amounts(count, slots, maxCount, padding, from, current) + Prefixed(Zeros(padding) + [current], subs)
  {
  }

  /** The loop pushing `sub_pattern` for every combination of the rest. */
  method PushPrefixed(result0: seq<seq<nat>>, prefix: seq<nat>, subs: seq<seq<nat>>) returns (result: seq<seq<nat>>)
    ensures result == result0 + Prefixed(prefix, subs)
  {
    result := result0;
    for k := 0 to |subs|
      invariant result == result0 + Prefixed(prefix, subs[..k])
    {
      assert subs[..k + 1][..k] == subs[..k];
      result := result + [prefix + subs[k]];
    }
    assert subs[..|subs|] == subs;
  }

  // ---------------------------------------------------------------------------
  // The fewest buttons for the light pattern

  /** How often light `i` is toggled by the first `k` buttons whose entry is nonzero. */
  function Toggles(buttons: seq<Button>, combination: seq<nat>, k: nat, i: int): nat
    requires k <= |combination| <= |buttons|
  {
    if k == 0 then 0
    else Toggles(buttons, combination, k - 1, i) + (if combination[k - 1] > 0 then Count(buttons[k - 1].connectedLights, i) else 0)
  }

  /** The lights after pressing, in index order, each of the first `k` buttons whose entry in
      `combination` is nonzero, starting from `start`; `None` if one of those buttons lists a
      light past the end. A light ends up changed exactly when it was toggled an odd number of
      times, so the order of the presses does not matter. */
  function Pressed(start: seq<bool>, buttons: seq<Button>, combination: seq<nat>, k: nat): (r: Option<seq<bool>>)
    requires k <= |combination| <= |buttons|
    ensures r.Some? <==> forall j :: 0 <= j < k && combination[j] > 0 ==> InRange(buttons[j].connectedLights, |start|)
    ensures r.Some? ==> (|r.value| == |start|
      && forall i :: 0 <= i < |start| ==> r.value[i] == (start[i] != Odd(Toggles(buttons, combination, k, i))))
  {
    if k == 0 then Some(start)
    else
      match Pressed(start, buttons, combination, k - 1)
      case None => None
      case Some(p) =>
        if combination[k - 1] > 0 then
          var lights := buttons[k - 1].connectedLights;
          var r := Toggled(p, lights);
          assert r.Some? ==> forall i :: 0 <= i < |start| ==> r.value[i] == (start[i] != Odd(Toggles(buttons, combination, k, i))) by {
            if r.Some? {
              forall i | 0 <= i < |start|
                ensures r.value[i] == (start[i] != Odd(Toggles(buttons, combination, k, i)))
              {
                OddSum(Toggles(buttons, combination, k - 1, i), Count(lights, i));
              }
            }
          }
          r
        else Some(p)
  }

  lemma OddSum(a: nat, b: nat)
    ensures Odd(a + b) <==> Odd(a) != Odd(b)
  {
  }

  /** The lights a combination turns on, starting from all off. */
  function Lit(m: Machine, combination: seq<nat>): (r: Option<seq<bool>>)
    requires |combination| <= |m.buttons|
  {
    Pressed(AllOff(|m.pattern|), m.buttons, combination, |combination|)
  }

  /** Every button lists only lights the machine has. */
  predicate Safe(m: Machine) {
    forall j :: 0 <= j < |m.buttons| ==> InRange(m.buttons[j].connectedLights, |m.pattern|)
  }

  /** Some choice of `k` distinct buttons turns all-off lights into the target. */
  ghost predicate Solvable(m: Machine, k: nat) {
    exists v :: Shaped(v, |m.buttons|, k, 1) && Lit(m, v) == Some(m.pattern)
  }

  datatype SearchError = NoSuitablePattern | LightOutOfRange

  /** The combinations tried in order: the first whose lights equal the target (`==` is
      `LightPattern::eq`) ends the search; a button past the end of the lights panics. */
  function Matches(m: Machine, combos: seq<seq<nat>>): (r: Option<bool>)
    requires forall j :: 0 <= j < |combos| ==> |combos[j]| == |m.buttons|
    ensures r == Some(true) ==> exists j :: 0 <= j < |combos| && Lit(m, combos[j]) == Some(m.pattern)
    ensures r == Some(false) ==> forall j :: 0 <= j < |combos| ==> Lit(m, combos[j]).Some? && Lit(m, combos[j]) != Some(m.pattern)
    ensures r.None? ==> exists j :: 0 <= j < |combos| && Lit(m, combos[j]).None?
  {
    if combos == [] then Some(false)
    else
      var rest := Matches(m, combos[1..]);
      assert forall j :: 1 <= j < |combos| ==> combos[1..][j - 1] == combos[j];
      match Lit(m, combos[0])
      case None => None
      case Some(p) => if SamePattern(p, m.pattern) then Some(true) else rest
  }

  /** One round of the outer loop: every way of pressing `k` distinct buttons. */
  function Attempt(m: Machine, k: nat): Option<bool>
    requires k <= |m.buttons|
  {
    FeasibleOne(k, |m.buttons|);
    Matches(m, Combinations(k, |m.buttons|, 1))
  }

  /** The outer loop from `k` up to (not including) `bound`: the first round that matches
      ends it, a round that panics ends it with that panic. */
  function FirstFound(attempt: nat --> Option<bool>, k: nat, bound: nat): (r: Result<nat, SearchError>)
    requires forall j :: k <= j < bound ==> attempt.requires(j)
    decreases bound - k
  {
    if k >= bound then Err(NoSuitablePattern)
    else
      match attempt(k)
      case None => Err(LightOutOfRange)
      case Some(found) => if found then Ok(k) else FirstFound(attempt, k + 1, bound)
  }

  /** The rounds of a machine, by number of distinct buttons pressed. */
  function Rounds(m: Machine): nat --> Option<bool> {
    (k: nat) requires k <= |m.buttons| => Attempt(m, k)
  }

  /** A round decides whether `k` distinct buttons suffice; it panics only on a button that
      lists a light past the end. */
  lemma AttemptSolvable(m: Machine, k: nat)
    requires k <= |m.buttons|
    ensures Rounds(m)(k) == Some(true) ==> Solvable(m, k)
    ensures Rounds(m)(k) == Some(false) ==> !Solvable(m, k)
    ensures Rounds(m)(k).None? ==> !Safe(m)
  {
    assert Rounds(m)(k) == Attempt(m, k);
    FeasibleOne(k, |m.buttons|);
    var combos := Combinations(k, |m.buttons|, 1);
    match Matches(m, combos)
    case Some(found) =>
      if found {
        MatchFound(m, k, combos);
      } else {
        NoMatch(m, k, combos);
      }
    case None =>
      MatchOutOfRange(m, combos);
  }

  lemma MatchFound(m: Machine, k: nat, combos: seq<seq<nat>>)
    requires AllShaped(combos, |m.buttons|, k, 1)
    requires Matches(m, combos) == Some(true)
    ensures Solvable(m, k)
  {
    var j :| 0 <= j < |combos| && Lit(m, combos[j]) == Some(m.pattern);
    assert Shaped(combos[j], |m.buttons|, k, 1);
  }

  lemma NoMatch(m: Machine, k: nat, combos: seq<seq<nat>>)
    requires Feasible(k, |m.buttons|, 1) && combos == Combinations(k, |m.buttons|, 1)
    requires Matches(m, combos) == Some(false)
    ensures !Solvable(m, k)
  {
    if Solvable(m, k) {
      var v :| Shaped(v, |m.buttons|, k, 1) && Lit(m, v) == Some(m.pattern);
      CombinationsComplete(k, |m.buttons|, 1, v);
    }
  }

  lemma MatchOutOfRange(m: Machine, combos: seq<seq<nat>>)
    requires forall j :: 0 <= j < |combos| ==> |combos[j]| == |m.buttons|
    requires Matches(m, combos).None?
    ensures !Safe(m)
  {
    var j :| 0 <= j < |combos| && Lit(m, combos[j]).None?;
    var v := combos[j];
    assert !forall i :: 0 <= i < |v| && v[i] > 0 ==> InRange(m.buttons[i].connectedLights, |AllOff(|m.pattern|)|);
    var i :| 0 <= i < |v| && v[i] > 0 && !InRange(m.buttons[i].connectedLights, |m.pattern|);
  }

  /** A count the search from `k` returns is one whose round matched, after rounds from `k`
      that did not. */
  lemma {:induction false} FirstFoundIsFirst(attempt: nat --> Option<bool>, k: nat, bound: nat)
    requires forall j :: k <= j < bound ==> attempt.requires(j)
    requires FirstFound(attempt, k, bound).Ok?
    ensures k <= FirstFound(attempt, k, bound).value < bound
    ensures attempt(FirstFound(attempt, k, bound).value) == Some(true)
    ensures forall j :: k <= j < FirstFound(attempt, k, bound).value ==> attempt(j) == Some(false)
    decreases bound - k
  {
    if attempt(k) == Some(false) {
      FirstFoundIsFirst(attempt, k + 1, bound);
    }
  }

  /** A search from `k` that finds nothing went through every round below `bound`. */
  lemma {:induction false} FirstFoundExhausted(attempt: nat --> Option<bool>, k: nat, bound: nat)
    requires forall j :: k <= j < bound ==> attempt.requires(j)
    requires FirstFound(attempt, k, bound) == Err(NoSuitablePattern)
    ensures forall j :: k <= j < bound ==> attempt(j) == Some(false)
    decreases bound - k
  {
    if k < bound {
      FirstFoundExhausted(attempt, k + 1, bound);
    }
  }

  /** The search panics only in a round that does. */
  lemma {:induction false} FirstFoundPanics(attempt: nat --> Option<bool>, k: nat, bound: nat)
    requires forall j :: k <= j < bound ==> attempt.requires(j)
    requires FirstFound(attempt, k, bound) == Err(LightOutOfRange)
    ensures exists j :: k <= j < bound && attempt(j).None?
    decreases bound - k
  {
    if attempt(k) == Some(false) {
      FirstFoundPanics(attempt, k + 1, bound);
    }
  }

  /** `find_minimal_button_presses_for_pattern` as written: `1..button_count` stops before the
      count that presses every button. */
  function FindMinimalAsWritten(m: Machine): (r: Result<nat, SearchError>) {
    FirstFound(Rounds(m), 1, |m.buttons|)
  }

  /** `find_minimal_button_presses_for_pattern` over `1..=button_count`. */
  function FindMinimal(m: Machine): (r: Result<nat, SearchError>) {
    FirstFound(Rounds(m), 1, |m.buttons| + 1)
  }

  /** The search as written answers only with solvable counts, each the least. */
  lemma AsWrittenLeast(m: Machine)
    ensures FindMinimalAsWritten(m).Ok? ==> (1 <= FindMinimalAsWritten(m).value < |m.buttons|
      && Solvable(m, FindMinimalAsWritten(m).value)
      && forall j :: 1 <= j < FindMinimalAsWritten(m).value ==> !Solvable(m, j))
  {
    var r := FindMinimalAsWritten(m);
    if r.Ok? {
      FirstFoundIsFirst(Rounds(m), 1, |m.buttons|);
      AttemptSolvable(m, r.value);
      forall j | 1 <= j < r.value
        ensures !Solvable(m, j)
      {
        AttemptSolvable(m, j);
      }
    }
  }

  /** The corrected search returns the least number of distinct buttons that turn all-off
      lights into the target; it fails only when no number of buttons works, or when a button
      lists a light past the end. */
  lemma FindMinimalLeast(m: Machine)
    ensures FindMinimal(m).Ok? ==> (1 <= FindMinimal(m).value <= |m.buttons|
      && Solvable(m, FindMinimal(m).value)
      && forall j :: 1 <= j < FindMinimal(m).value ==> !Solvable(m, j))
    ensures FindMinimal(m) == Err(NoSuitablePattern) ==> forall j :: 1 <= j <= |m.buttons| ==> !Solvable(m, j)
    ensures FindMinimal(m) == Err(LightOutOfRange) ==> !Safe(m)
  {
    var n := |m.buttons|;
    match FindMinimal(m)
    case Ok(k) =>
      FirstFoundIsFirst(Rounds(m), 1, n + 1);
      AttemptSolvable(m, k);
      forall j | 1 <= j < k
        ensures !Solvable(m, j)
      {
        AttemptSolvable(m, j);
      }
    case Err(NoSuitablePattern) =>
      FirstFoundExhausted(Rounds(m), 1, n + 1);
      forall j | 1 <= j <= n
        ensures !Solvable(m, j)
      {
        AttemptSolvable(m, j);
      }
    case Err(LightOutOfRange) =>
      FirstFoundPanics(Rounds(m), 1, n + 1);
      var j :| 1 <= j < n + 1 && Rounds(m)(j).None?;
      AttemptSolvable(m, j);
  }

  /** Searching more rounds changes nothing once a round has answered or panicked. */
  lemma {:induction false} FirstFoundLonger(attempt: nat --> Option<bool>, k: nat, bound: nat, bound': nat)
    requires bound <= bound' && forall j :: k <= j < bound' ==> attempt.requires(j)
    requires FirstFound(attempt, k, bound) != Err(NoSuitablePattern)
    ensures FirstFound(attempt, k, bound') == FirstFound(attempt, k, bound)
    decreases bound - k
  {
    if attempt(k) == Some(false) {
      FirstFoundLonger(attempt, k + 1, bound, bound');
    }
  }

  /** The search as written and the corrected one differ only where the written one finds
      nothing: every answer and every panic of the written search is the corrected one's. */
  lemma AsWrittenAgreesWhenFound(m: Machine)
    ensures FindMinimalAsWritten(m) != Err(NoSuitablePattern) ==> FindMinimal(m) == FindMinimalAsWritten(m)
  {
    if FindMinimalAsWritten(m) != Err(NoSuitablePattern) {
      FirstFoundLonger(Rounds(m), 1, |m.buttons|, |m.buttons| + 1);
    }
  }

  /** One light and one button for it, the machine of the line `[#] (0) {0}`: pressing that
      button is the answer, but the loop as written never tries pressing all (here: the one)
      buttons. */
  lemma AllButtonsMissed()
    ensures FindMinimalAsWritten(Machine([true], [Button([0])], [0])) == Err(NoSuitablePattern)
    ensures FindMinimal(Machine([true], [Button([0])], [0])) == Ok(1)
  {
    var m := Machine([true], [Button([0])], [0]);
    FullCombinations(1, 1);
    assert Full(1, 1) == [1];
    OneButtonLit();
    assert Matches(m, [[1]]) == Some(true);
    assert FirstFound(Rounds(m), 2, 2) == Err(NoSuitablePattern);
  }

  lemma OneButtonLit()
    ensures Lit(Machine([true], [Button([0])], [0]), [1]) == Some([true])
  {
    var m := Machine([true], [Button([0])], [0]);
    assert AllOff(1) == [false];
    assert [0][..0] == [];
    assert Count([0], 0) == 1;
    assert InRange([0], 1);
    var lit := Toggled([false], [0]).value;
    assert |lit| == 1 && lit[0];
    assert lit == [true];
    assert Pressed([false], m.buttons, [1], 0) == Some([false]);
  }

  // ---------------------------------------------------------------------------
  // The search with its loops

  /** The innermost loop: a fresh all-off pattern, then each button whose entry is nonzero in
      index order; `None` where indexing the lights panics. */
  method PressCombination(m: Machine, combination: seq<nat>) returns (r: Option<seq<bool>>)
    requires |combination| <= |m.buttons|
    ensures r == Lit(m, combination)
  {
    var pattern := new LightPattern.FromLen(|m.pattern|);
    for i := 0 to |combination|
      invariant Pressed(AllOff(|m.pattern|), m.buttons, combination, i) == Some(pattern.pattern)
    {
      if combination[i] > 0 {
        if !InRange(m.buttons[i].connectedLights, pattern.Len()) {
          return None;
        }
        pattern.ApplyButton(m.buttons[i]);
      }
    }
    return Some(pattern.pattern);
  }

  /** The loop over the combinations of one round, with its early return. */
  /** The combinations from `j` on: the one at `j` decides unless its lights miss the target. */
  lemma MatchesStep(m: Machine, combos: seq<seq<nat>>, j: nat)
    requires j < |combos| && forall k :: 0 <= k < |combos| ==> |combos[k]| == |m.buttons|
    ensures Matches(m, combos[j..])
         == match Lit(m, combos[j])
            case None => None
            case Some(p) => if SamePattern(p, m.pattern) then Some(true) else Matches(m, combos[j + 1..])
  {
    assert combos[j..][0] == combos[j];
    assert combos[j..][1..] == combos[j + 1..];
  }

  method TryCombinations(m: Machine, combos: seq<seq<nat>>) returns (r: Option<bool>)
    requires forall j :: 0 <= j < |combos| ==> |combos[j]| == |m.buttons|
    ensures r == Matches(m, combos)
  {
    for j := 0 to |combos|
      invariant Matches(m, combos) == Matches(m, combos[j..])
    {
      MatchesStep(m, combos, j);
      var lit := PressCombination(m, combos[j]);
      match lit
      case None =>
        return None;
      case Some(p) =>
        if SamePattern(p, m.pattern) {
          return Some(true);
        }
    }
    assert combos[|combos|..] == [];
    return Some(false);
  }

  /** `find_minimal_button_presses_for_pattern` as written, over `1..button_count`. */
  method FindMinimalPresses(m: Machine) returns (r: Result<nat, SearchError>)
    ensures r == FindMinimalAsWritten(m)
  {
    var buttonCount := |m.buttons|;
    var availableButtons := 1;
    while availableButtons < buttonCount
      invariant 1 <= availableButtons
      invariant FindMinimalAsWritten(m) == FirstFound(Rounds(m), availableButtons, buttonCount)
    {
      FeasibleOne(availableButtons, buttonCount);
      var combos := ComputeCombinations(availableButtons, buttonCount, 1);
      assert Rounds(m)(availableButtons) == Matches(m, combos);
      var found := TryCombinations(m, combos);
      if found.None? {
        return Err(LightOutOfRange);
      }
      if found.value {
        return Ok(availableButtons);
      }
      availableButtons := availableButtons + 1;
    }
    return Err(NoSuitablePattern);
  }

  // ---------------------------------------------------------------------------
  // The puzzle answers

  /** Part 1: the answers summed in order; the first machine without an answer panics. */
  function Total(answers: seq<Result<nat, SearchError>>): Result<nat, SearchError> {
    if answers == [] then Ok(0)
    else
      var n := |answers|;
      match Total(answers[..n - 1])
      case Err(e) => Err(e)
      case Ok(total) =>
        match answers[n - 1]
        case Err(e) => Err(e)
        case Ok(k) => Ok(total + k)
  }

  /** The values of answers that are all present. */
  function Values(answers: seq<Result<nat, SearchError>>): (values: seq<nat>)
    requires forall i :: 0 <= i < |answers| ==> answers[i].Ok?
    ensures |values| == |answers| && forall i :: 0 <= i < |answers| ==> values[i] == answers[i].value
  {
    if answers == [] then [] else Values(answers[..|answers| - 1]) + [answers[|answers| - 1].value]
  }

  /** The total is present exactly when every answer is. */
  lemma {:induction false} TotalPresent(answers: seq<Result<nat, SearchError>>)
    ensures Total(answers).Ok? <==> forall i :: 0 <= i < |answers| ==> answers[i].Ok?
  {
    if answers != [] {
      var n := |answers|;
      var init := answers[..n - 1];
      TotalPresent(init);
      assert forall i :: 0 <= i < n - 1 ==> init[i] == answers[i];
    }
  }

  /** A present total is the sum of the answers. */
  lemma {:induction false} TotalSum(answers: seq<Result<nat, SearchError>>)
    requires forall i :: 0 <= i < |answers| ==> answers[i].Ok?
    ensures Total(answers) == Ok(SumBackward(Values(answers)))
  {
    if answers != [] {
      var n := |answers|;
      var init := answers[..n - 1];
      assert forall i :: 0 <= i < n - 1 ==> init[i] == answers[i];
      TotalSum(init);
      var v := Values(answers);
      assert v == Values(init) + [answers[n - 1].value];
      assert v[..n - 1] == Values(init);
      assert SumBackward(v) == SumBackward(Values(init)) + answers[n - 1].value;
    }
  }

  /** A missing total carries the error of the first missing answer. */
  lemma {:induction false} TotalFirstError(answers: seq<Result<nat, SearchError>>)
    requires Total(answers).Err?
    ensures exists i :: 0 <= i < |answers| && answers[i] == Err(Total(answers).error) && forall j :: 0 <= j < i ==> answers[j].Ok?
  {
    var n := |answers|;
    var init := answers[..n - 1];
    assert forall i :: 0 <= i < n - 1 ==> init[i] == answers[i];
    match Total(init)
    case Err(e) =>
      TotalFirstError(init);
      var i :| 0 <= i < |init| && init[i] == Err(e) && forall j :: 0 <= j < i ==> init[j].Ok?;
      assert answers[i] == Err(Total(answers).error);
    case Ok(_) =>
      TotalPresent(init);
      assert answers[n - 1] == Err(Total(answers).error);
  }

  /** The sum, last entry first. */
  function SumBackward(v: seq<nat>): nat {
    if v == [] then 0 else SumBackward(v[..|v| - 1]) + v[|v| - 1]
  }

  /** The answer of `find` for each machine, in order. */
  function Answers(find: Machine -> Result<nat, SearchError>, machines: seq<Machine>): (answers: seq<Result<nat, SearchError>>)
    ensures |answers| == |machines|
  {
    if machines == [] then [] else Answers(find, machines[..|machines| - 1]) + [find(machines[|machines| - 1])]
  }

  datatype EvalError = BadMachine(machine: MachineError) | NoAnswer(search: SearchError)

  /** `main` on the text of the input: part 1 sums the answers of the search as written, so
      a machine whose only answer presses every button panics; part 2 is always 0, as
      `find_minimal_button_presses_for_joltage` returns 0 after an elimination with an empty
      body. */
  function Evaluate(input: string): Result<(nat, nat), EvalError> {
    match ParseMachines(Text.Lines(input))
    case Err(e) => Err(BadMachine(e))
    case Ok(machines) =>
      match Total(Answers(FindMinimalAsWritten, machines))
      case Err(e) => Err(NoAnswer(e))
      case Ok(total) => Ok((total, 0))
  }

  method Main10(input: string) returns (result: Result<(nat, nat), EvalError>)
    ensures result == Evaluate(input)
  {
    var parsed := ParseMachines(Text.Lines(input));
    if parsed.Err? {
      return Err(BadMachine(parsed.error));
    }
    var buttonPresses := PressesForAll(parsed.value);
    var joltagePresses: nat := 0;
    if buttonPresses.Err? {
      return Err(NoAnswer(buttonPresses.error));
    }
    return Ok((buttonPresses.value, joltagePresses));
  }

  /** The loop of `main` over the machines, for part 1. */
  method PressesForAll(machines: seq<Machine>) returns (total: Result<nat, SearchError>)
    ensures total == Total(Answers(FindMinimalAsWritten, machines))
  {
    var buttonPresses: nat := 0;
    for i := 0 to |machines|
      invariant Running(FindMinimalAsWritten, machines, i) == Ok(buttonPresses)
    {
      var presses, sum := NextAnswer(machines, i, buttonPresses);
      if presses.Err? {
        return Err(presses.error);
      }
      buttonPresses := sum;
    }
    RunningIsTotal(FindMinimalAsWritten, machines);
    return Ok(buttonPresses);
  }

  /** One turn of the loop: the search for the next machine, its presses added to the total
      so far. */
  method NextAnswer(machines: seq<Machine>, i: nat, sum0: nat) returns (presses: Result<nat, SearchError>, sum: nat)
    requires i < |machines| && Running(FindMinimalAsWritten, machines, i) == Ok(sum0)
    ensures presses.Ok? ==> sum == sum0 + presses.value && Running(FindMinimalAsWritten, machines, i + 1) == Ok(sum)
    ensures presses.Err? ==> Total(Answers(FindMinimalAsWritten, machines)) == presses
  {
    presses := FindMinimalPresses(machines[i]);
    sum := if presses.Ok? then sum0 + presses.value else sum0;
    RunningNext(FindMinimalAsWritten, machines, i, sum0, presses, sum);
  }

  /** The total of the loop over the first `i` machines: their answers added in order, or the
      first missing one. */
  function Running(find: Machine -> Result<nat, SearchError>, machines: seq<Machine>, i: nat): Result<nat, SearchError>
    requires i <= |machines|
  {
    if i == 0 then Ok(0)
    else
      match Running(find, machines, i - 1)
      case Err(e) => Err(e)
      case Ok(sum) =>
        match find(machines[i - 1])
        case Err(e) => Err(e)
        case Ok(k) => Ok(sum + k)
  }

  /** One more machine: its answer is added, or a missing answer is the total's error. */
  lemma RunningNext(find: Machine -> Result<nat, SearchError>, machines: seq<Machine>, i: nat, sum: nat,
                    next: Result<nat, SearchError>, sum': nat)
    requires i < |machines| && Running(find, machines, i) == Ok(sum) && next == find(machines[i])
    requires next.Ok? ==> sum' == sum + next.value
    ensures next.Ok? ==> Running(find, machines, i + 1) == Ok(sum')
    ensures next.Err? ==> Total(Answers(find, machines)) == next
  {
    if next.Err? {
      RunningErrorSticks(find, machines, i + 1, |machines|);
      RunningIsTotal(find, machines);
    }
  }

  /** Once a machine has no answer, the running total stays that error. */
  lemma {:induction false} RunningErrorSticks(find: Machine -> Result<nat, SearchError>, machines: seq<Machine>, i: nat, j: nat)
    requires i <= j <= |machines| && Running(find, machines, i).Err?
    ensures Running(find, machines, j) == Running(find, machines, i)
    decreases j
  {
    if j > i {
      RunningErrorSticks(find, machines, i, j - 1);
    }
  }

  /** The running total over all machines is the total of their answers. */
  lemma RunningIsTotal(find: Machine -> Result<nat, SearchError>, machines: seq<Machine>)
    ensures Running(find, machines, |machines|) == Total(Answers(find, machines))
  {
    RunningPrefix(find, machines, |machines|);
    assert machines[..|machines|] == machines;
  }

  lemma {:induction false} RunningPrefix(find: Machine -> Result<nat, SearchError>, machines: seq<Machine>, i: nat)
    requires i <= |machines|
    ensures Running(find, machines, i) == Total(Answers(find, machines[..i]))
  {
    if i > 0 {
      RunningPrefix(find, machines, i - 1);
      var pre := machines[..i - 1];
      assert Answers(find, machines[..i]) == Answers(find, pre) + [find(machines[i - 1])] by {
        assert machines[..i][..i - 1] == pre;
      }
      TotalSnoc(Answers(find, pre), find(machines[i - 1]));
    }
  }

  /** The total of one more answer. */
  lemma TotalSnoc(answers: seq<Result<nat, SearchError>>, next: Result<nat, SearchError>)
    ensures Total(answers + [next]) ==
      match Total(answers)
      case Err(e) => Err(e)
      case Ok(sum) =>
        match next
        case Err(e) => Err(e)
        case Ok(k) => Ok(sum + k)
  {
    assert (answers + [next])[..|answers|] == answers;
  }
}
