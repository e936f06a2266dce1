/** Day 7: a tachyon beam falling through a manifold of splitters; `beams[i]` counts the
    timelines in which a beam is in column `i`. */
module Day07 {
  import opened Wrappers

  datatype BeamError = IndexOutOfBounds

  /** The beams and the number of split events so far. */
  datatype State = State(beams: seq<int>, total: int)

  /** The sum of all entries. */
  function Sum(s: seq<int>): int {
    if s == [] then 0 else Sum(s[..|s| - 1]) + s[|s| - 1]
  }

  /** Changing one entry changes the sum by the difference. */
  lemma {:induction false} SumChange(s: seq<int>, t: seq<int>, j: nat)
    requires |t| == |s| && j < |s|
    requires forall k :: 0 <= k < |s| && k != j ==> t[k] == s[k]
    ensures Sum(t) == Sum(s) - s[j] + t[j]
  {
    var n := |s|;
    if j == n - 1 {
      assert t[..n - 1] == s[..n - 1];
    } else {
      SumChange(s[..n - 1], t[..n - 1], j);
    }
  }

  /** A beam hitting a splitter at `i`: it continues on both sides and stops at `i`. */
  function Split(b: seq<int>, i: nat): (after: seq<int>)
    requires 0 < i && i + 1 < |b|
    ensures |after| == |b| && after[i] == 0
    ensures after[i - 1] == b[i - 1] + b[i] && after[i + 1] == b[i + 1] + b[i]
  {
    b[i - 1 := b[i - 1] + b[i]][i + 1 := b[i + 1] + b[i]][i := 0]
  }

  /** A split adds exactly the split beam to the total of the beams. */
  lemma SplitSum(b: seq<int>, i: nat)
    requires 0 < i && i + 1 < |b|
    ensures Sum(Split(b, i)) == Sum(b) + b[i]
  {
    var b1 := b[i - 1 := b[i - 1] + b[i]];
    var b2 := b1[i + 1 := b[i + 1] + b[i]];
    SumChange(b, b1, i - 1);
    SumChange(b1, b2, i + 1);
    SumChange(b2, Split(b, i), i);
  }

  predicate NonNegative(b: seq<int>) {
    forall j :: 0 <= j < |b| ==> b[j] >= 0
  }

  /** The character at column `i`: `'S'` starts a beam, `'^'` splits a beam that is there;
      an index outside the beams panics. */
  function Cell(s: State, c: char, i: nat): (r: Result<State, BeamError>)
    ensures r.Ok? ==> |r.value.beams| == |s.beams|
    ensures r.Ok? ==> r.value.total == s.total || r.value.total == s.total + 1
  {
    if c == 'S' then
      if i < |s.beams| then Ok(State(s.beams[i := 1], s.total)) else Err(IndexOutOfBounds)
    else if c == '^' then
      if i >= |s.beams| then Err(IndexOutOfBounds)
      else if s.beams[i] == 0 then Ok(s)
      else if i == 0 || i + 1 >= |s.beams| then Err(IndexOutOfBounds)
      else Ok(State(Split(s.beams, i), s.total + 1))
    else Ok(s)
  }

  /** A split is counted exactly when a splitter meets a beam, and then the beams gain the
      split beam; no cell makes a beam negative. */
  lemma CellEffect(s: State, c: char, i: nat)
    requires Cell(s, c, i).Ok?
    ensures var t := Cell(s, c, i).value;
      (t.total == s.total + 1 <==> c == '^' && s.beams[i] != 0)
      && (t.total == s.total + 1 ==> Sum(t.beams) == Sum(s.beams) + s.beams[i])
      && (NonNegative(s.beams) ==> NonNegative(t.beams))
  {
    if c == '^' && s.beams[i] != 0 {
      SplitSum(s.beams, i);
    }
  }

  /** The first `k` characters of a line. */
  function RunLine(s: State, line: string, k: nat): (r: Result<State, BeamError>)
    requires k <= |line|
    ensures r.Ok? ==> |r.value.beams| == |s.beams|
  {
    if k == 0 then Ok(s)
    else
      match RunLine(s, line, k - 1)
      case Err(e) => Err(e)
      case Ok(t) => Cell(t, line[k - 1], k - 1)
  }

  /** The beams made for the first line while there are none: as many zeros as it is long. */
  function Resize(s: State, line: string): (t: State)
    ensures |s.beams| != 0 ==> t == s
    ensures |s.beams| == 0 ==> |t.beams| == |line| && t.total == s.total && forall j :: 0 <= j < |line| ==> t.beams[j] == 0
  {
    if |s.beams| == 0 then State(seq(|line|, _ => 0), s.total) else s
  }

  /** The first `l` lines. */
  function RunLines(lines: seq<string>, l: nat): Result<State, BeamError>
    requires l <= |lines|
  {
    if l == 0 then Ok(State([], 0))
    else
      match RunLines(lines, l - 1)
      case Err(e) => Err(e)
      case Ok(s) => RunLine(Resize(s, lines[l - 1]), lines[l - 1], |lines[l - 1]|)
  }

  /** `part1`: the number of splits and the number of timelines, the sum of the final beams. */
  function Part1Result(lines: seq<string>): Result<(int, int), BeamError> {
    match RunLines(lines, |lines|)
    case Err(e) => Err(e)
    case Ok(s) => Ok((s.total, Sum(s.beams)))
  }

  /** No beam count ever becomes negative, so neither does the number of timelines. */
  lemma {:induction false} RunLineNonNegative(s: State, line: string, k: nat)
    requires k <= |line| && NonNegative(s.beams) && RunLine(s, line, k).Ok?
    ensures NonNegative(RunLine(s, line, k).value.beams)
  {
    if k > 0 {
      RunLineNonNegative(s, line, k - 1);
      CellEffect(RunLine(s, line, k - 1).value, line[k - 1], k - 1);
    }
  }

  lemma {:induction false} RunLinesNonNegative(lines: seq<string>, l: nat)
    requires l <= |lines| && RunLines(lines, l).Ok?
    ensures NonNegative(RunLines(lines, l).value.beams)
  {
    if l > 0 {
      RunLinesNonNegative(lines, l - 1);
      var s := RunLines(lines, l - 1).value;
      RunLineNonNegative(Resize(s, lines[l - 1]), lines[l - 1], |lines[l - 1]|);
    }
  }

  lemma {:induction false} SumNonNegative(b: seq<int>)
    requires NonNegative(b)
    ensures Sum(b) >= 0
  {
    if b != [] {
      SumNonNegative(b[..|b| - 1]);
    }
  }

  /** Both results are non-negative. */
  lemma Part1NonNegative(lines: seq<string>)
    requires Part1Result(lines).Ok?
    ensures Part1Result(lines).value.0 >= 0 && Part1Result(lines).value.1 >= 0
  {
    RunLinesNonNegative(lines, |lines|);
    SumNonNegative(RunLines(lines, |lines|).value.beams);
    RunLinesTotal(lines, |lines|);
  }

  lemma {:induction false} RunLinesTotal(lines: seq<string>, l: nat)
    requires l <= |lines| && RunLines(lines, l).Ok?
    ensures RunLines(lines, l).value.total >= 0
  {
    if l > 0 {
      RunLinesTotal(lines, l - 1);
      var s := RunLines(lines, l - 1).value;
      RunLineTotal(Resize(s, lines[l - 1]), lines[l - 1], |lines[l - 1]|);
    }
  }

  lemma {:induction false} RunLineTotal(s: State, line: string, k: nat)
    requires k <= |line| && RunLine(s, line, k).Ok?
    ensures RunLine(s, line, k).value.total >= s.total
  {
    if k > 0 {
      RunLineTotal(s, line, k - 1);
    }
  }

  /** The cells are taken left to right on the beams as they are: a beam pushed right by a
      splitter splits again at the next splitter of the same line. */
  lemma CascadeExample()
    ensures RunLine(State([0, 1, 0, 0], 0), ".^^.", 4) == Ok(State([1, 1, 0, 1], 2))
  {
    var line := ".^^.";
    assert Cell(State([0, 1, 0, 0], 0), line[0], 0) == Ok(State([0, 1, 0, 0], 0));
    assert Split([0, 1, 0, 0], 1) == [1, 0, 1, 0];
    assert Cell(State([0, 1, 0, 0], 0), line[1], 1) == Ok(State([1, 0, 1, 0], 1));
    assert Split([1, 0, 1, 0], 2) == [1, 1, 0, 1];
    assert Cell(State([1, 0, 1, 0], 1), line[2], 2) == Ok(State([1, 1, 0, 1], 2));
    assert Cell(State([1, 1, 0, 1], 2), line[3], 3) == Ok(State([1, 1, 0, 1], 2));
  }

  /** An error stops the rest of the line. */
  lemma {:induction false} RunLineErrorSticks(s: State, line: string, k: nat)
    requires k <= |line| && RunLine(s, line, k).Err?
    ensures RunLine(s, line, |line|).Err?
    decreases |line| - k
  {
    if k < |line| {
      RunLineErrorSticks(s, line, k + 1);
    }
  }

  /** An error stops the rest of the lines. */
  lemma {:induction false} RunLinesErrorSticks(lines: seq<string>, l: nat)
    requires l <= |lines| && RunLines(lines, l).Err?
    ensures RunLines(lines, |lines|) == Err(IndexOutOfBounds)
    decreases |lines| - l
  {
    if l < |lines| {
      RunLinesErrorSticks(lines, l + 1);
    } else {
      assert RunLines(lines, l).error == IndexOutOfBounds;
    }
  }

  /** `part1`, with `beams` an array updated in place. */
  method Part1(lines: seq<string>) returns (result: Result<(int, int), BeamError>)
    ensures result == Part1Result(lines)
  {
    var total := 0;
    var beams := new int[0];
    assert beams[..] == [];
    for l := 0 to |lines|
      invariant fresh(beams)
      invariant RunLines(lines, l) == Ok(State(beams[..], total))
    {
      var line := lines[l];
      if beams.Length == 0 {
        beams := new int[|line|](_ => 0);
      }
      ghost var start := State(beams[..], total);
      assert start == Resize(RunLines(lines, l).value, line);
      var ok := ProcessLine(beams, line, total);
      if ok.Err? {
        assert RunLines(lines, l + 1) == RunLine(start, line, |line|);
        RunLinesErrorSticks(lines, l + 1);
        return Err(IndexOutOfBounds);
      }
      total := ok.value;
    }
    var timelines := SumArray(beams);
    return Ok((total, timelines));
  }

  /** The characters of one line, left to right, on the beams in place; the new total of splits. */
  method ProcessLine(beams: array<int>, line: string, total0: int) returns (result: Result<int, BeamError>)
    modifies beams
    ensures result.Ok? <==> RunLine(State(old(beams[..]), total0), line, |line|).Ok?
    ensures result.Ok? ==> RunLine(State(old(beams[..]), total0), line, |line|) == Ok(State(beams[..], result.value))
  {
    ghost var start := State(beams[..], total0);
    var total := total0;
    for index := 0 to |line|
      invariant RunLine(start, line, index) == Ok(State(beams[..], total))
    {
      var entry := line[index];
      if entry == 'S' {
        if index >= beams.Length {
          RunLineErrorSticks(start, line, index + 1);
          return Err(IndexOutOfBounds);
        }
        beams[index] := 1;
      }
      if entry == '^' {
        if index >= beams.Length {
          RunLineErrorSticks(start, line, index + 1);
          return Err(IndexOutOfBounds);
        }
        if beams[index] != 0 {
          if index == 0 || index + 1 >= beams.Length {
            RunLineErrorSticks(start, line, index + 1);
            return Err(IndexOutOfBounds);
          }
          SplitAt(beams, index);
          total := total + 1;
        }
      }
    }
    return Ok(total);
  }

  /** The beam at `index` goes on to both neighbours and stops. */
  method SplitAt(beams: array<int>, index: nat)
    requires 0 < index && index + 1 < beams.Length
    modifies beams
    ensures beams[..] == Split(old(beams[..]), index)
  {
    beams[index - 1] := beams[index - 1] + beams[index];
    beams[index + 1] := beams[index + 1] + beams[index];
    beams[index] := 0;
  }

  /** `beams.iter().sum()`. */
  method SumArray(a: array<int>) returns (sum: int)
    ensures sum == Sum(a[..])
  {
    sum := 0;
    for i := 0 to a.Length
      invariant sum == Sum(a[..i])
    {
      assert a[..i + 1][..i] == a[..i];
      sum := sum + a[i];
    }
    assert a[..a.Length] == a[..];
  }
}
