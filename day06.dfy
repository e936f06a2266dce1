/** Day 6: a worksheet of four number rows and a row of operations, one problem per column. */
module Day06 {
  import opened Wrappers
  import opened Decimal
  import Text
  import Seqs

  // ---------------------------------------------------------------------------
  // Number rows

  /** The number a token holds, or nothing when `parse::<i64>` refuses it. */
  function TokenNumber(token: string): (n: seq<int>)
    ensures |n| <= 1
  {
    match Text.ParseInt(token, Text.I64_MIN, Text.I64_MAX)
    case Some(v) => [v]
    case None => []
  }

  /** What `f` makes of each token, one after the other. */
  function Collect<T>(tokens: seq<string>, f: string -> seq<T>): seq<T> {
    if tokens == [] then [] else Collect(tokens[..|tokens| - 1], f) + f(tokens[|tokens| - 1])
  }

  /** Collecting two runs of tokens collects each, one after the other. */
  lemma {:induction false} CollectAppend<T>(a: seq<string>, b: seq<string>, f: string -> seq<T>)
    ensures Collect(a + b, f) == Collect(a, f) + Collect(b, f)
  {
    if b == [] {
      assert a + b == a;
    } else {
      var n := |b|;
      assert (a + b)[..|a + b| - 1] == a + b[..n - 1];
      assert (a + b)[|a + b| - 1] == b[n - 1];
      CollectAppend(a, b[..n - 1], f);
    }
  }

  lemma CollectCons<T>(t: string, rest: seq<string>, f: string -> seq<T>)
    ensures Collect([t] + rest, f) == f(t) + Collect(rest, f)
  {
    CollectAppend([t], rest, f);
    assert [t][..0] == [];
  }

  /** The numbers of the tokens that parse, in order. */
  function Numbers(tokens: seq<string>): seq<int> {
    Collect(tokens, TokenNumber)
  }

  predicate InI64(values: seq<int>) {
    forall i :: 0 <= i < |values| ==> Text.I64_MIN <= values[i] <= Text.I64_MAX
  }

  /** The rendering of each number, in order. */
  function Rendered(values: seq<int>): (tokens: seq<string>)
    ensures |tokens| == |values|
  {
    if values == [] then [] else Rendered(values[..|values| - 1]) + [Text.Render(values[|values| - 1])]
  }

  lemma TokenNumberRendered(v: int)
    requires Text.I64_MIN <= v <= Text.I64_MAX
    ensures TokenNumber(Text.Render(v)) == [v]
  {
    Text.ParseRendered(v, Text.I64_MIN, Text.I64_MAX);
  }

  /** Rendered numbers read back as the numbers. */
  lemma {:induction false} NumbersRendered(values: seq<int>)
    requires InI64(values)
    ensures Numbers(Rendered(values)) == values
  {
    if values != [] {
      var n := |values|;
      var prefix := values[..n - 1];
      assert InI64(prefix) by {
        assert forall i :: 0 <= i < n - 1 ==> prefix[i] == values[i];
      }
      NumbersRendered(prefix);
      var last := Text.Render(values[n - 1]);
      CollectAppend(Rendered(prefix), [last], TokenNumber);
      CollectCons(last, [], TokenNumber);
      TokenNumberRendered(values[n - 1]);
      Seqs.LastSplit(values);
    }
  }

  /** Empty tokens, which runs of spaces make, add no number. */
  lemma NumbersSkipEmpty(a: seq<string>, b: seq<string>)
    ensures Numbers(a + [""] + b) == Numbers(a) + Numbers(b)
  {
    CollectAppend(a + [""], b, TokenNumber);
    CollectAppend(a, [""], TokenNumber);
    CollectCons("", [], TokenNumber);
  }

  /** `convert_to_numbers`: the tokens between single spaces that parse as `i64`, in order. */
  method ConvertToNumbers(line: string) returns (result: seq<int>)
    ensures result == Numbers(Text.Split(line, ' '))
  {
    var entries := Text.Split(line, ' ');
    result := [];
    for i := 0 to |entries|
      invariant result == Numbers(entries[..i])
    {
      assert entries[..i + 1][..i] == entries[..i];
      var number := Text.ParseInt(entries[i], Text.I64_MIN, Text.I64_MAX);
      if number.Some? {
        result := result + [number.value];
      }
    }
    assert entries[..|entries|] == entries;
  }

  /** A one-digit token is its digit. */
  lemma DigitToken(c: char)
    requires IsDigit(c)
    ensures TokenNumber([c]) == [DigitValue(c)]
  {
    Text.ParseDigits([c], Text.I64_MIN, Text.I64_MAX);
    assert [c][..0] == [];
  }

  /** The row of the unit test, `"1 2     3 4"`, split at its spaces, gives `[1, 2, 3, 4]`. */
  lemma NumbersExample(line: string)
    requires line == "1 2     3 4"
    ensures Numbers(Text.Split(line, ' ')) == [1, 2, 3, 4]
  {
    var tokens := ["1", "2", "", "", "", "", "3", "4"];
    ExampleTokens(tokens, line);
    NumbersOfExampleTokens();
  }

  /** The line is its tokens joined by single spaces, so it splits back into them. */
  lemma ExampleTokens(tokens: seq<string>, line: string)
    requires |tokens| >= 1 && forall i :: 0 <= i < |tokens| ==> ' ' !in tokens[i]
    requires Text.Join(tokens, ' ') == line
    ensures Text.Split(line, ' ') == tokens
  {
    Text.SplitJoin(tokens, ' ');
  }

  /** The tokens of the unit test's row give `[1, 2, 3, 4]`. */
  lemma NumbersOfExampleTokens()
    ensures Numbers(["1", "2", "", "", "", "", "3", "4"]) == [1, 2, 3, 4]
  {
    var spaces: seq<string> := ["", "", "", ""];
    DigitPair('1', '2');
    DigitPair('3', '4');
    NoNumbers(spaces);
    assert ["1", "2", "", "", "", "", "3", "4"] == ["1", "2"] + spaces + ["3", "4"];
    CollectAppend(["1", "2"] + spaces, ["3", "4"], TokenNumber);
    CollectAppend(["1", "2"], spaces, TokenNumber);
  }

  lemma DigitPair(c: char, d: char)
    requires IsDigit(c) && IsDigit(d)
    ensures Collect([[c], [d]], TokenNumber) == [DigitValue(c), DigitValue(d)]
  {
    DigitToken(c);
    DigitToken(d);
    CollectCons([d], [], TokenNumber);
    CollectCons([c], [[d]], TokenNumber);
  }

  /** Empty tokens hold no number. */
  lemma {:induction false} NoNumbers(tokens: seq<string>)
    requires forall i :: 0 <= i < |tokens| ==> tokens[i] == ""
    ensures Collect(tokens, TokenNumber) == []
  {
    if tokens != [] {
      var prefix := tokens[..|tokens| - 1];
      assert forall i :: 0 <= i < |prefix| ==> prefix[i] == tokens[i];
      NoNumbers(prefix);
      assert TokenNumber(tokens[|tokens| - 1]) == [];
    }
  }

  // ---------------------------------------------------------------------------
  // The operations row

  datatype MathOperation = Add | Multiply

  datatype WorksheetError = UnknownOperation(token: string) | MissingLine | MissingNumber

  /** `convert_to_operation`: `"+"` and `"*"` in order, empty tokens skipped; the first other
      token stops the reading. */
  function Operations(tokens: seq<string>): Result<seq<MathOperation>, WorksheetError> {
    if tokens == [] then Ok([])
    else
      match Operations(tokens[..|tokens| - 1])
      case Err(e) => Err(e)
      case Ok(ops) =>
        match TokenOperation(tokens[|tokens| - 1])
        case Err(e) => Err(e)
        case Ok(op) => Ok(ops + op)
  }

  /** One token of the operations row: `"+"`, `"*"`, nothing for `""`, an error otherwise. */
  function TokenOperation(token: string): Result<seq<MathOperation>, WorksheetError> {
    if token == "" then Ok([])
    else if token == "+" then Ok([Add])
    else if token == "*" then Ok([Multiply])
    else Err(UnknownOperation(token))
  }

  /** The number of non-empty tokens. */
  function NonEmpty(tokens: seq<string>): nat {
    if tokens == [] then 0 else NonEmpty(tokens[..|tokens| - 1]) + (if tokens[|tokens| - 1] == "" then 0 else 1)
  }

  /** The operations read exactly when every token is empty, `"+"` or `"*"`, and then there is
      one operation per non-empty token. */
  lemma {:induction false} OperationsExact(tokens: seq<string>)
    ensures Operations(tokens).Ok? <==> forall i :: 0 <= i < |tokens| ==> tokens[i] in {"", "+", "*"}
    ensures Operations(tokens).Ok? ==> |Operations(tokens).value| == NonEmpty(tokens)
  {
    if tokens != [] {
      var prefix := tokens[..|tokens| - 1];
      assert forall i :: 0 <= i < |prefix| ==> prefix[i] == tokens[i];
      OperationsExact(prefix);
    }
  }

  /** `convert_to_operation` over the tokens between single spaces. */
  method ConvertToOperation(line: string) returns (result: Result<seq<MathOperation>, WorksheetError>)
    ensures result == Operations(Text.Split(line, ' '))
  {
    var entries := Text.Split(line, ' ');
    var ops: seq<MathOperation> := [];
    for i := 0 to |entries|
      invariant Operations(entries[..i]) == Ok(ops)
    {
      assert entries[..i + 1][..i] == entries[..i];
      var entry := entries[i];
      if entry == "" {
        assert ops + [] == ops;
      } else if entry == "+" {
        ops := ops + [Add];
      } else if entry == "*" {
        ops := ops + [Multiply];
      } else {
        OperationsErrorSticks(entries, i + 1);
        return Err(UnknownOperation(entry));
      }
    }
    assert entries[..|entries|] == entries;
    return Ok(ops);
  }

  lemma {:induction false} OperationsErrorSticks(tokens: seq<string>, k: nat)
    requires k <= |tokens| && Operations(tokens[..k]).Err?
    ensures Operations(tokens) == Operations(tokens[..k])
    decreases |tokens| - k
  {
    if k < |tokens| {
      assert tokens[..k + 1][..k] == tokens[..k];
      OperationsErrorSticks(tokens, k + 1);
    } else {
      assert tokens[..k] == tokens;
    }
  }

  /** The row of the unit test: `"+ *    + *"` gives `[Add, Multiply, Add, Multiply]`. */
  lemma OperationsExample(line: string)
    requires line == "+ *    + *"
    ensures Operations(Text.Split(line, ' ')) == Ok([Add, Multiply, Add, Multiply])
  {
    var tokens := ["+", "*", "", "", "", "+", "*"];
    ExampleTokens(tokens, line);
    OperationsOfExampleTokens();
  }

  /** The tokens of the unit test's operations row. */
  lemma OperationsOfExampleTokens()
    ensures Operations(["+", "*", "", "", "", "+", "*"]) == Ok([Add, Multiply, Add, Multiply])
  {
    var tokens := ["+", "*", "", "", "", "+", "*"];
    assert tokens == ["+", "*"] + ["", "", ""] + ["+", "*"];
    OperationsPair("+", "*");
    NoOperations(["", "", ""]);
    OperationsAppend(["+", "*"], ["", "", ""]);
    OperationsAppend(["+", "*"] + ["", "", ""], ["+", "*"]);
    assert [Add, Multiply] + [] + [Add, Multiply] == [Add, Multiply, Add, Multiply];
  }

  /** Empty tokens give no operation. */
  lemma {:induction false} NoOperations(tokens: seq<string>)
    requires forall i :: 0 <= i < |tokens| ==> tokens[i] == ""
    ensures Operations(tokens) == Ok([])
  {
    if tokens != [] {
      var prefix := tokens[..|tokens| - 1];
      assert forall i :: 0 <= i < |prefix| ==> prefix[i] == tokens[i];
      NoOperations(prefix);
      var none: seq<MathOperation> := [];
      assert TokenOperation(tokens[|tokens| - 1]) == Ok(none) && none + none == none;
    }
  }

  lemma OperationsPair(a: string, b: string)
    requires a == "+" && b == "*"
    ensures Operations([a, b]) == Ok([Add, Multiply])
  {
    assert [a, b][..1] == [a] && [a][..0] == [];
    assert |a| == 1 && |b| == 1 && a != "*" && b != "+";
    var none: seq<MathOperation> := [];
    assert none + [Add] == [Add] && [Add] + [Multiply] == [Add, Multiply];
    assert Operations([a]) == Ok([Add]);
  }

  /** Two runs of operation tokens that read, read one after the other. */
  lemma {:induction false} OperationsAppend(a: seq<string>, b: seq<string>)
    requires Operations(a).Ok? && Operations(b).Ok?
    ensures Operations(a + b) == Ok(Operations(a).value + Operations(b).value)
  {
    if b == [] {
      assert a + b == a;
      assert Operations(a).value + [] == Operations(a).value;
    } else {
      var n := |b|;
      assert (a + b)[..|a + b| - 1] == a + b[..n - 1];
      assert (a + b)[|a + b| - 1] == b[n - 1];
      OperationsAppend(a, b[..n - 1]);
      var oa, ob, op := Operations(a).value, Operations(b[..n - 1]).value, TokenOperation(b[n - 1]).value;
      assert oa + ob + op == oa + (ob + op);
    }
  }

  // ---------------------------------------------------------------------------
  // Part 1

  /** The answer to one problem: the four numbers of its column added or multiplied. */
  function Answer(op: MathOperation, a: int, b: int, c: int, d: int): int {
    match op
    case Add => a + b + c + d
    case Multiply => a * b * c * d
  }

  /** The answers of the first `k` columns summed. */
  function GrandTotal(ops: seq<MathOperation>, l0: seq<int>, l1: seq<int>, l2: seq<int>, l3: seq<int>, k: nat): int
    requires k <= |ops| && k <= |l0| && k <= |l1| && k <= |l2| && k <= |l3|
  {
    if k == 0 then 0 else GrandTotal(ops, l0, l1, l2, l3, k - 1) + Answer(ops[k - 1], l0[k - 1], l1[k - 1], l2[k - 1], l3[k - 1])
  }

  /** The columns are independent: the worksheet cut after column `k` totals the same as its two
      halves. */
  lemma {:induction false} GrandTotalSplit(ops: seq<MathOperation>, l0: seq<int>, l1: seq<int>, l2: seq<int>, l3: seq<int>, k: nat, n: nat)
    requires k <= n <= |ops| && n <= |l0| && n <= |l1| && n <= |l2| && n <= |l3|
    ensures GrandTotal(ops, l0, l1, l2, l3, n)
         == GrandTotal(ops, l0, l1, l2, l3, k) + GrandTotal(ops[k..], l0[k..], l1[k..], l2[k..], l3[k..], n - k)
    decreases n
  {
    if n > k {
      GrandTotalSplit(ops, l0, l1, l2, l3, k, n - 1);
    }
  }

  /** The four number rows and the operations row read; the first failure stops the reading. */
  function ReadWorksheet(lines: seq<string>): Result<(seq<int>, seq<int>, seq<int>, seq<int>, seq<MathOperation>), WorksheetError> {
    if |lines| < 5 then Err(MissingLine)
    else
      match Operations(Text.Split(lines[4], ' '))
      case Err(e) => Err(e)
      case Ok(ops) =>
        Ok((Numbers(Text.Split(lines[0], ' ')), Numbers(Text.Split(lines[1], ' ')),
            Numbers(Text.Split(lines[2], ' ')), Numbers(Text.Split(lines[3], ' ')), ops))
  }

  /** `part1`: the answers of all problems summed; a number row shorter than the operations
      row stops it. */
  function Part1Total(lines: seq<string>): Result<int, WorksheetError> {
    match ReadWorksheet(lines)
    case Err(e) => Err(e)
    case Ok((l0, l1, l2, l3, ops)) =>
      var n := |ops|;
      if n <= |l0| && n <= |l1| && n <= |l2| && n <= |l3| then Ok(GrandTotal(ops, l0, l1, l2, l3, n))
      else Err(MissingNumber)
  }

  /** `part1` over the lines of the worksheet. */
  method Part1(lines: seq<string>) returns (result: Result<int, WorksheetError>)
    ensures result == Part1Total(lines)
  {
    if |lines| < 5 {
      return Err(MissingLine);
    }
    var line0 := ConvertToNumbers(lines[0]);
    var line1 := ConvertToNumbers(lines[1]);
    var line2 := ConvertToNumbers(lines[2]);
    var line3 := ConvertToNumbers(lines[3]);
    var operations := ConvertToOperation(lines[4]);
    if operations.Err? {
      return Err(operations.error);
    }
    var ops := operations.value;
    var total := 0;
    for index := 0 to |ops|
      invariant index <= |line0| && index <= |line1| && index <= |line2| && index <= |line3|
      invariant total == GrandTotal(ops, line0, line1, line2, line3, index)
    {
      if index >= |line0| || index >= |line1| || index >= |line2| || index >= |line3| {
        return Err(MissingNumber);
      }
      match ops[index]
      case Add =>
        total := total + (line0[index] + line1[index] + line2[index] + line3[index]);
      case Multiply =>
        total := total + line0[index] * line1[index] * line2[index] * line3[index];
    }
    return Ok(total);
  }
}
