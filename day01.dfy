/** Day 1: a character-driven reader of dial moves (`L<digits>` / `R<digits>` lines)
    and the two dial-counting passes over the moves it collected. */
module Day01 {
  import opened Wrappers
  import opened Decimal
  import Text
  import Seqs
  import Arith

  /** Where the dial points before the first move. */
  const CODE_START: int := 50

  datatype CodeReaderState =
    | SearchingDirection
    | SearchingCount(positive: bool, buffer: string)

  datatype Move = Move(moving_positive: bool, length: int)

  /** Why the reader stops (the Rust code panics in each case). */
  datatype ReadError =
    | UnexpectedDirection(input: char)
    | UnexpectedCount(input: char)
    | UnparsableCount(buffer: string)

  /** `process_direction`: a direction letter opens a count with an empty buffer. */
  function ProcessDirection(input: char): (r: Result<CodeReaderState, ReadError>)
    ensures r.Ok? <==> input == 'L' || input == 'R'
    ensures r.Ok? ==> r.value == SearchingCount(input == 'R', "")
    ensures r.Err? ==> r.error == UnexpectedDirection(input)
  {
    match input
    case 'L' => Ok(SearchingCount(false, ""))
    case 'R' => Ok(SearchingCount(true, ""))
    case _ => Err(UnexpectedDirection(input))
  }

  /** `process_count`: the next state, and the move pushed onto `moves` if any. */
  function ProcessCount(input: char, positive: bool, buffer: string): (r: Result<(CodeReaderState, Option<Move>), ReadError>)
    ensures IsDigit(input) ==> r == Ok((SearchingCount(positive, buffer + [input]), None))
    ensures input == '\n' ==>
      (r.Ok? <==> Text.ParseInt(buffer, Text.I32_MIN, Text.I32_MAX).Some?)
    ensures input == '\n' && r.Ok? ==>
      r.value == (SearchingDirection, Some(Move(positive, Text.ParseInt(buffer, Text.I32_MIN, Text.I32_MAX).value)))
    ensures input == '\n' && buffer == "" ==> r == Err(UnparsableCount(""))
    ensures !IsDigit(input) && input != '\n' ==> r == Err(UnexpectedCount(input))
  {
    if IsDigit(input) then Ok((SearchingCount(positive, buffer + [input]), None))
    else if input == '\n' then
      match Text.ParseInt(buffer, Text.I32_MIN, Text.I32_MAX)
      case None => Err(UnparsableCount(buffer))
      case Some(length) => Ok((SearchingDirection, Some(Move(positive, length))))
    else Err(UnexpectedCount(input))
  }

  /** The effect of one `CodeReader::read` call: the next state and the move appended, if any. */
  function Step(state: CodeReaderState, input: char): Result<(CodeReaderState, Option<Move>), ReadError> {
    match state
    case SearchingDirection =>
      (match ProcessDirection(input)
       case Ok(next) => Ok((next, None))
       case Err(e) => Err(e))
    case SearchingCount(positive, buffer) => ProcessCount(input, positive, buffer)
  }

  function Pushed(m: Option<Move>): seq<Move> {
    if m.Some? then [m.value] else []
  }

  /** The state reached and the moves collected after reading all of `s` from `state`,
      or the error at the first character the reader rejects. */
  function Feed(state: CodeReaderState, s: string): Result<(CodeReaderState, seq<Move>), ReadError>
    decreases |s|
  {
    if s == [] then Ok((state, []))
    else
      match Feed(state, s[..|s| - 1])
      case Err(e) => Err(e)
      case Ok((mid, moves)) =>
        match Step(mid, s[|s| - 1])
        case Err(e) => Err(e)
        case Ok((next, pushed)) => Ok((next, moves + Pushed(pushed)))
  }

  /** `CodeReader`: the current state and every move read so far. */
  class CodeReader {
    var state: CodeReaderState
    var moves: seq<Move>

    constructor ()
      ensures state == SearchingDirection && moves == []
    {
      state := SearchingDirection;
      moves := [];
    }

    /** `read`: on success the state advances and at most one move is appended, earlier
        moves untouched; a rejected character changes nothing. */
    method Read(input: char) returns (outcome: Outcome<ReadError>)
      modifies this
      ensures match Step(old(state), input)
              case Ok((next, pushed)) =>
                outcome == Pass && state == next && moves == old(moves) + Pushed(pushed)
              case Err(e) =>
                outcome == Fail(e) && state == old(state) && moves == old(moves)
    {
      match state
      case SearchingDirection =>
        var r := ProcessDirection(input);
        match r {
          case Ok(next) => state := next; outcome := Pass;
          case Err(e) => outcome := Fail(e);
        }
      case SearchingCount(positive, buffer) =>
        var r := ProcessCount(input, positive, buffer);
        match r {
          case Ok((next, pushed)) =>
            state := next;
            moves := moves + Pushed(pushed);
            outcome := Pass;
          case Err(e) => outcome := Fail(e);
        }
    }
  }

  /** The reading loop of `main`: every character of `code` goes to one reader, in order. */
  method ReadMoves(code: string) returns (r: Result<seq<Move>, ReadError>)
    ensures match Feed(SearchingDirection, code)
            case Ok((_, moves)) => r == Ok(moves)
            case Err(e) => r == Err(e)
  {
    var reader := new CodeReader();
    var i := 0;
    while i < |code|
      invariant 0 <= i <= |code|
      invariant Feed(SearchingDirection, code[..i]) == Ok((reader.state, reader.moves))
    {
      assert code[..i + 1][..i] == code[..i];
      var outcome := reader.Read(code[i]);
      if outcome.Fail? {
        assert Feed(SearchingDirection, code[..i + 1]) == Err(outcome.error);
        FeedErrorSticks(SearchingDirection, code[..i + 1], code[i + 1..]);
        assert code[..i + 1] + code[i + 1..] == code;
        return Err(outcome.error);
      }
      i := i + 1;
    }
    assert code[..i] == code;
    r := Ok(reader.moves);
  }

  /** The moves `ms` read earlier, in front of whatever reading the rest gives. */
  function Prepend(ms: seq<Move>, r: Result<(CodeReaderState, seq<Move>), ReadError>): Result<(CodeReaderState, seq<Move>), ReadError> {
    match r
    case Err(e) => Err(e)
    case Ok((next, ms')) => Ok((next, ms + ms'))
  }

  /** Reading `a` and then `b` is reading `a + b`. */
  lemma {:induction false} FeedConcat(state: CodeReaderState, a: string, b: string)
    requires Feed(state, a).Ok?
    ensures Feed(state, a + b) == Prepend(Feed(state, a).value.1, Feed(Feed(state, a).value.0, b))
    decreases |b|
  {
    var mid, ms := Feed(state, a).value.0, Feed(state, a).value.1;
    if b == [] {
      assert a + b == a;
      assert ms + [] == ms;
    } else {
      var b0, c := b[..|b| - 1], b[|b| - 1];
      assert (a + b)[..|a + b| - 1] == a + b0;
      assert (a + b)[|a + b| - 1] == c;
      FeedConcat(state, a, b0);
      match Feed(mid, b0)
      case Err(e) =>
      case Ok((n, ms0)) =>
        assert Feed(state, a + b0) == Ok((n, ms + ms0));
        match Step(n, c)
        case Err(e) =>
        case Ok((n', pushed)) =>
          assert ms + ms0 + Pushed(pushed) == ms + (ms0 + Pushed(pushed));
    }
  }

  /** Once the reader has rejected a character, nothing read after it matters. */
  lemma {:induction false} FeedErrorSticks(state: CodeReaderState, a: string, b: string)
    requires Feed(state, a).Err?
    ensures Feed(state, a + b) == Feed(state, a)
    decreases |b|
  {
    if b == [] {
      assert a + b == a;
    } else {
      assert (a + b)[..|a + b| - 1] == a + b[..|b| - 1];
      FeedErrorSticks(state, a, b[..|b| - 1]);
    }
  }

  /** Digits after a direction letter only grow the buffer. */
  lemma {:induction false} FeedDigits(positive: bool, buffer: string, digits: string)
    requires AllDigits(digits)
    ensures Feed(SearchingCount(positive, buffer), digits) == Ok((SearchingCount(positive, buffer + digits), []))
    decreases |digits|
  {
    if digits == [] {
      assert buffer + digits == buffer;
    } else {
      var d0, c := digits[..|digits| - 1], digits[|digits| - 1];
      assert AllDigits(d0) && IsDigit(c);
      FeedDigits(positive, buffer, d0);
      assert Step(SearchingCount(positive, buffer + d0), c) == Ok((SearchingCount(positive, buffer + d0 + [c]), None));
      assert buffer + d0 + [c] == buffer + digits;
      var none: seq<Move> := [];
      assert none + Pushed(None) == none;
      assert Feed(SearchingCount(positive, buffer), digits)
          == Ok((SearchingCount(positive, buffer + d0 + [c]), none));
    }
  }

  /** The line a move is written as: its direction letter, its length in decimal, a line feed. */
  function EncodeMove(m: Move): string
    requires m.length >= 0
  {
    [if m.moving_positive then 'R' else 'L'] + ToDecimal(m.length) + "\n"
  }

  function Encode(moves: seq<Move>): string
    requires forall i :: 0 <= i < |moves| ==> moves[i].length >= 0
  {
    if moves == [] then "" else Encode(moves[..|moves| - 1]) + EncodeMove(moves[|moves| - 1])
  }

  /** A direction letter opens an empty count. */
  lemma FeedLetter(positive: bool)
    ensures Feed(SearchingDirection, [if positive then 'R' else 'L']) == Ok((SearchingCount(positive, ""), []))
  {
    var letter := [if positive then 'R' else 'L'];
    assert letter[..0] == [];
    var none: seq<Move> := [];
    assert none + Pushed(None) == none;
  }

  /** A line feed after a nonempty run of digits whose value fits an `i32` emits the move. */
  lemma FeedLineFeed(positive: bool, digits: string)
    requires digits != [] && AllDigits(digits) && DigitsValue(digits) <= Text.I32_MAX
    ensures Feed(SearchingCount(positive, digits), "\n") == Ok((SearchingDirection, [Move(positive, DigitsValue(digits))]))
  {
    var lf := "\n";
    assert lf[..0] == [] && lf[0] == '\n';
    Text.ParseDigits(digits, Text.I32_MIN, Text.I32_MAX);
    var m := Move(positive, DigitsValue(digits));
    assert ProcessCount('\n', positive, digits) == Ok((SearchingDirection, Some(m)));
    var none: seq<Move> := [];
    assert none + Pushed(Some(m)) == [m];
  }

  /** A direction letter, a nonempty run of digits whose value fits an `i32` and a line feed
      are read as exactly that move, and the reader is ready for the next. */
  lemma FeedLine(positive: bool, digits: string)
    requires digits != [] && AllDigits(digits) && DigitsValue(digits) <= Text.I32_MAX
    ensures Feed(SearchingDirection, [if positive then 'R' else 'L'] + digits + "\n")
         == Ok((SearchingDirection, [Move(positive, DigitsValue(digits))]))
  {
    var letter := [if positive then 'R' else 'L'];
    var rest := digits + "\n";
    var counting := SearchingCount(positive, "");
    var m := Move(positive, DigitsValue(digits));
    var none: seq<Move> := [];
    assert Feed(counting, rest) == Ok((SearchingDirection, [m])) by {
      FeedDigits(positive, "", digits);
      assert "" + digits == digits;
      FeedLineFeed(positive, digits);
      FeedConcat(counting, digits, "\n");
    }
    FeedLetter(positive);
    FeedConcat(SearchingDirection, letter, rest);
    assert none + [m] == [m];
    assert letter + digits + "\n" == letter + rest;
  }

  /** One encoded move is read back as exactly that move. */
  lemma FeedMove(m: Move)
    requires 0 <= m.length <= Text.I32_MAX
    ensures Feed(SearchingDirection, EncodeMove(m)) == Ok((SearchingDirection, [m]))
  {
    var digits := ToDecimal(m.length);
    FeedLine(m.moving_positive, digits);
  }

  /** Round trip: reading the encoding of any moves (lengths that fit an `i32`) gives
      back exactly those moves, in order. */
  lemma {:induction false} FeedEncode(moves: seq<Move>)
    requires forall i :: 0 <= i < |moves| ==> 0 <= moves[i].length <= Text.I32_MAX
    ensures Feed(SearchingDirection, Encode(moves)) == Ok((SearchingDirection, moves))
  {
    if moves != [] {
      var prefix, m := moves[..|moves| - 1], moves[|moves| - 1];
      FeedEncode(prefix);
      FeedMove(m);
      FeedThenLine(Encode(prefix), prefix, EncodeMove(m), m);
      Seqs.LastSplit(moves);
    }
  }

  lemma FeedThenLine(s: string, ms: seq<Move>, line: string, m: Move)
    requires Feed(SearchingDirection, s) == Ok((SearchingDirection, ms))
    requires Feed(SearchingDirection, line) == Ok((SearchingDirection, [m]))
    ensures Feed(SearchingDirection, s + line) == Ok((SearchingDirection, ms + [m]))
  {
    FeedConcat(SearchingDirection, s, line);
  }

  /** A well-formed line gives its move. */
  lemma ReadExampleRight()
    ensures Feed(SearchingDirection, "R10\n") == Ok((SearchingDirection, [Move(true, 10)]))
  {
    assert DigitsValue("10") == 10 by {
      assert "10"[..1] == "1";
    }
    FeedLine(true, "10");
    assert ['R'] + "10" + "\n" == "R10\n";
  }

  /** A well-formed line to the left gives its move. */
  lemma ReadExampleLeft()
    ensures Feed(SearchingDirection, "L5\n") == Ok((SearchingDirection, [Move(false, 5)]))
  {
    FeedLine(false, "5");
    assert ['L'] + "5" + "\n" == "L5\n";
  }

  /** A direction without a count is rejected at the line feed. */
  lemma ReadExampleMissingCount()
    ensures Feed(SearchingDirection, "R\n") == Err(UnparsableCount(""))
  {
    FeedLetter(true);
    var s := "R\n";
    assert s[..1] == "R" && s[1] == '\n';
  }

  /** A carriage return inside a count is rejected. */
  lemma ReadExampleCarriageReturn()
    ensures Feed(SearchingDirection, "R1\r\n") == Err(UnexpectedCount('\r'))
  {
    FeedLetter(true);
    FeedDigits(true, "", "1");
    FeedConcat(SearchingDirection, "R", "1");
    assert "R" + "1" == "R1";
    var s := "R1\r\n";
    assert s[..3] == "R1\r" && s[3] == '\n';
    var t := "R1\r";
    assert t[..2] == "R1" && t[2] == '\r';
    FeedErrorSticks(SearchingDirection, t, "\n");
    assert t + "\n" == s;
  }

  // ---------------------------------------------------------------------------
  // The dial

  /** Rust's `% 100` on integers: the remainder of the division truncated toward zero,
      so it has the sign of the dividend. */
  function TruncRem(a: int): (r: int)
    ensures -100 < r < 100
    ensures a >= 0 ==> r >= 0
    ensures a <= 0 ==> r <= 0
    ensures (a - r) % 100 == 0
  {
    if a >= 0 then
      RemainderMultiple(a);
      a % 100
    else
      RemainderMultiple(-a);
      -((-a) % 100)
  }

  /** Removing the remainder from either side leaves a multiple of 100. */
  lemma RemainderMultiple(b: int)
    requires b >= 0
    ensures (b - b % 100) % 100 == 0 && (b % 100 - b) % 100 == 0
  {
    var q := b / 100;
    assert b - b % 100 == q * 100;
    Arith.MultipleMod(q, 100);
    assert b % 100 - b == (-q) * 100;
    Arith.MultipleMod(-q, 100);
  }

  /** How far a move turns the dial, signed by its direction. */
  function Offset(m: Move): int {
    if m.moving_positive then m.length else -m.length
  }

  /** The total signed turn of a sequence of moves. */
  function Travel(moves: seq<Move>): int {
    if moves == [] then 0 else Travel(moves[..|moves| - 1]) + Offset(moves[|moves| - 1])
  }

  /** Part 1's position after the moves: each whole move applied and then `%= 100`. */
  function DialAfter(moves: seq<Move>): int {
    if moves == [] then CODE_START
    else TruncRem(DialAfter(moves[..|moves| - 1]) + Offset(moves[|moves| - 1]))
  }

  /** Part 2's position after `clicks` single steps from `p`, with `%= 100` after each step. */
  function ClickDial(p: int, positive: bool, clicks: int): int
    decreases clicks
  {
    if clicks <= 0 then p
    else TruncRem(ClickDial(p, positive, clicks - 1) + (if positive then 1 else -1))
  }

  /** Part 2's position after the moves, each move taken one click at a time. */
  function ClickDialAfter(moves: seq<Move>): int {
    if moves == [] then CODE_START
    else
      var m := moves[|moves| - 1];
      ClickDial(ClickDialAfter(moves[..|moves| - 1]), m.moving_positive, m.length)
  }

  /** The number of moves after which the dial, counted on the whole circle, points at 0. */
  function ZeroStops(moves: seq<Move>): nat {
    if moves == [] then 0
    else ZeroStops(moves[..|moves| - 1]) + (if (CODE_START + Travel(moves)) % 100 == 0 then 1 else 0)
  }

  /** The number of the clicks 1..`length` from `p` that land on a multiple of 100. */
  function Hits(p: int, positive: bool, length: int): nat
    decreases length
  {
    if length <= 0 then 0
    else Hits(p, positive, length - 1) + (if (p + (if positive then length else -length)) % 100 == 0 then 1 else 0)
  }

  /** The number of single clicks, over all moves, that land on 0. */
  function ZeroClicks(moves: seq<Move>): nat {
    if moves == [] then 0
    else
      var prefix, m := moves[..|moves| - 1], moves[|moves| - 1];
      ZeroClicks(prefix) + Hits(CODE_START + Travel(prefix), m.moving_positive, m.length)
  }

  /** Two values congruent modulo 100, the first strictly inside (-100): the first is 0
      exactly when the second is a multiple of 100. */
  lemma ZeroIffMultiple(x: int, y: int)
    requires -100 < x < 100 && (x - y) % 100 == 0
    ensures x == 0 <==> y % 100 == 0
  {
    var k := (x - y) / 100;
    assert x - y == 100 * k;
    if x == 0 {
      assert y == 100 * (-k);
    }
    if y % 100 == 0 {
      var j := y / 100;
      assert y == 100 * j;
      assert x == 100 * (j + k);
    }
  }

  lemma Congruent(a: int, b: int, c: int)
    requires (a - b) % 100 == 0 && (b - c) % 100 == 0
    ensures (a - c) % 100 == 0
  {
    var k, j := (a - b) / 100, (b - c) / 100;
    assert a - c == 100 * (k + j);
  }

  lemma CongruentShift(a: int, b: int, d: int)
    requires (a - b) % 100 == 0
    ensures ((a + d) - (b + d)) % 100 == 0
  {
    assert (a + d) - (b + d) == a - b;
  }

  /** Part 1's position stays strictly inside (-100) and agrees modulo 100 with the
      total turn from the start. */
  lemma {:induction false} DialAfterCongruent(moves: seq<Move>)
    ensures -100 < DialAfter(moves) < 100
    ensures (DialAfter(moves) - (CODE_START + Travel(moves))) % 100 == 0
  {
    if moves != [] {
      var prefix, m := moves[..|moves| - 1], moves[|moves| - 1];
      DialAfterCongruent(prefix);
      var before := DialAfter(prefix) + Offset(m);
      CongruentShift(DialAfter(prefix), CODE_START + Travel(prefix), Offset(m));
      Congruent(DialAfter(moves), before, CODE_START + Travel(moves));
    }
  }

  /** Clicking one step at a time from inside (-100) ends where one truncated
      `%` of the whole turn ends. */
  lemma {:induction false} ClickDialMatches(p: int, positive: bool, clicks: int)
    requires -100 < p < 100 && clicks >= 0
    ensures ClickDial(p, positive, clicks) == TruncRem(p + (if positive then clicks else -clicks))
    decreases clicks
  {
    if clicks > 0 {
      ClickDialMatches(p, positive, clicks - 1);
      var x := p + (if positive then clicks - 1 else -(clicks - 1));
      var step := if positive then 1 else -1;
      StepAfterTruncRem(x, step);
    } else {
      assert p + 0 == p;
    }
  }

  /** One more click after a truncated `%` is one truncated `%` of the longer turn, as long as
      the turn did not start behind the dial's range in the click's direction. */
  lemma StepAfterTruncRem(x: int, step: int)
    requires step == 1 || step == -1
    requires step == 1 ==> x > -100
    requires step == -1 ==> x < 100
    ensures TruncRem(TruncRem(x) + step) == TruncRem(x + step)
  {
    if step == 1 {
      if x >= 0 {
        var r := x % 100;
        Arith.ModSuccessor(x, 100);
        Arith.ModUnique(r + 1, 100, if r == 99 then 1 else 0, if r == 99 then 0 else r + 1);
      } else {
        Arith.ModUnique(-x, 100, 0, -x);
        if x + 1 < 0 {
          Arith.ModUnique(-(x + 1), 100, 0, -(x + 1));
        }
      }
    } else {
      if x <= 0 {
        var r := (-x) % 100;
        Arith.ModSuccessor(-x, 100);
        Arith.ModUnique(r + 1, 100, if r == 99 then 1 else 0, if r == 99 then 0 else r + 1);
      } else {
        Arith.ModUnique(x, 100, 0, x);
        Arith.ModUnique(x - 1, 100, 0, x - 1);
      }
    }
  }


  /** The two parts' positions agree: stepping a move click by click ends where the whole move
      ends (lengths read from digits are never negative). */
  lemma {:induction false} DialPositionsAgree(moves: seq<Move>)
    requires forall i :: 0 <= i < |moves| ==> moves[i].length >= 0
    ensures ClickDialAfter(moves) == DialAfter(moves)
  {
    if moves != [] {
      var prefix, m := moves[..|moves| - 1], moves[|moves| - 1];
      DialPositionsAgree(prefix);
      DialAfterCongruent(prefix);
      ClickDialMatches(DialAfter(prefix), m.moving_positive, m.length);
    }
  }

  /** A click sequence from a position congruent to `t` stays congruent to `t` plus the clicks. */
  lemma {:induction false} ClickDialCongruent(p: int, t: int, positive: bool, clicks: int)
    requires -100 < p < 100 && (p - t) % 100 == 0 && clicks >= 0
    ensures -100 < ClickDial(p, positive, clicks) < 100
    ensures (ClickDial(p, positive, clicks) - (t + (if positive then clicks else -clicks))) % 100 == 0
  {
    ClickDialMatches(p, positive, clicks);
    var d := if positive then clicks else -clicks;
    CongruentShift(p, t, d);
    Congruent(ClickDial(p, positive, clicks), p + d, t + d);
  }

  /** One move of part 1: the new position, and whether it adds a stop on 0. */
  lemma StopStep(done: seq<Move>, m: Move)
    ensures TruncRem(DialAfter(done) + Offset(m)) == DialAfter(done + [m])
    ensures ZeroStops(done + [m]) == ZeroStops(done) + (if DialAfter(done + [m]) == 0 then 1 else 0)
  {
    var p := done + [m];
    assert p[..|done|] == done && p[|done|] == m;
    DialAfterCongruent(p);
    ZeroIffMultiple(DialAfter(p), CODE_START + Travel(p));
  }

  /** One click of part 2 from `position`, reached after `k` clicks from `start` (congruent to the
      total turn `t`): whether it lands on 0 is whether the turn on the whole circle does. */
  lemma ClickStep(start: int, t: int, positive: bool, k: int, position: int)
    requires -100 < start < 100 && (start - t) % 100 == 0 && k >= 0
    requires position == ClickDial(start, positive, k)
    ensures ClickDial(start, positive, k + 1) == TruncRem(position + (if positive then 1 else -1))
    ensures Hits(t, positive, k + 1)
         == Hits(t, positive, k) + (if TruncRem(position + (if positive then 1 else -1)) == 0 then 1 else 0)
  {
    ClickDialCongruent(start, t, positive, k + 1);
    ZeroIffMultiple(ClickDial(start, positive, k + 1), t + (if positive then k + 1 else -(k + 1)));
  }

  /** The position part 2 starts a move from agrees with the total turn so far. */
  lemma MoveStart(done: seq<Move>, m: Move)
    requires forall j :: 0 <= j < |done| ==> done[j].length >= 0
    ensures -100 < ClickDialAfter(done) < 100
    ensures (ClickDialAfter(done) - (CODE_START + Travel(done))) % 100 == 0
    ensures ClickDialAfter(done + [m]) == ClickDial(ClickDialAfter(done), m.moving_positive, m.length)
    ensures ZeroClicks(done + [m]) == ZeroClicks(done) + Hits(CODE_START + Travel(done), m.moving_positive, m.length)
  {
    StartAgrees(done);
    var p := done + [m];
    assert p[..|done|] == done && p[|done|] == m;
  }

  lemma StartAgrees(done: seq<Move>)
    requires forall j :: 0 <= j < |done| ==> done[j].length >= 0
    ensures -100 < ClickDialAfter(done) < 100
    ensures (ClickDialAfter(done) - (CODE_START + Travel(done))) % 100 == 0
  {
    DialPositionsAgree(done);
    DialAfterCongruent(done);
    var x, t := DialAfter(done), CODE_START + Travel(done);
    assert (x - t) % 100 == 0;
  }

  /** The inner `while` of `main`'s part 2: turn the dial `length` single clicks from
      `start`, adding one to `count` for each click that lands on 0. `t` is the same position
      counted without wrapping. */
  method ClickThrough(start: int, positive: bool, length: int, count: nat, ghost t: int)
    returns (position: int, newCount: nat)
    requires -100 < start < 100 && (start - t) % 100 == 0 && length >= 0
    ensures position == ClickDial(start, positive, length)
    ensures newCount == count + Hits(t, positive, length)
  {
    position, newCount := start, count;
    var rotation := length;
    ghost var clicks := 0;
    while rotation > 0
      invariant 0 <= rotation <= length && clicks == length - rotation
      invariant position == ClickDial(start, positive, clicks)
      invariant newCount == count + Hits(t, positive, clicks)
    {
      ClickStep(start, t, positive, clicks, position);
      position := TruncRem(position + (if positive then 1 else -1));
      if position == 0 {
        newCount := newCount + 1;
      }
      rotation := rotation - 1;
      clicks := clicks + 1;
    }
  }

  /** The dial loops of `main`: part 1 counts the moves that end on 0, part 2 the single
      clicks that land on 0; both counted against the total turn on the whole circle. */
  method DialCodes(moves: seq<Move>) returns (count1: nat, count2: nat)
    requires forall i :: 0 <= i < |moves| ==> moves[i].length >= 0
    ensures count1 == ZeroStops(moves)
    ensures count2 == ZeroClicks(moves)
  {
    var position1, position2 := CODE_START, CODE_START;
    count1, count2 := 0, 0;
    ghost var done: seq<Move> := [];
    var i := 0;
    while i < |moves|
      invariant 0 <= i <= |moves| && done == moves[..i]
      invariant position1 == DialAfter(done) && position2 == ClickDialAfter(done)
      invariant count1 == ZeroStops(done) && count2 == ZeroClicks(done)
    {
      var m := moves[i];
      StopStep(done, m);
      position1 := TruncRem(position1 + Offset(m));
      if position1 == 0 {
        count1 := count1 + 1;
      }

      MoveStart(done, m);
      position2, count2 := ClickThrough(position2, m.moving_positive, m.length, count2, CODE_START + Travel(done));
      done := done + [m];
      i := i + 1;
    }
    assert done == moves;
  }

  /** A count buffer only ever holds digits. */
  predicate DigitBuffer(state: CodeReaderState) {
    state.SearchingCount? ==> AllDigits(state.buffer)
  }

  /** Every move the reader produces has a length read from digits, so it is never negative,
      and the buffer keeps holding digits only. */
  lemma {:induction false} FeedLengthsNonnegative(state: CodeReaderState, s: string)
    requires DigitBuffer(state) && Feed(state, s).Ok?
    ensures DigitBuffer(Feed(state, s).value.0)
    ensures forall j :: 0 <= j < |Feed(state, s).value.1| ==> Feed(state, s).value.1[j].length >= 0
    decreases |s|
  {
    if s != [] {
      FeedLengthsNonnegative(state, s[..|s| - 1]);
      var mid := Feed(state, s[..|s| - 1]).value.0;
      var c := s[|s| - 1];
      if mid.SearchingCount? {
        if c == '\n' && mid.buffer != [] {
          Text.ParseDigits(mid.buffer, Text.I32_MIN, Text.I32_MAX);
        }
        if IsDigit(c) {
          assert AllDigits(mid.buffer + [c]);
        }
      }
    }
  }

  /** Part 1 never counts more stops than there are moves. */
  lemma {:induction false} ZeroStopsBound(moves: seq<Move>)
    ensures ZeroStops(moves) <= |moves|
  {
    if moves != [] {
      ZeroStopsBound(moves[..|moves| - 1]);
    }
  }

  /** A move of positive length that ends on 0 lands its last click on 0, so part 2
      counts at least as many zeros as part 1. */
  lemma {:induction false} StopsAreClicks(moves: seq<Move>)
    requires forall i :: 0 <= i < |moves| ==> moves[i].length > 0
    ensures ZeroStops(moves) <= ZeroClicks(moves)
  {
    if moves != [] {
      var prefix, m := moves[..|moves| - 1], moves[|moves| - 1];
      StopsAreClicks(prefix);
      var t := CODE_START + Travel(prefix);
      assert CODE_START + Travel(moves) == t + (if m.moving_positive then m.length else -m.length);
    }
  }
}
