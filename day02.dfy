/** Day 2: a character-driven reader of product-id ranges (`a-b,c-d\n`) and the two tests of
    "invalid" ids whose decimal digits are one segment repeated. */
module Day02 {
  import opened Wrappers
  import opened Decimal
  import Text
  import Seqs
  import Arith

  datatype ReaderState =
    | ReadingStart(buffer: string)
    | ReadingEnd(start: string, buffer: string)
    | DoneReading
    | InvalidState

  datatype ProductRange = ProductRange(start: int, end: int)

  /** Why the reader stops (the Rust code panics in each case). */
  datatype ReadError =
    | UnexpectedInStart(input: char)
    | UnexpectedInEnd(input: char)
    | BadNumber(text: string)
    | DataAfterEnd
    | DataInInvalidState

  /** `read_start`: digits accumulate, `-` closes the start number. */
  function ReadStart(input: char, buffer: string): (r: Result<ReaderState, ReadError>)
    ensures IsDigit(input) ==> r == Ok(ReadingStart(buffer + [input]))
    ensures input == '-' ==> r == Ok(ReadingEnd(buffer, ""))
    ensures r.Ok? <==> IsDigit(input) || input == '-'
    ensures r.Err? ==> r.error == UnexpectedInStart(input)
  {
    if IsDigit(input) then Ok(ReadingStart(buffer + [input]))
    else if input == '-' then Ok(ReadingEnd(buffer, ""))
    else Err(UnexpectedInStart(input))
  }

  /** Both numbers of a range, as `str::parse::<i64>` reads them. */
  function ParseRange(start: string, end: string): Result<ProductRange, ReadError> {
    match Text.ParseInt(start, Text.I64_MIN, Text.I64_MAX)
    case None => Err(BadNumber(start))
    case Some(s) =>
      match Text.ParseInt(end, Text.I64_MIN, Text.I64_MAX)
      case None => Err(BadNumber(end))
      case Some(e) => Ok(ProductRange(s, e))
  }

  /** `read_end`: the next state and the range written to `result`, if any. */
  function ReadEnd(input: char, start: string, buffer: string): (r: Result<(ReaderState, Option<ProductRange>), ReadError>)
    ensures IsDigit(input) ==> r == Ok((ReadingEnd(start, buffer + [input]), None))
    ensures input == '\r' ==> r == Ok((ReadingEnd(start, buffer), None))
    ensures input == ',' || input == '\n' ==>
      match ParseRange(start, buffer)
      case Ok(range) => r == Ok((if input == ',' then ReadingStart("") else DoneReading, Some(range)))
      case Err(e) => r == Err(e)
    ensures !IsDigit(input) && input !in ",\n\r" ==> r == Err(UnexpectedInEnd(input))
  {
    if IsDigit(input) then Ok((ReadingEnd(start, buffer + [input]), None))
    else if input == ',' || input == '\n' then
      match ParseRange(start, buffer)
      case Err(e) => Err(e)
      case Ok(range) => Ok((if input == ',' then ReadingStart("") else DoneReading, Some(range)))
    else if input == '\r' then Ok((ReadingEnd(start, buffer), None))
    else Err(UnexpectedInEnd(input))
  }

  /** The effect of one `Reader::read` call: the next state and the range it returns.
      A range is returned only for `,` or a line feed while reading an end number, and
      nothing may follow the final line feed. */
  function Step(state: ReaderState, input: char): (r: Result<(ReaderState, Option<ProductRange>), ReadError>)
    ensures r.Ok? && r.value.1.Some? ==> state.ReadingEnd? && (input == ',' || input == '\n')
    ensures state.DoneReading? ==> r == Err(DataAfterEnd)
    ensures state.InvalidState? ==> r == Err(DataInInvalidState)
  {
    match state
    case ReadingStart(buffer) =>
      (match ReadStart(input, buffer)
       case Ok(next) => Ok((next, None))
       case Err(e) => Err(e))
    case ReadingEnd(start, buffer) => ReadEnd(input, start, buffer)
    case DoneReading => Err(DataAfterEnd)
    case InvalidState => Err(DataInInvalidState)
  }

  function Emitted(r: Option<ProductRange>): seq<ProductRange> {
    if r.Some? then [r.value] else []
  }

  /** The state reached and the ranges returned, in order, after reading all of `s` from
      `state`, or the error at the first character the reader rejects. */
  function Feed(state: ReaderState, s: string): Result<(ReaderState, seq<ProductRange>), ReadError>
    decreases |s|
  {
    if s == [] then Ok((state, []))
    else
      match Feed(state, s[..|s| - 1])
      case Err(e) => Err(e)
      case Ok((mid, ranges)) =>
        match Step(mid, s[|s| - 1])
        case Err(e) => Err(e)
        case Ok((next, range)) => Ok((next, ranges + Emitted(range)))
  }

  /** `Reader`: the state of the range being read. */
  class Reader {
    var state: ReaderState

    constructor ()
      ensures state == ReadingStart("")
    {
      state := ReadingStart("");
    }

    /** `read`: the state is first swapped out for `InvalidState`, then replaced by the next
        state; when the character is rejected it stays `InvalidState`. */
    method Read(input: char) returns (emitted: Result<Option<ProductRange>, ReadError>)
      modifies this
      ensures match Step(old(state), input)
              case Ok((next, range)) => emitted == Ok(range) && state == next
              case Err(e) => emitted == Err(e) && state == InvalidState
    {
      var current := state;
      state := InvalidState;
      match current {
        case ReadingStart(buffer) =>
          var r := ReadStart(input, buffer);
          match r {
            case Ok(next) => state := next; emitted := Ok(None);
            case Err(e) => emitted := Err(e);
          }
        case ReadingEnd(start, buffer) =>
          var r := ReadEnd(input, start, buffer);
          match r {
            case Ok((next, range)) => state := next; emitted := Ok(range);
            case Err(e) => emitted := Err(e);
          }
        case DoneReading => emitted := Err(DataAfterEnd);
        case InvalidState => emitted := Err(DataInInvalidState);
      }
    }
  }

  /** The reading loop of `main`: every character goes to one reader, and every range it
      returns is collected in order. */
  method ReadRanges(code: string) returns (r: Result<seq<ProductRange>, ReadError>)
    ensures match Feed(ReadingStart(""), code)
            case Ok((_, ranges)) => r == Ok(ranges)
            case Err(e) => r == Err(e)
  {
    var reader := new Reader();
    var ranges: seq<ProductRange> := [];
    var i := 0;
    while i < |code|
      invariant 0 <= i <= |code|
      invariant Feed(ReadingStart(""), code[..i]) == Ok((reader.state, ranges))
    {
      assert code[..i + 1][..i] == code[..i];
      var emitted := reader.Read(code[i]);
      if emitted.Err? {
        FeedErrorSticks(ReadingStart(""), code[..i + 1], code[i + 1..]);
        assert code[..i + 1] + code[i + 1..] == code;
        return Err(emitted.error);
      }
      ranges := ranges + Emitted(emitted.value);
      i := i + 1;
    }
    assert code[..i] == code;
    r := Ok(ranges);
  }

  /** The ranges `rs` returned earlier, in front of whatever reading the rest gives. */
  function Prepend(rs: seq<ProductRange>, r: Result<(ReaderState, seq<ProductRange>), ReadError>): Result<(ReaderState, seq<ProductRange>), ReadError> {
    match r
    case Err(e) => Err(e)
    case Ok((next, rs')) => Ok((next, rs + rs'))
  }

  /** Reading `a` and then `b` is reading `a + b`. */
  lemma {:induction false} FeedConcat(state: ReaderState, a: string, b: string)
    requires Feed(state, a).Ok?
    ensures Feed(state, a + b) == Prepend(Feed(state, a).value.1, Feed(Feed(state, a).value.0, b))
    decreases |b|
  {
    var mid, rs := Feed(state, a).value.0, Feed(state, a).value.1;
    if b == [] {
      assert a + b == a;
      assert rs + [] == rs;
    } else {
      var b0, c := b[..|b| - 1], b[|b| - 1];
      assert (a + b)[..|a + b| - 1] == a + b0;
      assert (a + b)[|a + b| - 1] == c;
      FeedConcat(state, a, b0);
      match Feed(mid, b0)
      case Err(e) =>
      case Ok((n, rs0)) =>
        assert Feed(state, a + b0) == Ok((n, rs + rs0));
        match Step(n, c)
        case Err(e) =>
        case Ok((n', range)) =>
          assert rs + rs0 + Emitted(range) == rs + (rs0 + Emitted(range));
    }
  }

  /** Reading `a` into `mid` and then `b` from `mid`. */
  lemma FeedChain(state: ReaderState, a: string, b: string, mid: ReaderState, ra: seq<ProductRange>, next: ReaderState, rb: seq<ProductRange>)
    requires Feed(state, a) == Ok((mid, ra))
    requires Feed(mid, b) == Ok((next, rb))
    ensures Feed(state, a + b) == Ok((next, ra + rb))
  {
    FeedConcat(state, a, b);
  }

  /** Once the reader has rejected a character, nothing read after it matters. */
  lemma {:induction false} FeedErrorSticks(state: ReaderState, a: string, b: string)
    requires Feed(state, a).Err?
    ensures Feed(state, a + b) == Feed(state, a)
    decreases |b|
  {
    if b == [] {
      assert a + b == a;
    } else {
      assert (a + b)[..|a + b| - 1] == a + b[..|b| - 1];
      FeedErrorSticks(state, a, b[..|b| - 1]);
    }
  }

  /** Reading one character from `state`. */
  lemma FeedOne(state: ReaderState, c: char)
    requires Step(state, c).Ok?
    ensures Feed(state, [c]) == Ok((Step(state, c).value.0, Emitted(Step(state, c).value.1)))
  {
    assert [c][..0] == [];
    var none: seq<ProductRange> := [];
    assert none + Emitted(Step(state, c).value.1) == Emitted(Step(state, c).value.1);
  }

  /** Digits of a start number only grow the buffer. */
  lemma {:induction false} FeedStartDigits(buffer: string, digits: string)
    requires AllDigits(digits)
    ensures Feed(ReadingStart(buffer), digits) == Ok((ReadingStart(buffer + digits), []))
    decreases |digits|
  {
    if digits == [] {
      assert buffer + digits == buffer;
    } else {
      var d0, c := digits[..|digits| - 1], digits[|digits| - 1];
      assert AllDigits(d0) && IsDigit(c);
      FeedStartDigits(buffer, d0);
      assert buffer + d0 + [c] == buffer + digits;
      var none: seq<ProductRange> := [];
      assert none + Emitted(None) == none;
    }
  }

  /** Digits of an end number only grow the buffer. */
  lemma {:induction false} FeedEndDigits(start: string, buffer: string, digits: string)
    requires AllDigits(digits)
    ensures Feed(ReadingEnd(start, buffer), digits) == Ok((ReadingEnd(start, buffer + digits), []))
    decreases |digits|
  {
    if digits == [] {
      assert buffer + digits == buffer;
    } else {
      var d0, c := digits[..|digits| - 1], digits[|digits| - 1];
      assert AllDigits(d0) && IsDigit(c);
      FeedEndDigits(start, buffer, d0);
      assert buffer + d0 + [c] == buffer + digits;
      var none: seq<ProductRange> := [];
      assert none + Emitted(None) == none;
    }
  }

  /** A carriage return while reading an end number changes nothing. */
  lemma CarriageReturnIgnored(start: string, buffer: string)
    ensures Feed(ReadingEnd(start, buffer), "\r") == Ok((ReadingEnd(start, buffer), []))
  {
    FeedOne(ReadingEnd(start, buffer), '\r');
  }

  /** What may close a range: `,` (more ranges follow) or a line feed (the last one). */
  predicate IsTerminator(c: char) {
    c == ',' || c == '\n'
  }

  function AfterTerminator(c: char): ReaderState {
    if c == ',' then ReadingStart("") else DoneReading
  }

  /** One range `a-b` and its terminator, from the empty start state, return exactly that range. */
  lemma FeedRange(a: string, b: string, sep: char)
    requires a != [] && AllDigits(a) && DigitsValue(a) <= Text.I64_MAX
    requires b != [] && AllDigits(b) && DigitsValue(b) <= Text.I64_MAX
    requires IsTerminator(sep)
    ensures Feed(ReadingStart(""), a + "-" + b + [sep])
         == Ok((AfterTerminator(sep), [ProductRange(DigitsValue(a), DigitsValue(b))]))
  {
    var none: seq<ProductRange> := [];
    var range := ProductRange(DigitsValue(a), DigitsValue(b));
    FeedStartDigits("", a);
    assert "" + a == a;
    FeedOne(ReadingStart(a), '-');
    FeedChain(ReadingStart(""), a, "-", ReadingStart(a), none, ReadingEnd(a, ""), none);
    FeedEndDigits(a, "", b);
    assert "" + b == b;
    FeedChain(ReadingStart(""), a + "-", b, ReadingEnd(a, ""), none, ReadingEnd(a, b), none);
    Text.ParseDigits(a, Text.I64_MIN, Text.I64_MAX);
    Text.ParseDigits(b, Text.I64_MIN, Text.I64_MAX);
    assert ParseRange(a, b) == Ok(range);
    FeedOne(ReadingEnd(a, b), sep);
    FeedChain(ReadingStart(""), a + "-" + b, [sep], ReadingEnd(a, b), none, AfterTerminator(sep), [range]);
    assert none + none == none && none + [range] == [range];
  }

  /** Ranges whose bounds the reader can read back: digits only, within `i64`. */
  predicate Readable(r: ProductRange) {
    0 <= r.start <= Text.I64_MAX && 0 <= r.end <= Text.I64_MAX
  }

  /** The text of one range: its two bounds in decimal, joined by `-`. */
  function EncodeRange(r: ProductRange): string
    requires Readable(r)
  {
    ToDecimal(r.start) + "-" + ToDecimal(r.end)
  }

  /** The ranges' texts joined by `,`. */
  function EncodeBody(rs: seq<ProductRange>): string
    requires |rs| >= 1 && forall i :: 0 <= i < |rs| ==> Readable(rs[i])
  {
    if |rs| == 1 then EncodeRange(rs[0])
    else EncodeBody(rs[..|rs| - 1]) + "," + EncodeRange(rs[|rs| - 1])
  }

  /** The input line for a nonempty list of ranges. */
  function Encode(rs: seq<ProductRange>): string
    requires |rs| >= 1 && forall i :: 0 <= i < |rs| ==> Readable(rs[i])
  {
    EncodeBody(rs) + "\n"
  }

  /** One encoded range and its terminator return exactly that range. */
  lemma FeedEncodedRange(r: ProductRange, sep: char)
    requires Readable(r) && IsTerminator(sep)
    ensures Feed(ReadingStart(""), EncodeRange(r) + [sep]) == Ok((AfterTerminator(sep), [r]))
  {
    var a, b := ToDecimal(r.start), ToDecimal(r.end);
    FeedRange(a, b, sep);
  }

  lemma {:induction false} FeedBody(rs: seq<ProductRange>)
    requires |rs| >= 1 && forall i :: 0 <= i < |rs| ==> Readable(rs[i])
    ensures Feed(ReadingStart(""), EncodeBody(rs) + ",") == Ok((ReadingStart(""), rs))
  {
    if |rs| == 1 {
      FeedEncodedRange(rs[0], ',');
      assert [rs[0]] == rs;
    } else {
      var prefix, last := rs[..|rs| - 1], rs[|rs| - 1];
      FeedBody(prefix);
      FeedEncodedRange(last, ',');
      FeedChain(ReadingStart(""), EncodeBody(prefix) + ",", EncodeRange(last) + ",",
        ReadingStart(""), prefix, ReadingStart(""), [last]);
      Seqs.LastSplit(rs);
      BodyRegroup(EncodeBody(prefix), EncodeRange(last), ',');
    }
  }

  lemma BodyRegroup(head: string, last: string, sep: char)
    ensures head + "," + last + [sep] == (head + ",") + (last + [sep])
  {
  }

  /** Round trip: reading the input line for any nonempty list of readable ranges returns
      exactly those ranges, in order, and ends in `DoneReading`. */
  lemma FeedEncode(rs: seq<ProductRange>)
    requires |rs| >= 1 && forall i :: 0 <= i < |rs| ==> Readable(rs[i])
    ensures Feed(ReadingStart(""), Encode(rs)) == Ok((DoneReading, rs))
  {
    if |rs| == 1 {
      FeedEncodedRange(rs[0], '\n');
      assert [rs[0]] == rs;
    } else {
      var prefix, last := rs[..|rs| - 1], rs[|rs| - 1];
      FeedBody(prefix);
      FeedEncodedRange(last, '\n');
      FeedChain(ReadingStart(""), EncodeBody(prefix) + ",", EncodeRange(last) + "\n",
        ReadingStart(""), prefix, DoneReading, [last]);
      Seqs.LastSplit(rs);
      BodyRegroup(EncodeBody(prefix), EncodeRange(last), '\n');
    }
  }

  /** The line `4000-4045\n` returns exactly one range, from 4000 to 4045. */
  lemma ReadExample()
    ensures Feed(ReadingStart(""), "4000" + "-" + "4045" + "\n") == Ok((DoneReading, [ProductRange(4000, 4045)]))
  {
    ExampleValues("4000", "4045");
    FeedRange("4000", "4045", '\n');
  }

  lemma ExampleValues(a: string, b: string)
    requires a == "4000" && b == "4045"
    ensures AllDigits(a) && DigitsValue(a) == 4000
    ensures AllDigits(b) && DigitsValue(b) == 4045
  {
    assert a[..3] == "400" && "400"[..2] == "40" && "40"[..1] == "4";
    assert b[..3] == "404" && "404"[..2] == "40";
  }

  /** `,` and a line feed after `1009-1011` both return the range from 1009 to 1011. */
  lemma ReadEndExamples(start: string, end: string)
    requires start == "1009" && end == "1011"
    ensures ReadEnd(',', start, end) == Ok((ReadingStart(""), Some(ProductRange(1009, 1011))))
    ensures ReadEnd('\n', start, end) == Ok((DoneReading, Some(ProductRange(1009, 1011))))
  {
    assert start[..3] == "100" && "100"[..2] == "10" && "10"[..1] == "1";
    assert end[..3] == "101" && "101"[..2] == "10";
    Text.ParseDigits(start, Text.I64_MIN, Text.I64_MAX);
    Text.ParseDigits(end, Text.I64_MIN, Text.I64_MAX);
  }

  /** Nothing can be read after the final line feed. */
  lemma DoneRejectsInput(s: string)
    requires s != []
    ensures Feed(DoneReading, s) == Err(DataAfterEnd)
  {
    assert Feed(DoneReading, [s[0]]) == Err(DataAfterEnd) by {
      assert [s[0]][..0] == [];
    }
    FeedErrorSticks(DoneReading, [s[0]], s[1..]);
    assert [s[0]] + s[1..] == s;
  }

  // ---------------------------------------------------------------------------
  // Repeated segments

  /** `pow10`: ten to the `exponent` by repeated multiplication (1 for `exponent <= 0`,
      since the loop then does not run). */
  method Pow10(exponent: int) returns (num: int)
    ensures num == if exponent <= 0 then 1 else Exp10(exponent)
  {
    num := 1;
    var k := 1;
    while k <= exponent
      invariant 1 <= k <= if exponent >= 0 then exponent + 1 else 1
      invariant num == Exp10(k - 1)
    {
      num := num * 10;
      k := k + 1;
    }
  }

  /** `segment` repeated `r` times. */
  function Repeat(segment: string, r: nat): (s: string)
    ensures |s| == |segment| * r
  {
    if r == 0 then "" else Repeat(segment, r - 1) + segment
  }

  /** The factor `1 + 10^w + 10^(2w) + ... + 10^((r-1)w)`, built like the part 2 loop does. */
  function Rep(w: nat, r: nat): (factor: nat)
    ensures r >= 1 ==> factor >= 1
  {
    if r == 0 then 0 else Rep(w, r - 1) * Exp10(w) + 1
  }

  /** A decimal string that is its first `seg` characters repeated at least twice. */
  predicate RepeatsSegment(d: string, seg: nat) {
    0 < seg <= |d| && |d| % seg == 0 && |d| / seg >= 2 && d == Repeat(d[..seg], |d| / seg)
  }

  /** A decimal string made of two equal halves. */
  predicate RepeatedTwice(d: string) {
    |d| % 2 == 0 && d[..|d| / 2] == d[|d| / 2..]
  }

  lemma MulRegroup(h: int, rep: int, p: int)
    ensures h * rep * p + h == h * (rep * p + 1)
  {
  }

  /** The value of a repeated segment is the segment's value times the repeat factor. */
  lemma {:induction false} RepeatValue(h: string, r: nat)
    requires AllDigits(h)
    ensures AllDigits(Repeat(h, r))
    ensures DigitsValue(Repeat(h, r)) == DigitsValue(h) * Rep(|h|, r)
  {
    if r > 0 {
      RepeatValue(h, r - 1);
      DigitsValueConcat(Repeat(h, r - 1), h);
      MulRegroup(DigitsValue(h), Rep(|h|, r - 1), Exp10(|h|));
    }
  }

  /** The repeat factor times `10^w - 1` is `10^(w*r) - 1`. */
  lemma {:induction false} RepTimesNines(w: nat, r: nat)
    ensures Rep(w, r) * (Exp10(w) - 1) == Exp10(w * r) - 1
  {
    if r > 0 {
      RepTimesNines(w, r - 1);
      Exp10Add(w * (r - 1), w);
      assert w * (r - 1) + w == w * r;
      NinesStep(Rep(w, r - 1), Exp10(w), Exp10(w * (r - 1)));
    }
  }

  lemma NinesStep(a: int, p: int, e: int)
    requires a * (p - 1) == e - 1
    ensures (a * p + 1) * (p - 1) == e * p - 1
  {
    assert (a * p + 1) * (p - 1) == a * (p - 1) * p + (p - 1);
  }

  /** A value below `10^(w*r)` divisible by the repeat factor has a quotient of at most
      `w` digits. */
  lemma QuotientFits(v: nat, w: nat, r: nat)
    requires r >= 1 && v < Exp10(w * r) && v % Rep(w, r) == 0
    ensures v / Rep(w, r) < Exp10(w) && v == v / Rep(w, r) * Rep(w, r)
  {
    RepTimesNines(w, r);
    Arith.MultipleQuotientBound(v, Rep(w, r), Exp10(w));
  }

  /** A string of `w * r` digits whose value is `q * Rep(w, r)` with `q` of at most `w` digits is
      the `w`-digit rendering of `q` repeated `r` times: equal values of equal length are equal
      strings. */
  lemma RepeatedFromQuotient(d: string, w: nat, r: nat, q: nat)
    requires AllDigits(d) && w >= 1 && r >= 1 && |d| == w * r
    requires q < Exp10(w) && DigitsValue(d) == q * Rep(w, r)
    ensures d == Repeat(d[..w], r)
  {
    var h := Pad(q, w);
    RepeatValue(h, r);
    DigitsValueInjective(Repeat(h, r), d);
    RepeatPrefix(h, r);
  }

  /** A string of `w * r` digits whose value is divisible by the repeat factor is a `w`-digit
      segment repeated `r` times. */
  lemma RepeatedIfDivisible(d: string, w: nat, r: nat)
    requires AllDigits(d) && w >= 1 && r >= 1 && |d| == w * r
    requires DigitsValue(d) % Rep(w, r) == 0
    ensures d == Repeat(d[..w], r)
  {
    QuotientFits(DigitsValue(d), w, r);
    RepeatedFromQuotient(d, w, r, DigitsValue(d) / Rep(w, r));
  }

  /** A segment repeated `r` times has a value divisible by the repeat factor. */
  lemma DivisibleIfRepeated(h: string, r: nat)
    requires AllDigits(h) && |h| >= 1 && r >= 1
    ensures AllDigits(Repeat(h, r)) && DigitsValue(Repeat(h, r)) % Rep(|h|, r) == 0
  {
    RepeatValue(h, r);
    Arith.MultipleMod(DigitsValue(h), Rep(|h|, r));
  }

  /** A string of `w * r` digits has a value divisible by the repeat factor exactly when it is
      one `w`-digit segment repeated `r` times. */
  lemma DigitsDivisibleIffRepeated(d: string, w: nat, r: nat)
    requires AllDigits(d) && w >= 1 && r >= 1 && |d| == w * r
    ensures DigitsValue(d) % Rep(w, r) == 0 <==> w <= |d| && d == Repeat(d[..w], r)
  {
    Arith.MulAtLeast(w, r);
    if DigitsValue(d) % Rep(w, r) == 0 {
      RepeatedIfDivisible(d, w, r);
    }
    var h := d[..w];
    if d == Repeat(h, r) {
      DivisibleIfRepeated(h, r);
    }
  }

  /** The heart of both tests: an id whose digit count is `w * r` is divisible by the repeat
      factor exactly when its decimal digits are one `w`-digit segment repeated `r` times. */
  lemma DivisibleIffRepeated(id: nat, w: nat, r: nat)
    requires w >= 1 && r >= 1 && DigitCount(id) == w * r
    ensures id % Rep(w, r) == 0 <==> w <= DigitCount(id) && ToDecimal(id) == Repeat(ToDecimal(id)[..w], r)
  {
    DigitsDivisibleIffRepeated(ToDecimal(id), w, r);
  }

  /** The first `|h|` characters of a repetition of `h` are `h`. */
  lemma {:induction false} RepeatPrefix(h: string, r: nat)
    requires r >= 1
    ensures Repeat(h, r)[..|h|] == h
  {
    if r > 1 {
      RepeatPrefix(h, r - 1);
      assert |Repeat(h, r - 1)| >= |h| by {
        assert |Repeat(h, r - 1)| == |h| * (r - 1);
      }
      assert (Repeat(h, r - 1) + h)[..|h|] == Repeat(h, r - 1)[..|h|];
    } else {
      assert Repeat(h, 1) == "" + h;
    }
  }

  /** Two halves is a segment repeated twice. */
  lemma TwiceIsRepeat(d: string)
    requires |d| >= 2 && |d| % 2 == 0
    ensures RepeatedTwice(d) <==> d == Repeat(d[..|d| / 2], 2)
  {
    var h := d[..|d| / 2];
    assert Repeat(h, 2) == "" + h + h;
    assert "" + h + h == h + h;
    assert d == h + d[|d| / 2..];
  }

  /** `is_valid_product_part1`: an id is invalid exactly when its decimal digits are a half
      repeated twice; in particular every id with an odd digit count is valid. */
  function IsValidProductPart1(id: int): (valid: bool)
    requires id > 0
    ensures valid <==> !RepeatedTwice(ToDecimal(id))
    ensures DigitCount(id) % 2 != 0 ==> valid
  {
    var length := DigitCount(id);
    if length % 2 != 0 then
      true
    else
      var factor := Exp10(length / 2) + 1;
      assert factor == Rep(length / 2, 2) && length == (length / 2) * 2 by {
        assert Rep(length / 2, 1) == 1;
      }
      DivisibleIffRepeated(id, length / 2, 2);
      TwiceIsRepeat(ToDecimal(id));
      id % factor != 0
  }

  /** 22, 2020 and 123123 are invalid. */
  lemma Part1Examples()
    ensures !IsValidProductPart1(22) && !IsValidProductPart1(2020) && !IsValidProductPart1(123123)
  {
    DigitCountIs(22, 2);
    DigitCountIs(2020, 4);
    DigitCountIs(123123, 6);
  }

  lemma DigitCountIs(n: nat, k: nat)
    requires k >= 1 && Exp10(k - 1) <= n < Exp10(k)
    ensures DigitCount(n) == k
  {
    var c := DigitCount(n);
    if c < k {
      Exp10Monotonic(c, k - 1);
    } else if c > k {
      Exp10Monotonic(k, c - 1);
    }
  }

  /** Some segment length from `seg` to 9 repeats. */
  predicate RepeatsSegmentFrom(d: string, seg: nat)
    decreases 10 - seg
  {
    seg < 10 && (RepeatsSegment(d, seg) || RepeatsSegmentFrom(d, seg + 1))
  }

  /** `RepeatsSegmentFrom` is the bounded existential it stands for. */
  lemma {:induction false} RepeatsSegmentFromExists(d: string, seg: nat)
    ensures RepeatsSegmentFrom(d, seg) <==> exists s :: seg <= s < 10 && RepeatsSegment(d, s)
    decreases 10 - seg
  {
    if seg < 10 {
      RepeatsSegmentFromExists(d, seg + 1);
      if RepeatsSegmentFrom(d, seg) && RepeatsSegment(d, seg) {
        assert seg <= seg < 10 && RepeatsSegment(d, seg);
      }
    }
  }

  /** Some segment length below ten repeats. */
  predicate RepeatsShortSegment(d: string) {
    RepeatsSegmentFrom(d, 1)
  }

  /** The ids part 2 rejects. */
  predicate InvalidPart2(id: int) {
    id >= 1 && RepeatsShortSegment(ToDecimal(id))
  }

  /** What part 2 tests for one segment length: the digit count splits into at least two
      segments of that length, and the id is divisible by their repeat factor. */
  lemma SegmentTest(id: nat, seg: nat)
    requires id > 0 && seg >= 1
    ensures RepeatsSegment(ToDecimal(id), seg)
        <==> DigitCount(id) % seg == 0 && DigitCount(id) / seg >= 2 && id % Rep(seg, DigitCount(id) / seg) == 0
  {
    var length := DigitCount(id);
    if length % seg == 0 && length / seg >= 2 {
      Arith.SegmentBound(length, seg);
      DivisibleIffRepeated(id, seg, length / seg);
    }
  }

  /** The inner loop of `is_valid_product_part2`: the factor whose multiples below
      `10^(segment * repetitions)` are one segment repeated `repetitions` times. */
  method RepeatFactor(segment: nat, repetitions: nat) returns (factor: nat)
    requires repetitions >= 1
    ensures factor == Rep(segment, repetitions)
  {
    factor := 1;
    var k := 1;
    while k < repetitions
      invariant 1 <= k <= repetitions && factor == Rep(segment, k)
    {
      var p := Pow10(segment);
      factor := factor * p;
      factor := factor + 1;
      k := k + 1;
    }
  }

  /** `is_valid_product_part2`: an id is invalid exactly when, for some segment length from
      1 to 9, its decimal digits are one segment repeated at least twice. */
  method IsValidProductPart2(id: int) returns (valid: bool)
    requires id > 0
    ensures valid <==> !InvalidPart2(id)
  {
    var length := DigitCount(id);
    ghost var d := ToDecimal(id);
    var segment: nat := 1;
    while segment < 10
      invariant 1 <= segment <= 10
      invariant RepeatsSegmentFrom(d, 1) <==> RepeatsSegmentFrom(d, segment)
    {
      if length % segment != 0 {
        SegmentTest(id, segment);
        segment := segment + 1;
        continue;
      }
      var repetitions: nat := length / segment;
      if repetitions <= 1 {
        SegmentTest(id, segment);
        segment := segment + 1;
        continue;
      }
      var factor := RepeatFactor(segment, repetitions);
      SegmentTest(id, segment);
      if id % factor == 0 {
        return false;
      }
      segment := segment + 1;
    }
    valid := true;
  }

  lemma Exp10Nineteen()
    ensures Exp10(19) == 10000000000000000000
  {
    assert Exp10(1) == 10;
    assert Exp10(2) == 100;
    assert Exp10(3) == 1000;
    assert Exp10(6) == 1000000 by {
      Exp10Add(3, 3);
    }
    assert Exp10(12) == 1000000000000 by {
      Exp10Add(6, 6);
    }
    assert Exp10(18) == 1000000000000000000 by {
      Exp10Add(12, 6);
    }
  }

  /** Within `i64`, ids have at most 19 digits, so every repeated segment is shorter than ten
      and part 2's bound misses none. */
  lemma ShortSegmentsSuffice(id: nat, seg: nat)
    requires 0 < id <= Text.I64_MAX && RepeatsSegment(ToDecimal(id), seg)
    ensures RepeatsShortSegment(ToDecimal(id))
  {
    var length := DigitCount(id);
    if length >= 20 {
      Exp10Monotonic(19, length - 1);
      Exp10Nineteen();
      assert false;
    }
    Arith.SegmentBound(length, seg);
    RepeatsSegmentFromExists(ToDecimal(id), 1);
  }

  /** A half repeated twice is a repeated segment, so every id part 1 rejects, part 2
      rejects too (halves of at most nine digits, which every `i64` id has). */
  lemma Part1InvalidIsPart2Invalid(id: nat)
    requires 0 < id <= Text.I64_MAX && !IsValidProductPart1(id)
    ensures RepeatsShortSegment(ToDecimal(id))
  {
    var d := ToDecimal(id);
    var half := |d| / 2;
    TwiceIsRepeat(d);
    Arith.ModUnique(|d|, half, 2, 0);
    assert RepeatsSegment(d, half);
    ShortSegmentsSuffice(id, half);
  }

  /** The ids of `[start, end]` that `keep` selects, in increasing order. */
  function Select(start: int, end: int, keep: int -> bool): seq<int>
    decreases end - start
  {
    if end < start then [] else Select(start, end - 1, keep) + (if keep(end) then [end] else [])
  }

  /** The selected ids are strictly increasing and are exactly the ids of the range that `keep`
      selects. */
  lemma {:induction false} SelectExact(start: int, end: int, keep: int -> bool)
    ensures forall i, j :: 0 <= i < j < |Select(start, end, keep)| ==> Select(start, end, keep)[i] < Select(start, end, keep)[j]
    ensures forall x :: x in Select(start, end, keep) <==> start <= x <= end && keep(x)
    decreases end - start
  {
    if end >= start {
      SelectExact(start, end - 1, keep);
      var ids0 := Select(start, end - 1, keep);
      var tail := if keep(end) then [end] else [];
      assert Select(start, end, keep) == ids0 + tail;
      AppendAbove(ids0, tail, end);
    }
  }

  /** Strictly increasing ids that are exactly the ids of the range that `keep` selects are
      the selection. */
  lemma {:induction false} SelectIs(start: int, end: int, keep: int -> bool, picks: seq<int>)
    requires forall i, j :: 0 <= i < j < |picks| ==> picks[i] < picks[j]
    requires forall x :: x in picks <==> start <= x <= end && keep(x)
    ensures Select(start, end, keep) == picks
    decreases end - start
  {
    if end < start {
      Seqs.FirstIn(picks);
    } else {
      var n := |picks|;
      if keep(end) {
        assert end in picks;
        var k :| 0 <= k < n && picks[k] == end;
        assert picks[n - 1] in picks;
        assert k == n - 1;
        var init := picks[..n - 1];
        forall x
          ensures x in init <==> start <= x <= end - 1 && keep(x)
        {
          if x in init {
            var i :| 0 <= i < n - 1 && init[i] == x;
            assert picks[i] == x && picks[i] < picks[n - 1];
            assert picks[i] in picks;
          }
          if start <= x <= end - 1 && keep(x) {
            var i :| 0 <= i < n && picks[i] == x;
            assert i != n - 1;
            assert init[i] == x;
          }
        }
        SelectIs(start, end - 1, keep, init);
        assert picks == init + [end];
      } else {
        SelectIs(start, end - 1, keep, picks);
      }
    }
  }

  /** One more id at the top of the range is selected exactly when `keep` holds for it. */
  lemma SelectNext(start: int, id: int, keep: int -> bool, kept: bool, selected: seq<int>)
    requires start <= id && kept == keep(id) && selected == Select(start, id - 1, keep)
    ensures Select(start, id, keep) == selected + (if kept then [id] else [])
  {
  }

  /** Appending ids no smaller than `top` to strictly increasing ids below it. */
  lemma AppendAbove(ids: seq<int>, tail: seq<int>, top: int)
    requires forall i, j :: 0 <= i < j < |ids| ==> ids[i] < ids[j]
    requires forall x :: x in ids ==> x < top
    requires tail == [] || tail == [top]
    ensures forall i, j :: 0 <= i < j < |ids + tail| ==> (ids + tail)[i] < (ids + tail)[j]
    ensures forall x :: x in ids + tail <==> x in ids || x in tail
  {
    if tail == [top] {
      forall i, j | 0 <= i < j < |ids + tail|
        ensures (ids + tail)[i] < (ids + tail)[j]
      {
        if j == |ids| {
          assert ids[i] in ids;
        }
      }
    }
  }

  /** The ids part 1 rejects. */
  predicate InvalidPart1(id: int) {
    id >= 1 && !IsValidProductPart1(id)
  }

  /** An id with `2 * half` digits is rejected by part 1 exactly when it is divisible by
      `10^half + 1`. */
  lemma InvalidPart1Digits(id: int, half: nat)
    requires id >= 1 && half >= 1 && DigitCount(id) == half + half
    ensures InvalidPart1(id) <==> id % (Exp10(half) + 1) == 0
  {
  }

  /** A two-digit id is rejected by part 1 exactly when it is a multiple of 11. */
  lemma TwoDigitInvalid(x: int)
    requires 10 <= x <= 99
    ensures InvalidPart1(x) <==> x % 11 == 0
  {
    DigitCountIs(x, 2);
    InvalidPart1Digits(x, 1);
  }

  /** A four-digit id is rejected by part 1 exactly when it is a multiple of 101. */
  lemma FourDigitInvalid(x: int)
    requires 1000 <= x <= 9999
    ensures InvalidPart1(x) <==> x % 101 == 0
  {
    assert Exp10(2) == 100;
    DigitCountIs(x, 4);
    InvalidPart1Digits(x, 2);
  }

  /** From 10 to 25 part 1 rejects 11 and 22. */
  lemma FindInvalidPart1ExampleTwoDigits(start: int, end: int)
    requires start == 10 && end == 25
    ensures Select(start, end, InvalidPart1) == [11, 22]
  {
    forall x
      ensures x in [11, 22] <==> start <= x <= end && InvalidPart1(x)
    {
      if start <= x <= end {
        TwoDigitExampleId(x);
      }
    }
    SelectIs(start, end, InvalidPart1, [11, 22]);
  }

  lemma TwoDigitExampleId(x: int)
    requires 10 <= x <= 25
    ensures InvalidPart1(x) <==> x in [11, 22]
  {
    TwoDigitInvalid(x);
    var q := if x < 11 then 0 else if x < 22 then 1 else 2;
    Arith.ModUnique(x, 11, q, x - 11 * q);
  }

  /** From 1000 to 1234 part 1 rejects 1010, 1111 and 1212. */
  lemma FindInvalidPart1ExampleFourDigits(start: int, end: int)
    requires start == 1000 && end == 1234
    ensures Select(start, end, InvalidPart1) == [1010, 1111, 1212]
  {
    forall x
      ensures x in [1010, 1111, 1212] <==> start <= x <= end && InvalidPart1(x)
    {
      if start <= x <= end {
        FourDigitExampleId(x);
      }
    }
    SelectIs(start, end, InvalidPart1, [1010, 1111, 1212]);
  }

  lemma FourDigitExampleId(x: int)
    requires 1000 <= x <= 1234
    ensures InvalidPart1(x) <==> x in [1010, 1111, 1212]
  {
    FourDigitInvalid(x);
    var q := if x < 1010 then 9 else if x < 1111 then 10 else if x < 1212 then 11 else 12;
    Arith.ModUnique(x, 101, q, x - 101 * q);
  }

  /** `find_invalid_products_part1`: every id of the range that part 1 rejects, in increasing
      order. */
  method FindInvalidProductsPart1(products: ProductRange) returns (result: seq<int>)
    requires products.start >= 1
    ensures result == Select(products.start, products.end, InvalidPart1)
  {
    result := [];
    var id := products.start;
    while id <= products.end
      invariant products.start <= id <= if products.start <= products.end then products.end + 1 else products.start
      invariant result == Select(products.start, id - 1, InvalidPart1)
    {
      if !IsValidProductPart1(id) {
        result := result + [id];
      }
      id := id + 1;
    }
  }

  /** `find_invalid_products_part2`: every id of the range that part 2 rejects, in increasing
      order. */
  method FindInvalidProductsPart2(products: ProductRange) returns (result: seq<int>)
    requires products.start >= 1
    ensures result == Select(products.start, products.end, InvalidPart2)
  {
    result := [];
    var id := products.start;
    while id <= products.end
      invariant products.start <= id <= if products.start <= products.end then products.end + 1 else products.start
      invariant result == Select(products.start, id - 1, InvalidPart2)
    {
      var valid := IsValidProductPart2(id);
      SelectNext(products.start, id, InvalidPart2, !valid, result);
      if !valid {
        result := result + [id];
      }
      id := id + 1;
    }
    assert id - 1 == products.end || Select(products.start, products.end, InvalidPart2) == [] == result;
  }
}
