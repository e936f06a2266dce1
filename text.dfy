/** The parts of Rust's `str` API the puzzles use: `split`, `lines` and
    `parse` for the integer types. Characters stand for bytes: every input is ASCII. */
module Text {
  import opened Wrappers
  import opened Decimal
  import Seqs

  const I32_MIN: int := -0x8000_0000
  const I32_MAX: int := 0x7FFF_FFFF
  const I64_MIN: int := -0x8000_0000_0000_0000
  const I64_MAX: int := 0x7FFF_FFFF_FFFF_FFFF
  const USIZE_MAX: int := 0xFFFF_FFFF_FFFF_FFFF

  /** `s.parse::<T>()` for an integer type `T` whose values are `lo..=hi`: an optional
      sign ('+', and '-' only for signed types) followed by at least one decimal
      digit, leading zeros allowed, and the value must fit the type. */
  function ParseInt(s: string, lo: int, hi: int): (r: Option<int>)
    ensures r.Some? ==> lo <= r.value <= hi
  {
    var negative := |s| > 0 && s[0] == '-' && lo < 0;
    var digits := if |s| > 0 && (s[0] == '+' || negative) then s[1..] else s;
    if digits == [] || !AllDigits(digits) then None
    else
      var v: int := if negative then 0 - DigitsValue(digits) as int else DigitsValue(digits);
      if lo <= v <= hi then Some(v) else None
  }

  /** A string of plain digits parses to its value whenever that value fits. */
  lemma ParseDigits(s: string, lo: int, hi: int)
    requires s != [] && AllDigits(s)
    ensures ParseInt(s, lo, hi) == if lo <= DigitsValue(s) <= hi then Some(DigitsValue(s)) else None
  {
    assert IsDigit(s[0]);
  }

  /** Rendering an integer in decimal (with '-' when negative) and parsing it back gives the integer. */
  lemma ParseRendered(n: int, lo: int, hi: int)
    requires lo <= n <= hi
    ensures ParseInt(Render(n), lo, hi) == Some(n)
  {
    var s := Render(n);
    if n >= 0 {
      ParseDigits(ToDecimal(n), lo, hi);
    } else {
      var d := ToDecimal(-n);
      assert s == "-" + d && s[0] == '-' && s[1..] == d;
      assert d != [] && AllDigits(d) && DigitsValue(d) == -n;
    }
  }

  /** The decimal rendering of an integer, the way `to_string` writes it. */
  function Render(n: int): (s: string)
    ensures s != []
  {
    if n >= 0 then ToDecimal(n) else "-" + ToDecimal(-n)
  }

  /** A rendered integer holds only digits and '-', so any other character separates it. */
  lemma RenderWithout(n: int, c: char)
    requires !IsDigit(c) && c != '-'
    ensures c !in Render(n)
  {
    var d := ToDecimal(if n >= 0 then n else -n);
    DigitsWithout(d, c);
    if n < 0 {
      assert Render(n) == "-" + d;
    }
  }

  lemma DigitsWithout(d: string, c: char)
    requires AllDigits(d) && !IsDigit(c)
    ensures c !in d
  {
    forall i | 0 <= i < |d|
      ensures d[i] != c
    {
      assert IsDigit(d[i]);
    }
  }

  /** `s.split(sep)` for a character separator: the pieces between separators,
      always at least one (the empty string gives one empty piece). */
  function Split(s: string, sep: char): (pieces: seq<string>)
    ensures |pieces| >= 1
    ensures forall i :: 0 <= i < |pieces| ==> sep !in pieces[i]
    decreases |s|
  {
    if s == [] then [""]
    else if s[0] == sep then [""] + Split(s[1..], sep)
    else
      var rest := Split(s[1..], sep);
      [[s[0]] + rest[0]] + rest[1..]
  }

  /** The inverse of `Split`: the pieces with the separator between them. */
  function Join(pieces: seq<string>, sep: char): string
    requires |pieces| >= 1
  {
    if |pieces| == 1 then pieces[0] else pieces[0] + [sep] + Join(pieces[1..], sep)
  }

  lemma {:induction false} JoinSplit(s: string, sep: char)
    ensures Join(Split(s, sep), sep) == s
    decreases |s|
  {
    if s != [] {
      JoinSplit(s[1..], sep);
      var rest := Split(s[1..], sep);
      if s[0] != sep && |rest| > 1 {
        assert rest == [rest[0]] + rest[1..];
        assert [[s[0]] + rest[0]] + rest[1..] == [[s[0]] + rest[0]] + rest[1..];
        assert Join(rest, sep) == rest[0] + [sep] + Join(rest[1..], sep);
      }
    }
  }

  /** A piece without the separator in front of a separator splits off as one piece. */
  lemma {:induction false} SplitPiece(p: string, sep: char, rest: string)
    requires sep !in p
    ensures Split(p + [sep] + rest, sep) == [p] + Split(rest, sep)
    decreases |p|
  {
    if p == [] {
      assert p + [sep] + rest == [sep] + rest;
    } else {
      SplitPiece(p[1..], sep, rest);
      assert (p + [sep] + rest)[1..] == p[1..] + [sep] + rest;
      assert [p[0]] + p[1..] == p;
    }
  }

  /** A string without the separator is a single piece. */
  lemma {:induction false} SplitWhole(p: string, sep: char)
    requires sep !in p
    ensures Split(p, sep) == [p]
    decreases |p|
  {
    if p != [] {
      SplitWhole(p[1..], sep);
      assert [p[0]] + p[1..] == p;
    }
  }

  /** Splitting the joined pieces gives the pieces back, when no piece contains the separator. */
  lemma {:induction false} SplitJoin(pieces: seq<string>, sep: char)
    requires |pieces| >= 1
    requires forall i :: 0 <= i < |pieces| ==> sep !in pieces[i]
    ensures Split(Join(pieces, sep), sep) == pieces
  {
    if |pieces| == 1 {
      SplitWhole(pieces[0], sep);
    } else {
      SplitJoin(pieces[1..], sep);
      SplitPiece(pieces[0], sep, Join(pieces[1..], sep));
      assert [pieces[0]] + pieces[1..] == pieces;
    }
  }

  /** `s.split(sep)` for a string separator: matches are taken left to right
      without overlapping. */
  function SplitStr(s: string, sep: string): (pieces: seq<string>)
    requires |sep| > 0
    ensures |pieces| >= 1
    decreases |s|
  {
    if |sep| <= |s| && s[..|sep|] == sep then [""] + SplitStr(s[|sep|..], sep)
    else if s == [] then [""]
    else
      var rest := SplitStr(s[1..], sep);
      [[s[0]] + rest[0]] + rest[1..]
  }

  /** A piece with no character equal to the separator's first one splits off as one piece. */
  lemma {:induction false} SplitStrPiece(p: string, sep: string, rest: string)
    requires |sep| > 0
    requires sep[0] !in p
    ensures SplitStr(p + sep + rest, sep) == [p] + SplitStr(rest, sep)
    decreases |p|
  {
    var s := p + sep + rest;
    if p == [] {
      assert s == sep + rest;
      assert s[..|sep|] == sep;
      assert s[|sep|..] == rest;
    } else {
      assert s[0] == p[0];
      assert s[..|sep|][0] == p[0];
      SplitStrPiece(p[1..], sep, rest);
      assert s[1..] == p[1..] + sep + rest;
      assert [p[0]] + p[1..] == p;
    }
  }

  /** A string without the separator's first character is a single piece. */
  lemma {:induction false} SplitStrWhole(p: string, sep: string)
    requires |sep| > 0
    requires sep[0] !in p
    ensures SplitStr(p, sep) == [p]
    decreases |p|
  {
    if p != [] {
      assert |sep| <= |p| ==> p[..|sep|][0] == p[0];
      SplitStrWhole(p[1..], sep);
      assert [p[0]] + p[1..] == p;
    }
  }

  /** Drops one trailing carriage return, as `lines` does before a line feed. */
  function TrimCarriageReturn(line: string): string {
    if |line| > 0 && line[|line| - 1] == '\r' then line[..|line| - 1] else line
  }

  /** `s.lines()`: the pieces between line feeds, each without a trailing carriage
      return, and without the empty piece after a final line feed. */
  function Lines(s: string): (lines: seq<string>)
  {
    LinesOfPieces(Split(s, '\n'))
  }

  /** The lines of a text already split at its line feeds. */
  function LinesOfPieces(pieces: seq<string>): (lines: seq<string>)
    requires |pieces| >= 1
  {
    var last := pieces[|pieces| - 1];
    var terminated := seq(|pieces| - 1, i requires 0 <= i < |pieces| - 1 => TrimCarriageReturn(pieces[i]));
    terminated + (if last == "" then [] else [last])
  }

  /** Lines joined by line feeds come back from `Lines`, when none of them contains
      a line feed or ends with a carriage return and the last one is not empty. */
  lemma LinesJoin(lines: seq<string>)
    requires |lines| >= 1 && lines[|lines| - 1] != ""
    requires forall i :: 0 <= i < |lines| ==> '\n' !in lines[i]
    requires forall i :: 0 <= i < |lines| ==> TrimCarriageReturn(lines[i]) == lines[i]
    ensures Lines(Join(lines, '\n')) == lines
  {
    SplitJoin(lines, '\n');
    UntrimmedLines(lines);
  }

  lemma UntrimmedLines(lines: seq<string>)
    requires |lines| >= 1 && lines[|lines| - 1] != ""
    requires forall i :: 0 <= i < |lines| ==> TrimCarriageReturn(lines[i]) == lines[i]
    ensures LinesOfPieces(lines) == lines
  {
    var n := |lines|;
    var terminated := seq(n - 1, i requires 0 <= i < n - 1 => TrimCarriageReturn(lines[i]));
    assert terminated == lines[..n - 1];
    Seqs.LastSplit(lines);
  }
}
