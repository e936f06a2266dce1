/** Day 5: ranges of fresh ingredient ids, merged into disjoint ranges, and the
    ingredients that fall into them. */
module Day05 {
  import opened Wrappers
  import opened Decimal
  import Text

  // ---------------------------------------------------------------------------
  // Ranges

  /** `FreshIngredients`: the inclusive id range `start..=end`. */
  datatype FreshIngredients = FreshIngredients(start: int, end: int)

  /** A range whose start is not after its end; the puzzle input only has these. */
  predicate WellFormed(r: FreshIngredients) {
    r.start <= r.end
  }

  predicate AllWellFormed(s: seq<FreshIngredients>) {
    forall i :: 0 <= i < |s| ==> WellFormed(s[i])
  }

  /** `contains`. */
  predicate Contains(r: FreshIngredients, id: int) {
    r.start <= id && id <= r.end
  }

  /** The ids `lo..=hi`. */
  function Interval(lo: int, hi: int): (ids: set<int>)
    ensures forall id :: id in ids <==> lo <= id <= hi
    decreases hi - lo
  {
    if lo > hi then {} else Interval(lo, hi - 1) + {hi}
  }

  /** `lo..=hi` holds `hi - lo + 1` ids. */
  lemma {:induction false} IntervalSize(lo: int, hi: int)
    requires lo <= hi + 1
    ensures |Interval(lo, hi)| == hi - lo + 1
    decreases hi - lo
  {
    if lo <= hi {
      IntervalSize(lo, hi - 1);
      assert hi !in Interval(lo, hi - 1);
    }
  }

  /** The ids of a range: exactly the ones it contains. */
  function Ids(r: FreshIngredients): (ids: set<int>)
    ensures forall id :: id in ids <==> Contains(r, id)
  {
    Interval(r.start, r.end)
  }

  /** `intersects`, with its four clauses as written (the fourth repeats the third). */
  predicate Intersects(a: FreshIngredients, b: FreshIngredients) {
    (a.start <= b.start && b.start <= a.end)
    || (a.start <= b.end && b.end <= a.end)
    || (b.start <= a.start && a.start <= b.end)
    || (b.start <= a.start && a.start <= b.end)
  }

  /** For well-formed ranges the test is exact: two ranges intersect exactly when they share an
      id, which is when each starts no later than the other ends; so it is symmetric. */
  lemma IntersectsOverlap(a: FreshIngredients, b: FreshIngredients)
    requires WellFormed(a) && WellFormed(b)
    ensures Intersects(a, b) <==> a.start <= b.end && b.start <= a.end
    ensures Intersects(a, b) <==> exists id :: Contains(a, id) && Contains(b, id)
    ensures Intersects(a, b) <==> Intersects(b, a)
  {
    if a.start <= b.end && b.start <= a.end {
      var id := if a.start <= b.start then b.start else a.start;
      assert Contains(a, id) && Contains(b, id);
    }
  }

  /** `merge`: the smallest range holding both (the vector's last range is replaced by it). */
  function Merge(a: FreshIngredients, b: FreshIngredients): (m: FreshIngredients)
    ensures forall id :: Contains(a, id) || Contains(b, id) ==> Contains(m, id)
    ensures (WellFormed(a) || WellFormed(b)) ==> WellFormed(m)
  {
    FreshIngredients(if a.start <= b.start then a.start else b.start, if a.end >= b.end then a.end else b.end)
  }

  /** Merging two intersecting well-formed ranges adds no id that neither held. */
  lemma MergeExact(a: FreshIngredients, b: FreshIngredients, id: int)
    requires WellFormed(a) && WellFormed(b) && Intersects(a, b)
    ensures Contains(Merge(a, b), id) <==> Contains(a, id) || Contains(b, id)
  {
    IntersectsOverlap(a, b);
  }

  // ---------------------------------------------------------------------------
  // Reading the database

  datatype ParseError = NotANumber | MissingEnd

  /** `parse::<i64>()` with `unwrap`. */
  function ParseId(s: string): (r: Result<int, ParseError>)
    ensures r.Ok? <==> Text.ParseInt(s, Text.I64_MIN, Text.I64_MAX).Some?
    ensures r.Ok? ==> Text.I64_MIN <= r.value <= Text.I64_MAX
  {
    match Text.ParseInt(s, Text.I64_MIN, Text.I64_MAX)
    case None => Err(NotANumber)
    case Some(v) => Ok(v)
  }

  /** A line of the first stage: split at `'-'`, the first piece is the start and the second
      the end; pieces after the second are ignored. */
  function ParseRange(line: string): Result<FreshIngredients, ParseError> {
    var parts := Text.Split(line, '-');
    match ParseId(parts[0])
    case Err(e) => Err(e)
    case Ok(start) =>
      if |parts| < 2 then Err(MissingEnd)
      else
        match ParseId(parts[1])
        case Err(e) => Err(e)
        case Ok(end) => Ok(FreshIngredients(start, end))
  }

  /** A range written as `start-end` reads back as that range. */
  lemma ParseRangeRendered(r: FreshIngredients)
    requires 0 <= r.start <= Text.I64_MAX && 0 <= r.end <= Text.I64_MAX
    ensures ParseRange(Text.Render(r.start) + "-" + Text.Render(r.end)) == Ok(r)
  {
    var a, b := Text.Render(r.start), Text.Render(r.end);
    NoDash(a);
    NoDash(b);
    Text.SplitPiece(a, '-', b);
    Text.SplitWhole(b, '-');
    Text.ParseRendered(r.start, Text.I64_MIN, Text.I64_MAX);
    Text.ParseRendered(r.end, Text.I64_MIN, Text.I64_MAX);
  }

  lemma NoDash(s: string)
    requires AllDigits(s)
    ensures '-' !in s
  {
    forall i | 0 <= i < |s|
      ensures s[i] != '-'
    {
      assert IsDigit(s[i]);
    }
  }

  /** Every line parsed with `parse`; the first line that fails decides the error. */
  function ParseAll<T>(lines: seq<string>, parse: string -> Result<T, ParseError>): Result<seq<T>, ParseError> {
    if lines == [] then Ok([])
    else
      match ParseAll(lines[..|lines| - 1], parse)
      case Err(e) => Err(e)
      case Ok(values) =>
        match parse(lines[|lines| - 1])
        case Err(e) => Err(e)
        case Ok(v) => Ok(values + [v])
  }

  /** All the lines parse exactly when each one does, and then value `i` is line `i` parsed. */
  lemma {:induction false} ParseAllExact<T>(lines: seq<string>, parse: string -> Result<T, ParseError>)
    ensures ParseAll(lines, parse).Ok? <==> forall i :: 0 <= i < |lines| ==> parse(lines[i]).Ok?
    ensures ParseAll(lines, parse).Ok? ==>
      var values := ParseAll(lines, parse).value;
      |values| == |lines| && forall i :: 0 <= i < |lines| ==> values[i] == parse(lines[i]).value
  {
    if lines != [] {
      var prefix := lines[..|lines| - 1];
      assert forall i :: 0 <= i < |prefix| ==> prefix[i] == lines[i];
      ParseAllExact(prefix, parse);
    }
  }

  /** The values parsed from the lines, one per line. */
  lemma ParseAllValues<T>(lines: seq<string>, parse: string -> Result<T, ParseError>, values: seq<T>)
    requires ParseAll(lines, parse) == Ok(values)
    ensures |values| == |lines| && forall i :: 0 <= i < |lines| ==> parse(lines[i]) == Ok(values[i])
  {
    ParseAllExact(lines, parse);
  }

  /** An error in a prefix is the error of the whole. */
  lemma {:induction false} ParseAllErrorSticks<T>(lines: seq<string>, parse: string -> Result<T, ParseError>, k: nat)
    requires k <= |lines| && ParseAll(lines[..k], parse).Err?
    ensures ParseAll(lines, parse) == ParseAll(lines[..k], parse)
    decreases |lines| - k
  {
    if k < |lines| {
      assert lines[..k + 1][..k] == lines[..k];
      ParseAllErrorSticks(lines, parse, k + 1);
    } else {
      assert lines[..k] == lines;
    }
  }

  /** The index of the first empty line, or the number of lines when there is none. */
  function FirstEmpty(lines: seq<string>): (k: nat)
    ensures k <= |lines|
    ensures forall i :: 0 <= i < k ==> |lines[i]| > 0
    ensures k < |lines| ==> |lines[k]| == 0
  {
    if lines == [] || |lines[0]| == 0 then 0 else 1 + FirstEmpty(lines[1..])
  }

  /** The ids part of the input: the lines after the first empty one. */
  function IdLines(lines: seq<string>): seq<string> {
    var k := FirstEmpty(lines);
    if k < |lines| then lines[k + 1..] else []
  }

  datatype Database = Database(ranges: seq<FreshIngredients>, ingredients: seq<int>)

  /** The two stages of the input: the lines before the first empty line are ranges, the
      lines after it ingredient ids (a later empty line is an id that does not parse). */
  function ReadDatabase(lines: seq<string>): Result<Database, ParseError> {
    var k := FirstEmpty(lines);
    match ParseAll(lines[..k], ParseRange)
    case Err(e) => Err(e)
    case Ok(ranges) =>
      match ParseAll(IdLines(lines), ParseId)
      case Err(e) => Err(e)
      case Ok(ids) => Ok(Database(ranges, ids))
  }

  /** A database that reads has one range per line before the first empty line, read from that
      line, and one id per line after it. */
  lemma ReadDatabaseStages(lines: seq<string>, db: Database)
    requires ReadDatabase(lines) == Ok(db)
    ensures |db.ranges| == FirstEmpty(lines)
    ensures forall i :: 0 <= i < |db.ranges| ==> ParseRange(lines[i]) == Ok(db.ranges[i])
    ensures |db.ingredients| == |IdLines(lines)|
    ensures forall j :: 0 <= j < |db.ingredients| ==> ParseId(lines[FirstEmpty(lines) + 1 + j]) == Ok(db.ingredients[j])
  {
    ReadDatabaseParts(lines, db);
    RangesStage(lines, ParseRange, db.ranges);
    IdsStage(lines, ParseId, db.ingredients);
  }

  /** A database that reads is the ranges parsed from the first stage and the ids parsed from
      the second. */
  lemma ReadDatabaseParts(lines: seq<string>, db: Database)
    requires ReadDatabase(lines) == Ok(db)
    ensures ParseAll(lines[..FirstEmpty(lines)], ParseRange) == Ok(db.ranges)
    ensures ParseAll(IdLines(lines), ParseId) == Ok(db.ingredients)
  {
  }

  /** The values of the lines before the first empty one, one per line. */
  lemma RangesStage<T>(lines: seq<string>, parse: string -> Result<T, ParseError>, values: seq<T>)
    requires ParseAll(lines[..FirstEmpty(lines)], parse) == Ok(values)
    ensures |values| == FirstEmpty(lines)
    ensures forall i :: 0 <= i < |values| ==> parse(lines[i]) == Ok(values[i])
  {
    var before := lines[..FirstEmpty(lines)];
    ParseAllValues(before, parse, values);
    assert forall i :: 0 <= i < |before| ==> before[i] == lines[i];
  }

  /** The values of the lines after the first empty one, one per line. */
  lemma IdsStage<T>(lines: seq<string>, parse: string -> Result<T, ParseError>, values: seq<T>)
    requires ParseAll(IdLines(lines), parse) == Ok(values)
    ensures |values| == |IdLines(lines)|
    ensures forall j :: 0 <= j < |values| ==> parse(lines[FirstEmpty(lines) + 1 + j]) == Ok(values[j])
  {
    var k, after := FirstEmpty(lines), IdLines(lines);
    ParseAllValues(after, parse, values);
    forall j | 0 <= j < |values|
      ensures parse(lines[k + 1 + j]) == Ok(values[j])
    {
      assert after[j] == lines[k + 1 + j];
    }
  }

  datatype ReaderStage = ReadingFreshRanges | ReadingIngredients

  /** Where the reading loop stands before line `i`: in the first stage, every line so far is
      a range; in the second, the ranges are complete and the lines after the empty one are
      ids. */
  ghost predicate Reading(lines: seq<string>, i: nat, stage: ReaderStage,
                          ranges: seq<FreshIngredients>, ids: seq<int>) {
    var k := FirstEmpty(lines);
    i <= |lines|
    && (stage == ReadingFreshRanges ==>
          i <= k && ParseAll(lines[..i], ParseRange) == Ok(ranges) && ids == [])
    && (stage == ReadingIngredients ==>
          k < i && ParseAll(lines[..k], ParseRange) == Ok(ranges)
          && ParseAll(IdLines(lines)[..i - k - 1], ParseId) == Ok(ids))
  }

  /** A range line read after the ranges before it. */
  lemma RangeStep(lines: seq<string>, i: nat, ranges: seq<FreshIngredients>)
    requires i < FirstEmpty(lines) && ParseAll(lines[..i], ParseRange) == Ok(ranges)
    ensures ParseRange(lines[i]).Ok? ==> ParseAll(lines[..i + 1], ParseRange) == Ok(ranges + [ParseRange(lines[i]).value])
    ensures ParseRange(lines[i]).Err? ==> ReadDatabase(lines) == Err(ParseRange(lines[i]).error)
  {
    var k := FirstEmpty(lines);
    assert lines[..i + 1][..i] == lines[..i];
    if ParseRange(lines[i]).Err? {
      assert lines[..k][..i + 1] == lines[..i + 1];
      ParseAllErrorSticks(lines[..k], ParseRange, i + 1);
    }
  }

  /** An id line read after the ids before it. */
  lemma IdStep(lines: seq<string>, j: nat, ranges: seq<FreshIngredients>, ids: seq<int>)
    requires ParseAll(lines[..FirstEmpty(lines)], ParseRange) == Ok(ranges)
    requires j < |IdLines(lines)| && ParseAll(IdLines(lines)[..j], ParseId) == Ok(ids)
    ensures ParseId(IdLines(lines)[j]).Ok? ==> ParseAll(IdLines(lines)[..j + 1], ParseId) == Ok(ids + [ParseId(IdLines(lines)[j]).value])
    ensures ParseId(IdLines(lines)[j]).Err? ==> ReadDatabase(lines) == Err(ParseId(IdLines(lines)[j]).error)
  {
    var rest := IdLines(lines);
    assert rest[..j + 1][..j] == rest[..j];
    if ParseId(rest[j]).Err? {
      ParseAllErrorSticks(rest, ParseId, j + 1);
    }
  }

  /** The whole input read, in either stage. */
  lemma ReadDone(lines: seq<string>, stage: ReaderStage, ranges: seq<FreshIngredients>, ids: seq<int>)
    requires Reading(lines, |lines|, stage, ranges, ids)
    ensures ReadDatabase(lines) == Ok(Database(ranges, ids))
  {
    var k := FirstEmpty(lines);
    if stage == ReadingFreshRanges {
      assert lines[..|lines|] == lines[..k];
    } else {
      assert IdLines(lines)[..|lines| - k - 1] == IdLines(lines);
    }
  }

  /** The first empty line met while reading ranges ends them. */
  lemma SwitchStage(lines: seq<string>, i: nat)
    requires i <= FirstEmpty(lines) && i < |lines| && |lines[i]| == 0
    ensures i == FirstEmpty(lines) && IdLines(lines) == lines[i + 1..]
  {}

  /** A line that is not empty, met while reading ranges, is a range line. */
  lemma StillRanges(lines: seq<string>, i: nat)
    requires i <= FirstEmpty(lines) && i < |lines| && |lines[i]| > 0
    ensures i < FirstEmpty(lines)
  {}

  /** `main` reading `code.lines()`. */
  method ReadInput(input: string) returns (result: Result<Database, ParseError>)
    ensures result == ReadDatabase(Text.Lines(input))
  {
    result := ReadLines(Text.Lines(input));
  }

  /** The reading loop of `main`, one line at a time in two stages. */
  method ReadLines(lines: seq<string>) returns (result: Result<Database, ParseError>)
    ensures result == ReadDatabase(lines)
  {
    var freshStorage: seq<FreshIngredients> := [];
    var ingredients: seq<int> := [];
    var readerStage := ReadingFreshRanges;
    for i := 0 to |lines|
      invariant Reading(lines, i, readerStage, freshStorage, ingredients)
    {
      var error;
      error, readerStage, freshStorage, ingredients := ReadLine(lines, i, readerStage, freshStorage, ingredients);
      if error.Some? {
        return Err(error.value);
      }
    }
    ReadDone(lines, readerStage, freshStorage, ingredients);
    return Ok(Database(freshStorage, ingredients));
  }

  /** One turn of the reading loop: the empty line switches stages, any other line is
      parsed as a range or an id, and a line that does not parse is the input's error. */
  method ReadLine(lines: seq<string>, i: nat, stage: ReaderStage,
                  ranges: seq<FreshIngredients>, ids: seq<int>)
    returns (error: Option<ParseError>, stage': ReaderStage, ranges': seq<FreshIngredients>, ids': seq<int>)
    requires i < |lines| && Reading(lines, i, stage, ranges, ids)
    ensures error.None? ==> Reading(lines, i + 1, stage', ranges', ids')
    ensures error.Some? ==> ReadDatabase(lines) == Err(error.value)
  {
    var line := lines[i];
    error, stage', ranges', ids' := None, stage, ranges, ids;
    if stage == ReadingFreshRanges {
      if |line| == 0 {
        SwitchStage(lines, i);
        stage' := ReadingIngredients;
        return;
      }
      StillRanges(lines, i);
      RangeStep(lines, i, ranges);
      var range := ParseRange(line);
      if range.Err? {
        error := Some(range.error);
        return;
      }
      ranges' := ranges + [range.value];
    } else {
      var k := FirstEmpty(lines);
      assert IdLines(lines)[i - k - 1] == line;
      IdStep(lines, i - k - 1, ranges, ids);
      var id := ParseId(line);
      if id.Err? {
        error := Some(id.error);
        return;
      }
      ids' := ids + [id.value];
    }
  }


  // ---------------------------------------------------------------------------
  // Sorting by start

  /** Ordered by start, as the comparator of `sort_by` orders them. */
  predicate SortedByStart(s: seq<FreshIngredients>) {
    forall i, j :: 0 <= i < j < |s| ==> s[i].start <= s[j].start
  }

  /** `x` placed after every range that does not start later. */
  function Insert(sorted: seq<FreshIngredients>, x: FreshIngredients): (r: seq<FreshIngredients>)
    requires SortedByStart(sorted)
    ensures SortedByStart(r) && multiset(r) == multiset(sorted) + multiset{x}
    ensures r != [] && (r[0] == x || (sorted != [] && r[0] == sorted[0]))
  {
    if sorted == [] then [x]
    else if x.start < sorted[0].start then [x] + sorted
    else
      var rest := Insert(sorted[1..], x);
      assert sorted == [sorted[0]] + sorted[1..];
      [sorted[0]] + rest
  }

  /** `fresh_storage.sort_by(...)`, a stable sort by start: the ranges as a sorted permutation. */
  function SortByStart(s: seq<FreshIngredients>): (sorted: seq<FreshIngredients>)
    ensures SortedByStart(sorted) && multiset(sorted) == multiset(s)
  {
    if s == [] then []
    else
      assert s == s[..|s| - 1] + [s[|s| - 1]];
      Insert(SortByStart(s[..|s| - 1]), s[|s| - 1])
  }

  /** A permutation keeps every range well-formed. */
  lemma PermutationWellFormed(a: seq<FreshIngredients>, b: seq<FreshIngredients>)
    requires multiset(a) == multiset(b) && AllWellFormed(a)
    ensures AllWellFormed(b)
  {
    forall i | 0 <= i < |b|
      ensures WellFormed(b[i])
    {
      assert b[i] in multiset(b);
      var j :| 0 <= j < |a| && a[j] == b[i];
    }
  }

  // ---------------------------------------------------------------------------
  // Coverage

  /** Some range of `s` contains `id`. */
  predicate Covered(s: seq<FreshIngredients>, id: int) {
    s != [] && (Contains(s[0], id) || Covered(s[1..], id))
  }

  lemma {:induction false} CoveredAppend(s: seq<FreshIngredients>, x: FreshIngredients, id: int)
    ensures Covered(s + [x], id) <==> Covered(s, id) || Contains(x, id)
  {
    if s != [] {
      assert (s + [x])[1..] == s[1..] + [x];
      CoveredAppend(s[1..], x, id);
    }
  }

  lemma {:induction false} CoveredMembers(s: seq<FreshIngredients>, id: int)
    ensures Covered(s, id) <==> exists r :: r in s && Contains(r, id)
  {
    if s != [] {
      CoveredMembers(s[1..], id);
      assert s == [s[0]] + s[1..];
    }
  }

  /** Coverage does not depend on the order of the ranges. */
  lemma CoveredPermutation(a: seq<FreshIngredients>, b: seq<FreshIngredients>, id: int)
    requires multiset(a) == multiset(b)
    ensures Covered(a, id) <==> Covered(b, id)
  {
    CoveredMembers(a, id);
    CoveredMembers(b, id);
    if Covered(a, id) {
      var r :| r in a && Contains(r, id);
      assert r in multiset(a);
    }
    if Covered(b, id) {
      var r :| r in b && Contains(r, id);
      assert r in multiset(b);
    }
  }

  // ---------------------------------------------------------------------------
  // The one-pass merge

  /** One step of the merge: `entry` is merged into the last range when they intersect, and
      appended otherwise. */
  function Absorb(merged: seq<FreshIngredients>, entry: FreshIngredients): seq<FreshIngredients> {
    if merged != [] && Intersects(merged[|merged| - 1], entry) then
      merged[..|merged| - 1] + [Merge(merged[|merged| - 1], entry)]
    else merged + [entry]
  }

  /** The merge pass over the ranges in order. */
  function MergeAll(entries: seq<FreshIngredients>): seq<FreshIngredients> {
    if entries == [] then [] else Absorb(MergeAll(entries[..|entries| - 1]), entries[|entries| - 1])
  }

  /** Well-formed ranges, each ending before the next one starts: sorted and pairwise disjoint. */
  predicate Separated(s: seq<FreshIngredients>) {
    AllWellFormed(s) && forall i :: 0 <= i < |s| - 1 ==> s[i].end < s[i + 1].start
  }

  lemma AbsorbSeparated(merged: seq<FreshIngredients>, entry: FreshIngredients)
    requires Separated(merged) && WellFormed(entry)
    requires merged != [] ==> merged[|merged| - 1].start <= entry.start
    ensures var m := Absorb(merged, entry); Separated(m) && m != [] && m[|m| - 1].start <= entry.start
  {
    var n := |merged|;
    if merged != [] && Intersects(merged[n - 1], entry) {
      var last := merged[n - 1];
      var m := merged[..n - 1] + [Merge(last, entry)];
      assert Merge(last, entry).start == last.start;
      assert forall i :: 0 <= i < n - 1 ==> m[i] == merged[i];
    } else if merged != [] {
      assert entry.start > merged[n - 1].end;
    }
  }

  /** Merging sorted well-formed ranges gives separated ranges, the last starting no later
      than the last input. */
  lemma {:induction false} MergeAllSeparated(entries: seq<FreshIngredients>)
    requires SortedByStart(entries) && AllWellFormed(entries)
    ensures var m := MergeAll(entries);
      Separated(m) && (entries != [] ==> m != [] && m[|m| - 1].start <= entries[|entries| - 1].start)
  {
    if entries != [] {
      var n := |entries|;
      var prefix := entries[..n - 1];
      assert SortedByStart(prefix) by {
        forall i, j | 0 <= i < j < n - 1
          ensures prefix[i].start <= prefix[j].start
        {
          assert prefix[i] == entries[i] && prefix[j] == entries[j];
        }
      }
      assert AllWellFormed(prefix) by {
        forall i | 0 <= i < n - 1
          ensures WellFormed(prefix[i])
        {
          assert prefix[i] == entries[i];
        }
      }
      MergeAllSeparated(prefix);
      if prefix != [] {
        assert prefix[n - 2] == entries[n - 2];
        assert entries[n - 2].start <= entries[n - 1].start;
      }
      AbsorbSeparated(MergeAll(prefix), entries[n - 1]);
    }
  }

  lemma AbsorbCovers(merged: seq<FreshIngredients>, entry: FreshIngredients, id: int)
    requires AllWellFormed(merged) && WellFormed(entry)
    ensures AllWellFormed(Absorb(merged, entry))
    ensures Covered(Absorb(merged, entry), id) <==> Covered(merged, id) || Contains(entry, id)
  {
    var n := |merged|;
    if merged != [] && Intersects(merged[n - 1], entry) {
      var last := merged[n - 1];
      assert merged == merged[..n - 1] + [last];
      CoveredAppend(merged[..n - 1], last, id);
      CoveredAppend(merged[..n - 1], Merge(last, entry), id);
      MergeExact(last, entry, id);
    } else {
      CoveredAppend(merged, entry, id);
    }
  }

  /** The merged ranges are well-formed. */
  lemma {:induction false} MergeAllWellFormed(entries: seq<FreshIngredients>)
    requires AllWellFormed(entries)
    ensures AllWellFormed(MergeAll(entries))
  {
    if entries != [] {
      var n := |entries|;
      var prefix := entries[..n - 1];
      assert AllWellFormed(prefix) by {
        assert forall i :: 0 <= i < n - 1 ==> prefix[i] == entries[i];
      }
      MergeAllWellFormed(prefix);
      AbsorbCovers(MergeAll(prefix), entries[n - 1], 0);
    }
  }

  /** The merge keeps coverage: an id is in a merged range exactly when it is in an input
      range. */
  lemma {:induction false} MergeAllCovers(entries: seq<FreshIngredients>, id: int)
    requires AllWellFormed(entries)
    ensures Covered(MergeAll(entries), id) <==> Covered(entries, id)
  {
    if entries != [] {
      var n := |entries|;
      var prefix := entries[..n - 1];
      var last := entries[n - 1];
      assert AllWellFormed(prefix) by {
        assert forall i :: 0 <= i < n - 1 ==> prefix[i] == entries[i];
      }
      MergeAllCovers(prefix, id);
      MergeAllWellFormed(prefix);
      assert Covered(MergeAll(entries), id) <==> Covered(MergeAll(prefix), id) || Contains(last, id) by {
        AbsorbCovers(MergeAll(prefix), last, id);
      }
      assert Covered(entries, id) <==> Covered(prefix, id) || Contains(last, id) by {
        assert entries == prefix + [last];
        CoveredAppend(prefix, last, id);
      }
    }
  }

  /** The merge loop of `main` over the sorted ranges, merging into the last range pushed. */
  method MergeRanges(entries: seq<FreshIngredients>) returns (merged: seq<FreshIngredients>)
    ensures merged == MergeAll(entries)
    ensures SortedByStart(entries) && AllWellFormed(entries) ==>
      Separated(merged) && forall id :: Covered(merged, id) <==> Covered(entries, id)
  {
    merged := [];
    for i := 0 to |entries|
      invariant merged == MergeAll(entries[..i])
    {
      assert entries[..i + 1][..i] == entries[..i];
      var entry := entries[i];
      var isMerged := false;
      if merged != [] {
        var storage := merged[|merged| - 1];
        if Intersects(storage, entry) {
          merged := merged[..|merged| - 1] + [Merge(storage, entry)];
          isMerged := true;
        }
      }
      if !isMerged {
        merged := merged + [FreshIngredients(entry.start, entry.end)];
      }
    }
    assert entries[..|entries|] == entries;
    if SortedByStart(entries) && AllWellFormed(entries) {
      MergeAllSeparated(entries);
      forall id
        ensures Covered(merged, id) <==> Covered(entries, id)
      {
        MergeAllCovers(entries, id);
      }
    }
  }

  // ---------------------------------------------------------------------------
  // Part 1: fresh ingredients

  /** The number of ids in `ids` that some range covers, each id counted once per occurrence. */
  function FreshCount(ranges: seq<FreshIngredients>, ids: seq<int>): (n: nat)
    ensures n <= |ids|
  {
    if ids == [] then 0 else (if Covered(ranges, ids[0]) then 1 else 0) + FreshCount(ranges, ids[1..])
  }

  /** The count only depends on which ids the ranges cover. */
  lemma {:induction false} FreshCountCoverage(a: seq<FreshIngredients>, b: seq<FreshIngredients>, ids: seq<int>)
    requires forall id :: Covered(a, id) <==> Covered(b, id)
    ensures FreshCount(a, ids) == FreshCount(b, ids)
  {
    if ids != [] {
      FreshCountCoverage(a, b, ids[1..]);
    }
  }

  /** The inner loop of part 1: the ranges are tried in order until one contains the id. */
  method IsFresh(ranges: seq<FreshIngredients>, ingredient: int) returns (found: bool)
    ensures found == Covered(ranges, ingredient)
  {
    for i := 0 to |ranges|
      invariant Covered(ranges, ingredient) == Covered(ranges[i..], ingredient)
    {
      if Contains(ranges[i], ingredient) {
        return true;
      }
      assert ranges[i..][1..] == ranges[i + 1..];
    }
    return false;
  }

  /** Part 1 of `main`: each ingredient is counted once when a merged range contains it. */
  method CountFresh(ranges: seq<FreshIngredients>, ingredients: seq<int>) returns (freshCount: nat)
    ensures freshCount == FreshCount(ranges, ingredients)
  {
    freshCount := 0;
    for i := 0 to |ingredients|
      invariant freshCount + FreshCount(ranges, ingredients[i..]) == FreshCount(ranges, ingredients)
    {
      assert ingredients[i..][1..] == ingredients[i + 1..];
      var found := IsFresh(ranges, ingredients[i]);
      if found {
        freshCount := freshCount + 1;
      }
    }
  }

  // ---------------------------------------------------------------------------
  // Part 2: the number of fresh ids

  /** The ids covered by some range. */
  function Union(s: seq<FreshIngredients>): set<int> {
    if s == [] then {} else Ids(s[0]) + Union(s[1..])
  }

  lemma {:induction false} UnionCovered(s: seq<FreshIngredients>, id: int)
    ensures id in Union(s) <==> Covered(s, id)
  {
    if s != [] {
      UnionCovered(s[1..], id);
    }
  }

  /** The summed widths `end - start + 1`. */
  function Width(s: seq<FreshIngredients>): int {
    if s == [] then 0 else s[0].end - s[0].start + 1 + Width(s[1..])
  }

  lemma {:induction false} UnionAbove(s: seq<FreshIngredients>, bound: int)
    requires Separated(s) && (s != [] ==> bound < s[0].start)
    ensures forall id :: id in Union(s) ==> bound < id
  {
    if s != [] {
      assert Separated(s[1..]) by {
        assert forall i :: 0 <= i < |s| - 1 ==> s[1..][i] == s[i + 1];
      }
      assert WellFormed(s[0]);
      UnionAbove(s[1..], bound);
    }
  }

  /** For separated ranges the summed widths are the number of ids covered. */
  lemma {:induction false} WidthCountsIds(s: seq<FreshIngredients>)
    requires Separated(s)
    ensures Width(s) == |Union(s)|
  {
    if s != [] {
      var rest := s[1..];
      assert forall i :: 0 <= i < |rest| ==> rest[i] == s[i + 1];
      WidthCountsIds(rest);
      IntervalSize(s[0].start, s[0].end);
      UnionAbove(rest, s[0].end);
      assert Ids(s[0]) * Union(rest) == {};
    }
  }

  /** Part 2 of `main`: the widths of the merged ranges summed. */
  method SumWidths(ranges: seq<FreshIngredients>) returns (freshCount: int)
    ensures freshCount == Width(ranges)
  {
    freshCount := 0;
    for i := 0 to |ranges|
      invariant freshCount + Width(ranges[i..]) == Width(ranges)
    {
      assert ranges[i..][1..] == ranges[i + 1..];
      freshCount := freshCount + ranges[i].end - ranges[i].start + 1;
    }
  }

  /** `main` after reading the file: both counts. For well-formed ranges, part 1 is the number of
      ingredients inside the union of the ranges and part 2 the number of ids in that union. */
  method Evaluate(input: string) returns (result: Result<(nat, int), ParseError>)
    ensures result.Err? <==> ReadDatabase(Text.Lines(input)).Err?
    ensures result.Ok? ==>
      var db := ReadDatabase(Text.Lines(input)).value;
      AllWellFormed(db.ranges) ==>
        result.value.0 == FreshCount(db.ranges, db.ingredients) && result.value.1 == |Union(db.ranges)|
  {
    var db := ReadInput(input);
    if db.Err? {
      return Err(db.error);
    }
    var sorted := SortByStart(db.value.ranges);
    var merged := MergeRanges(sorted);
    var part1 := CountFresh(merged, db.value.ingredients);
    var part2 := SumWidths(merged);
    if AllWellFormed(db.value.ranges) {
      PermutationWellFormed(db.value.ranges, sorted);
      forall id
        ensures Covered(merged, id) <==> Covered(db.value.ranges, id)
      {
        CoveredPermutation(sorted, db.value.ranges, id);
      }
      FreshCountCoverage(merged, db.value.ranges, db.value.ingredients);
      WidthCountsIds(merged);
      assert Union(merged) == Union(db.value.ranges) by {
        forall id
          ensures id in Union(merged) <==> id in Union(db.value.ranges)
        {
          UnionCovered(merged, id);
          UnionCovered(db.value.ranges, id);
        }
      }
    }
    return Ok((part1, part2));
  }
}
