/** Day 12: reading the present shapes and the storage regions of the input. */
module Day12 {
  import opened Wrappers
  import opened Decimal
  import Text

  /** A present: its one-digit id and which cells of its grid are filled. */
  datatype PresentShape = PresentShape(id: int, spaces: seq<seq<bool>>)

  /** A region under a tree: its size and how many presents of each shape must fit. */
  datatype PresentsStorage = PresentsStorage(width: int, height: int, requiredPresents: seq<int>)

  // ---------------------------------------------------------------------------
  // Shapes

  /** One grid line: a cell is filled exactly where the line has '#'. */
  function ShapeRow(line: string): (row: seq<bool>)
    ensures |row| == |line| && forall j :: 0 <= j < |line| ==> (row[j] <==> line[j] == '#')
  {
    seq(|line|, j requires 0 <= j < |line| => line[j] == '#')
  }

  /** `to_present_shape`: the id is the first character of the first line read as an `i64`,
      and every further line is a row of cells. No line at all, an empty first line, or a
      first character that is not a digit panics (`None`). */
  function ToPresentShape(paragraph: string): (r: Option<PresentShape>)
    ensures var lines := Text.Lines(paragraph);
            r.Some? <==> |lines| >= 1 && |lines[0]| >= 1 && IsDigit(lines[0][0])
    ensures var lines := Text.Lines(paragraph);
            r.Some? ==> (&& r.value.id == DigitValue(lines[0][0])
                         && |r.value.spaces| == |lines| - 1
                         && forall i :: 0 <= i < |lines| - 1 ==> r.value.spaces[i] == ShapeRow(lines[i + 1]))
  {
    var lines := Text.Lines(paragraph);
    if lines == [] || lines[0] == [] then None
    else
      var head := lines[0][..1];
      assert head == [lines[0][0]];
      match Text.ParseInt(head, Text.I64_MIN, Text.I64_MAX)
      case None => None
      case Some(id) =>
        Some(PresentShape(id, seq(|lines| - 1, i requires 0 <= i < |lines| - 1 => ShapeRow(lines[i + 1]))))
  }

  /** A row written back as '#' and '.'. */
  function RowText(row: seq<bool>): (line: string)
    ensures ShapeRow(line) == row
    ensures '\n' !in line && '\r' !in line
  {
    seq(|row|, j requires 0 <= j < |row| => if row[j] then '#' else '.')
  }

  /** A shape written the way the input lists it: the id and a colon, then one line per row. */
  function ShapeText(id: nat, rows: seq<seq<bool>>): string
    requires id < 10
  {
    Text.Join([[DigitChar(id), ':']] + seq(|rows|, i requires 0 <= i < |rows| => RowText(rows[i])), '\n')
  }

  /** A written shape reads back as itself, when the last row is not empty (an empty last
      line would vanish). */
  lemma ShapeRoundTrip(id: nat, rows: seq<seq<bool>>)
    requires id < 10
    requires rows == [] || rows[|rows| - 1] != []
    ensures ToPresentShape(ShapeText(id, rows)) == Some(PresentShape(id, rows))
  {
    var header := [DigitChar(id), ':'];
    var lines := [header] + seq(|rows|, i requires 0 <= i < |rows| => RowText(rows[i]));
    forall i | 0 <= i < |lines|
      ensures '\n' !in lines[i] && Text.TrimCarriageReturn(lines[i]) == lines[i]
    {
      if i > 0 {
        assert lines[i] == RowText(rows[i - 1]);
      }
    }
    assert |lines| > 1 ==> lines[|lines| - 1] == RowText(rows[|rows| - 1]);
    Text.LinesJoin(lines);
    var r := ToPresentShape(ShapeText(id, rows));
    assert r.value.spaces == rows;
  }

  /** The shape in the program's own test: id 1 with rows `###`, `##.` and `.##`. */
  lemma ShapeExample()
    ensures ToPresentShape("1:\n###\n##.\n.##")
         == Some(PresentShape(1, [[true, true, true], [true, true, false], [false, true, true]]))
  {
    var rows := [[true, true, true], [true, true, false], [false, true, true]];
    assert RowText(rows[0]) == "###";
    assert RowText(rows[1]) == "##.";
    assert RowText(rows[2]) == ".##";
    assert DigitChar(1) == '1';
    var lines := ["1:", "###", "##.", ".##"];
    assert [[DigitChar(1), ':']] + seq(|rows|, i requires 0 <= i < |rows| => RowText(rows[i])) == lines;
    assert Text.Join(lines, '\n') == "1:\n###\n##.\n.##" by {
      assert lines[1..][1..][1..] == [".##"];
    }
    ShapeRoundTrip(1, rows);
  }

  // ---------------------------------------------------------------------------
  // Storage regions

  /** Every piece parsed as an integer of `lo..=hi`, or `None` when one does not parse
      (`map(parse().unwrap()).collect()`). */
  function ParseEach(pieces: seq<string>, lo: int, hi: int): (r: Option<seq<int>>)
    ensures r.Some? <==> forall i :: 0 <= i < |pieces| ==> Text.ParseInt(pieces[i], lo, hi).Some?
    ensures r.Some? ==> |r.value| == |pieces| && forall i :: 0 <= i < |pieces| ==> Some(r.value[i]) == Text.ParseInt(pieces[i], lo, hi)
  {
    if pieces == [] then Some([])
    else
      match Text.ParseInt(pieces[0], lo, hi)
      case None => None
      case Some(v) =>
        match ParseEach(pieces[1..], lo, hi)
        case None =>
          assert forall i :: 1 <= i < |pieces| ==> pieces[i] == pieces[1..][i - 1];
          None
        case Some(rest) => Some([v] + rest)
  }

  /** `to_present_storage`: before ": " the size as `i64`s separated by 'x', after it the
      counts as `usize`s separated by ' '. It panics (`None`) when there is no ": ", when a
      size piece or a count does not parse, or when the size has fewer than two pieces;
      size pieces after the second and text after a second ": " are ignored. */
  function ToPresentStorage(line: string): (r: Option<PresentsStorage>)
    ensures var segments := Text.SplitStr(line, ": ");
            r.Some? <==> (&& |segments| >= 2
                          && ParseEach(Text.Split(segments[0], 'x'), Text.I64_MIN, Text.I64_MAX).Some?
                          && |Text.Split(segments[0], 'x')| >= 2
                          && ParseEach(Text.Split(segments[1], ' '), 0, Text.USIZE_MAX).Some?)
    ensures var segments := Text.SplitStr(line, ": ");
            r.Some? ==> (&& Some(r.value.width) == Text.ParseInt(Text.Split(segments[0], 'x')[0], Text.I64_MIN, Text.I64_MAX)
                         && Some(r.value.height) == Text.ParseInt(Text.Split(segments[0], 'x')[1], Text.I64_MIN, Text.I64_MAX)
                         && Some(r.value.requiredPresents) == ParseEach(Text.Split(segments[1], ' '), 0, Text.USIZE_MAX))
  {
    var segments := Text.SplitStr(line, ": ");
    match ParseEach(Text.Split(segments[0], 'x'), Text.I64_MIN, Text.I64_MAX)
    case None => None
    case Some(shape) =>
      if |segments| < 2 then None
      else
        match ParseEach(Text.Split(segments[1], ' '), 0, Text.USIZE_MAX)
        case None => None
        case Some(required) =>
          if |shape| < 2 then None
          else Some(PresentsStorage(shape[0], shape[1], required))
  }

  /** A region written the way the input lists it: `WxH: c0 c1 ...`. */
  function StorageText(width: int, height: int, counts: seq<int>): string
    requires |counts| >= 1
  {
    Text.Render(width) + "x" + Text.Render(height) + ": "
      + Text.Join(seq(|counts|, i requires 0 <= i < |counts| => Text.Render(counts[i])), ' ')
  }

  /** A written region reads back as itself. There is always at least one count: with none
      the single empty piece after ": " would not parse. */
  lemma StorageRoundTrip(width: int, height: int, counts: seq<int>)
    requires Text.I64_MIN <= width <= Text.I64_MAX && Text.I64_MIN <= height <= Text.I64_MAX
    requires |counts| >= 1 && forall i :: 0 <= i < |counts| ==> 0 <= counts[i] <= Text.USIZE_MAX
    ensures ToPresentStorage(StorageText(width, height, counts)) == Some(PresentsStorage(width, height, counts))
  {
    var size := Text.Render(width) + "x" + Text.Render(height);
    var rendered := seq(|counts|, i requires 0 <= i < |counts| => Text.Render(counts[i]));
    var list := Text.Join(rendered, ' ');
    SizeRoundTrip(width, height);
    CountsRoundTrip(counts);
    SizeWithoutColon(width, height);
    CountsWithoutColon(counts);
    StorageFromParts(size, list, width, height, counts);
    assert StorageText(width, height, counts) == size + ": " + list;
  }

  lemma SizeWithoutColon(width: int, height: int)
    ensures ':' !in Text.Render(width) + "x" + Text.Render(height)
  {
    Text.RenderWithout(width, ':');
    Text.RenderWithout(height, ':');
  }

  lemma CountsWithoutColon(counts: seq<int>)
    requires |counts| >= 1
    ensures ':' !in Text.Join(seq(|counts|, i requires 0 <= i < |counts| => Text.Render(counts[i])), ' ')
  {
    var rendered := seq(|counts|, i requires 0 <= i < |counts| => Text.Render(counts[i]));
    forall i | 0 <= i < |rendered|
      ensures ':' !in rendered[i]
    {
      Text.RenderWithout(counts[i], ':');
    }
    JoinWithout(rendered, ' ', ':');
  }

  /** A line made of a size part and a counts part, neither holding a colon, reads as the
      region those parts read as. */
  lemma StorageFromParts(size: string, list: string, width: int, height: int, counts: seq<int>)
    requires ':' !in size && ':' !in list
    requires ParseEach(Text.Split(size, 'x'), Text.I64_MIN, Text.I64_MAX) == Some([width, height])
    requires ParseEach(Text.Split(list, ' '), 0, Text.USIZE_MAX) == Some(counts)
    ensures ToPresentStorage(size + ": " + list) == Some(PresentsStorage(width, height, counts))
  {
    Text.SplitStrPiece(size, ": ", list);
    Text.SplitStrWhole(list, ": ");
  }

  /** The size part reads back as its two numbers. */
  lemma SizeRoundTrip(width: int, height: int)
    requires Text.I64_MIN <= width <= Text.I64_MAX && Text.I64_MIN <= height <= Text.I64_MAX
    ensures ParseEach(Text.Split(Text.Render(width) + "x" + Text.Render(height), 'x'), Text.I64_MIN, Text.I64_MAX)
         == Some([width, height])
  {
    var w := Text.Render(width);
    var h := Text.Render(height);
    SizePieces(width, height);
    Text.ParseRendered(width, Text.I64_MIN, Text.I64_MAX);
    Text.ParseRendered(height, Text.I64_MIN, Text.I64_MAX);
    var r := ParseEach([w, h], Text.I64_MIN, Text.I64_MAX);
    assert r.Some? by {
      assert Text.ParseInt([w, h][0], Text.I64_MIN, Text.I64_MAX).Some?;
      assert Text.ParseInt([w, h][1], Text.I64_MIN, Text.I64_MAX).Some?;
    }
    assert r.value == [width, height];
  }

  /** The size part splits at its 'x' into the two renderings. */
  lemma SizePieces(width: int, height: int)
    ensures Text.Split(Text.Render(width) + "x" + Text.Render(height), 'x') == [Text.Render(width), Text.Render(height)]
  {
    var w := Text.Render(width);
    var h := Text.Render(height);
    Text.RenderWithout(width, 'x');
    Text.RenderWithout(height, 'x');
    Text.SplitPiece(w, 'x', h);
    Text.SplitWhole(h, 'x');
    assert w + "x" + h == w + ['x'] + h;
  }

  /** The counts part reads back as the counts. */
  lemma CountsRoundTrip(counts: seq<int>)
    requires |counts| >= 1 && forall i :: 0 <= i < |counts| ==> 0 <= counts[i] <= Text.USIZE_MAX
    ensures ParseEach(Text.Split(Text.Join(seq(|counts|, i requires 0 <= i < |counts| => Text.Render(counts[i])), ' '), ' '),
                      0, Text.USIZE_MAX) == Some(counts)
  {
    var rendered := seq(|counts|, i requires 0 <= i < |counts| => Text.Render(counts[i]));
    forall i | 0 <= i < |rendered|
      ensures ' ' !in rendered[i] && Text.ParseInt(rendered[i], 0, Text.USIZE_MAX) == Some(counts[i])
    {
      Text.RenderWithout(counts[i], ' ');
      Text.ParseRendered(counts[i], 0, Text.USIZE_MAX);
    }
    Text.SplitJoin(rendered, ' ');
    var r := ParseEach(rendered, 0, Text.USIZE_MAX);
    assert r.Some?;
    assert r.value == counts;
  }

  /** Joining pieces that lack a character, with another separator, keeps it out. */
  lemma {:induction false} JoinWithout(pieces: seq<string>, sep: char, c: char)
    requires |pieces| >= 1 && sep != c
    requires forall i :: 0 <= i < |pieces| ==> c !in pieces[i]
    ensures c !in Text.Join(pieces, sep)
  {
    if |pieces| > 1 {
      JoinWithout(pieces[1..], sep, c);
    }
  }

  /** The region in the program's own test: 10 by 5, needing 1, 3, 5, 4, 2 and 0 presents. */
  lemma StorageExample()
    ensures ToPresentStorage("10x5: 1 3 5 4 2 0") == Some(PresentsStorage(10, 5, [1, 3, 5, 4, 2, 0]))
  {
    StorageRoundTrip(10, 5, [1, 3, 5, 4, 2, 0]);
    ExampleText();
  }

  lemma ExampleText()
    ensures StorageText(10, 5, [1, 3, 5, 4, 2, 0]) == "10x5: 1 3 5 4 2 0"
  {
    RenderSmall();
    ExampleRendered();
    ExampleJoin();
    ExampleLine();
  }

  lemma ExampleRendered()
    ensures var counts := [1, 3, 5, 4, 2, 0];
            seq(|counts|, i requires 0 <= i < |counts| => Text.Render(counts[i])) == ["1", "3", "5", "4", "2", "0"]
  {
    RenderSmall();
  }

  lemma ExampleJoin()
    ensures Text.Join(["1", "3", "5", "4", "2", "0"], ' ') == "1 3 5 4 2 0"
  {
    JoinFront("2", ["0"], ' ');
    assert Text.Join(["2", "0"], ' ') == "2 0";
    JoinFront("4", ["2", "0"], ' ');
    assert Text.Join(["4", "2", "0"], ' ') == "4 2 0";
    JoinFront("5", ["4", "2", "0"], ' ');
    assert Text.Join(["5", "4", "2", "0"], ' ') == "5 4 2 0";
    JoinFront("3", ["5", "4", "2", "0"], ' ');
    assert Text.Join(["3", "5", "4", "2", "0"], ' ') == "3 5 4 2 0";
    JoinFront("1", ["3", "5", "4", "2", "0"], ' ');
  }

  lemma ExampleLine()
    ensures "10" + "x" + "5" + ": " + "1 3 5 4 2 0" == "10x5: 1 3 5 4 2 0"
  {
  }

  lemma JoinFront(first: string, rest: seq<string>, sep: char)
    requires |rest| >= 1
    ensures Text.Join([first] + rest, sep) == first + [sep] + Text.Join(rest, sep)
  {
    assert ([first] + rest)[1..] == rest;
  }

  /** The renderings the example needs. */
  lemma RenderSmall()
    ensures Text.Render(0) == "0" && Text.Render(1) == "1" && Text.Render(2) == "2"
    ensures Text.Render(3) == "3" && Text.Render(4) == "4" && Text.Render(5) == "5"
    ensures Text.Render(10) == "10"
  {
    RenderDigit(0);
    RenderDigit(1);
    RenderDigit(2);
    RenderDigit(3);
    RenderDigit(4);
    RenderDigit(5);
    assert DigitCount(10) == 2;
    assert Pad(10, 2) == Pad(1, 1) + [DigitChar(0)];
    assert Pad(1, 1) == Pad(0, 0) + [DigitChar(1)];
  }

  lemma RenderDigit(d: nat)
    requires d < 10
    ensures Text.Render(d) == [DigitChar(d)]
  {
    assert DigitCount(d) == 1;
    assert Pad(d, 1) == Pad(0, 0) + [DigitChar(d)];
  }

  // ---------------------------------------------------------------------------
  // The program

  /** Each paragraph read as a shape, or `None` at the first that panics. */
  function ParseShapes(paragraphs: seq<string>): (r: Option<seq<PresentShape>>)
    ensures r.Some? <==> forall i :: 0 <= i < |paragraphs| ==> ToPresentShape(paragraphs[i]).Some?
    ensures r.Some? ==> |r.value| == |paragraphs| && forall i :: 0 <= i < |paragraphs| ==> Some(r.value[i]) == ToPresentShape(paragraphs[i])
  {
    if paragraphs == [] then Some([])
    else
      match ToPresentShape(paragraphs[0])
      case None => None
      case Some(shape) =>
        match ParseShapes(paragraphs[1..])
        case None =>
          assert forall i :: 1 <= i < |paragraphs| ==> paragraphs[i] == paragraphs[1..][i - 1];
          None
        case Some(rest) => Some([shape] + rest)
  }

  /** Each line read as a region, or `None` at the first that panics. */
  function ParseStorages(lines: seq<string>): (r: Option<seq<PresentsStorage>>)
    ensures r.Some? <==> forall i :: 0 <= i < |lines| ==> ToPresentStorage(lines[i]).Some?
    ensures r.Some? ==> |r.value| == |lines| && forall i :: 0 <= i < |lines| ==> Some(r.value[i]) == ToPresentStorage(lines[i])
  {
    if lines == [] then Some([])
    else
      match ToPresentStorage(lines[0])
      case None => None
      case Some(storage) =>
        match ParseStorages(lines[1..])
        case None =>
          assert forall i :: 1 <= i < |lines| ==> lines[i] == lines[1..][i - 1];
          None
        case Some(rest) => Some([storage] + rest)
  }

  /** The paragraphs of the input: the text between blank lines. */
  function Paragraphs(input: string): (paragraphs: seq<string>)
    ensures |paragraphs| >= 1
  {
    Text.SplitStr(input, "\n\n")
  }

  /** The paragraphs read as shapes: the first six, or all when there are fewer. */
  function ShapeParagraphs(input: string): (shapes: seq<string>)
    ensures |shapes| == if |Paragraphs(input)| < 6 then |Paragraphs(input)| else 6
    ensures forall i :: 0 <= i < |shapes| ==> shapes[i] == Paragraphs(input)[i]
  {
    var paragraphs := Paragraphs(input);
    paragraphs[..if |paragraphs| < 6 then |paragraphs| else 6]
  }

  /** The lines read as regions: those of the last paragraph. */
  function RegionLines(input: string): seq<string> {
    var paragraphs := Paragraphs(input);
    Text.Lines(paragraphs[|paragraphs| - 1])
  }

  /** `main`: the shapes and the regions, or `None` when one of them panics. */
  function Evaluate(input: string): (r: Option<(seq<PresentShape>, seq<PresentsStorage>)>)
    ensures r.Some? <==> (&& (forall i :: 0 <= i < |ShapeParagraphs(input)| ==> ToPresentShape(ShapeParagraphs(input)[i]).Some?)
                          && (forall i :: 0 <= i < |RegionLines(input)| ==> ToPresentStorage(RegionLines(input)[i]).Some?))
    ensures r.Some? ==> |r.value.0| == |ShapeParagraphs(input)| && |r.value.1| == |RegionLines(input)|
    ensures r.Some? ==> forall i :: 0 <= i < |r.value.0| ==> Some(r.value.0[i]) == ToPresentShape(ShapeParagraphs(input)[i])
    ensures r.Some? ==> forall i :: 0 <= i < |r.value.1| ==> Some(r.value.1[i]) == ToPresentStorage(RegionLines(input)[i])
  {
    match ParseShapes(ShapeParagraphs(input))
    case None => None
    case Some(presents) =>
      match ParseStorages(RegionLines(input))
      case None => None
      case Some(storages) => Some((presents, storages))
  }
}
