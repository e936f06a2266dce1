/** Day 1, first program: the same reader, and only the part 1 dial count. */
module Day01Part1 {
  import opened Day01

  /** The dial loop of this program's `main`: the number of moves after which the dial,
      taken `% 100` after each move, points at 0. */
  method CodeCount(moves: seq<Move>) returns (count: nat)
    ensures count == ZeroStops(moves)
    ensures count <= |moves|
  {
    var position := CODE_START;
    count := 0;
    ghost var done: seq<Move> := [];
    var i := 0;
    while i < |moves|
      invariant 0 <= i <= |moves| && done == moves[..i]
      invariant position == DialAfter(done) && count == ZeroStops(done)
    {
      StopStep(done, moves[i]);
      position := TruncRem(position + Offset(moves[i]));
      if position == 0 {
        count := count + 1;
      }
      done := done + [moves[i]];
      i := i + 1;
    }
    assert done == moves;
    ZeroStopsBound(moves);
  }
}
