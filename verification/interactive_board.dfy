/**
 The interactive board: a move history the user grows one move at a time
 ("Make Move") and walks through ("Previous Interactive Move" / "Next
 Interactive Move"). Going back and then making a new move cuts off the
 moves after the cursor: history is a single line, not a tree.
 */
module InteractiveBoard {
  import opened Engine
  import opened MoveCursor

  /** What holds of every state the interactive board can reach: the index
      is in range, the board is the position after the first `index` moves,
      and every move of the history is accepted in order from a fresh
      board (each one was checked against the board when it was added). */
  ghost predicate Valid<P>(e: Engine<P>, c: Cursor<P>)
  {
    Consistent(e, c) && Legal(e, c.moves)
  }

  /** The state a new session starts in: empty history, fresh board. */
  function Init<P>(e: Engine<P>): Cursor<P>
  {
    Start(e, [])
  }

  /** The replay helper: a fresh board, then, if the history is not empty
      and `moveIdx` is positive, the history's moves up to `moveIdx` in
      order, stopping at the end of the history or at the first move the
      engine rejects. */
  method ReplayBoardToIndex<P>(e: Engine<P>, history: seq<string>, moveIdx: int) returns (board: P)
    ensures board == ReplayTo(e, history, moveIdx)
    ensures 0 <= moveIdx <= |history| && Legal(e, history[..moveIdx]) ==>
      Some(board) == Run(e, e.initial, history[..moveIdx])
  {
    board := e.initial;
    if |history| > 0 && moveIdx > 0 {
      var i := 0;
      while i < moveIdx
        invariant 0 <= i <= moveIdx
        invariant i <= |history|
        invariant Run(e, e.initial, history[..i]) == Some(board)
      {
        if i < |history| {
          var next := e.apply(board, history[i]);
          if next.None? {
            break;
          }
          assert history[..i + 1] == history[..i] + [history[i]];
          RunSnoc(e, e.initial, history[..i], history[i]);
          board := next.value;
        } else {
          break;
        }
        i := i + 1;
      }
      var upTo := if moveIdx < |history| then moveIdx else |history|;
      assert history[..upTo][..i] == history[..i];
      ReplayStopsAt(e, e.initial, history[..upTo], i, board);
    }
    if 0 <= moveIdx <= |history| && Legal(e, history[..moveIdx]) {
      ReplayToAccepted(e, history, moveIdx);
    }
  }

  /** "Make Move" with `move` in the input field. An empty field does
      nothing. Otherwise, when the cursor is behind the end of the history,
      the history is first cut back to the moves before the cursor; then the
      move is played on the board. If the engine accepts it, it is appended
      and the cursor moves to the new end; if not, the board and index stay
      as they were, but the history stays cut back. */
  function MakeMove<P>(e: Engine<P>, c: Cursor<P>, move: string): (r: Cursor<P>)
    ensures move == "" ==> r == c
    ensures InBounds(c) ==> InBounds(r)
    ensures move != "" && e.apply(c.board, move).Some? ==>
      r.moves == c.moves[..Min(c.index, |c.moves|)] + [move] &&
      r.index == |r.moves| && Some(r.board) == e.apply(c.board, move)
    ensures move != "" && e.apply(c.board, move).None? ==>
      r == c.(moves := c.moves[..Min(c.index, |c.moves|)])
  {
    if move == "" then c
    else
      var history := if c.index < |c.moves| then c.moves[..c.index] else c.moves;
      match e.apply(c.board, move)
      case None => c.(moves := history)
      case Some(q) => Cursor(history + [move], |history| + 1, q)
  }

  function Min(a: int, b: int): int
  {
    if a < b then a else b
  }

  /** "Previous Interactive Move": disabled at the start; otherwise the
      index goes back one and the board is rebuilt by the replay helper. */
  function Previous<P>(e: Engine<P>, c: Cursor<P>): (r: Cursor<P>)
    ensures r.moves == c.moves
    ensures c.index == 0 ==> r == c
    ensures c.index > 0 ==> r.index == c.index - 1 && r.board == ReplayTo(e, c.moves, c.index - 1)
    ensures InBounds(c) ==> InBounds(r)
  {
    if c.index == 0 then c
    else c.(index := c.index - 1, board := ReplayTo(e, c.moves, c.index - 1))
  }

  /** "Next Interactive Move": disabled at (or past) the end of the history;
      otherwise the index goes forward one and the board is rebuilt by the
      replay helper. */
  function Next<P>(e: Engine<P>, c: Cursor<P>): (r: Cursor<P>)
    ensures r.moves == c.moves
    ensures c.index >= |c.moves| ==> r == c
    ensures c.index < |c.moves| ==> r.index == c.index + 1 && r.board == ReplayTo(e, c.moves, c.index + 1)
    ensures InBounds(c) ==> InBounds(r)
  {
    if c.index >= |c.moves| then c
    else c.(index := c.index + 1, board := ReplayTo(e, c.moves, c.index + 1))
  }

  /** A new session's board is valid. */
  lemma InitValid<P>(e: Engine<P>)
    ensures Valid(e, Init(e))
  {
    StartConsistent(e, []);
  }

  /** In a valid state the board on screen is exactly what the replay
      helper would rebuild for the current index. */
  lemma ValidBoardIsReplay<P>(e: Engine<P>, c: Cursor<P>)
    requires Valid(e, c)
    ensures c.board == ReplayTo(e, c.moves, c.index)
  {
    ReplayToAccepted(e, c.moves, c.index);
  }

  /** "Make Move" keeps the state valid, whether the move is accepted or
      rejected. */
  lemma MakeMoveKeepsValid<P>(e: Engine<P>, c: Cursor<P>, move: string)
    requires Valid(e, c)
    ensures Valid(e, MakeMove(e, c, move))
  {
    var kept := c.moves[..c.index];
    assert c.moves[..Min(c.index, |c.moves|)] == kept;
    RunPrefix(e, e.initial, c.moves, c.index);
    assert kept[..c.index] == kept;
    var r := MakeMove(e, c, move);
    if move != "" && e.apply(c.board, move).Some? {
      RunSnoc(e, e.initial, kept, move);
      assert r.moves[..r.index] == r.moves;
    }
  }

  /** "Previous Interactive Move" keeps the state valid. */
  lemma PreviousKeepsValid<P>(e: Engine<P>, c: Cursor<P>)
    requires Valid(e, c)
    ensures Valid(e, Previous(e, c))
  {
    if c.index > 0 {
      RunPrefix(e, e.initial, c.moves, c.index - 1);
      ReplayToAccepted(e, c.moves, c.index - 1);
    }
  }

  /** "Next Interactive Move" keeps the state valid. */
  lemma NextKeepsValid<P>(e: Engine<P>, c: Cursor<P>)
    requires Valid(e, c)
    ensures Valid(e, Next(e, c))
  {
    if c.index < |c.moves| {
      RunPrefix(e, e.initial, c.moves, c.index + 1);
      ReplayToAccepted(e, c.moves, c.index + 1);
    }
  }

  /** A rejected move still discards the moves after the cursor: when the
      cursor is behind the end, the history after a rejected "Make Move" is
      strictly shorter than before, although the board and index are
      unchanged. */
  lemma RejectedMoveDropsTail<P>(e: Engine<P>, c: Cursor<P>, move: string)
    requires move != ""
    requires c.index < |c.moves|
    requires e.apply(c.board, move) == None
    ensures var r := MakeMove(e, c, move);
      r.moves == c.moves[..c.index] && |r.moves| < |c.moves| &&
      r.index == c.index && r.board == c.board
  {
  }

  /** A rejected move at the end of the history changes nothing. */
  lemma RejectedMoveAtEnd<P>(e: Engine<P>, c: Cursor<P>, move: string)
    requires c.index == |c.moves|
    requires e.apply(c.board, move) == None
    ensures MakeMove(e, c, move) == c
  {
    assert c.moves[..c.index] == c.moves;
  }

  /** Stepping forward and back restores a valid state exactly. */
  lemma NextThenPrevious<P>(e: Engine<P>, c: Cursor<P>)
    requires Valid(e, c)
    requires c.index < |c.moves|
    ensures Previous(e, Next(e, c)) == c
  {
    ValidBoardIsReplay(e, c);
  }

  /** Stepping back and forward restores a valid state exactly. */
  lemma PreviousThenNext<P>(e: Engine<P>, c: Cursor<P>)
    requires Valid(e, c)
    requires c.index > 0
    ensures Next(e, Previous(e, c)) == c
  {
    ValidBoardIsReplay(e, c);
  }

  /** An accepted move, then "Previous Interactive Move", returns to the
      board and index the move was made from, with the new move kept as the
      only continuation. */
  lemma MakeMoveThenPrevious<P>(e: Engine<P>, c: Cursor<P>, move: string)
    requires Valid(e, c)
    requires move != ""
    requires e.apply(c.board, move).Some?
    ensures Previous(e, MakeMove(e, c, move)) == Cursor(c.moves[..c.index] + [move], c.index, c.board)
  {
    MakeMoveKeepsValid(e, c, move);
    var r := MakeMove(e, c, move);
    assert c.moves[..Min(c.index, |c.moves|)] == c.moves[..c.index];
    assert r.moves[..c.index] == c.moves[..c.index];
    RunPrefix(e, e.initial, r.moves, c.index);
    ReplayToAccepted(e, r.moves, c.index);
  }
}
