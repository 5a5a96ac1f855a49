/**
 The move cursor both boards of the dashboard are built on: a move list,
 the number of moves played so far, and the board showing them.
 */
module MoveCursor {
  import opened Engine

  /** `moves` is the move list, `index` the number of moves played,
      `board` the position on screen. */
  datatype Cursor<P> = Cursor(moves: seq<string>, index: nat, board: P)

  /** A cursor at the start of `moves`, on a fresh board. */
  function Start<P>(e: Engine<P>, moves: seq<string>): Cursor<P>
  {
    Cursor(moves, 0, e.initial)
  }

  /** The index never runs past the end of the list. */
  predicate InBounds<P>(c: Cursor<P>)
  {
    c.index <= |c.moves|
  }

  /** The board is exactly the result of playing the first `index` moves
      from a fresh board, every one of them accepted. */
  ghost predicate Consistent<P>(e: Engine<P>, c: Cursor<P>)
  {
    InBounds(c) && Run(e, e.initial, c.moves[..c.index]) == Some(c.board)
  }

  /** The board the dashboard rebuilds for move number `k`: a fresh board
      when `k <= 0`, otherwise the moves before `k` (never past the end of
      the list) replayed until the first one the engine rejects. */
  function ReplayTo<P>(e: Engine<P>, moves: seq<string>, k: int): P
  {
    if k <= 0 then e.initial
    else Replay(e, e.initial, moves[..if k < |moves| then k else |moves|])
  }

  /** When the first `k` moves are all accepted, the rebuilt board is the
      position they lead to. */
  lemma ReplayToAccepted<P>(e: Engine<P>, moves: seq<string>, k: nat)
    requires k <= |moves|
    requires Legal(e, moves[..k])
    ensures Some(ReplayTo(e, moves, k)) == Run(e, e.initial, moves[..k])
  {
    if k > 0 {
      ReplayOfAccepted(e, e.initial, moves[..k]);
    } else {
      assert moves[..k] == [];
    }
  }

  /** A start cursor is consistent whatever its moves. */
  lemma StartConsistent<P>(e: Engine<P>, moves: seq<string>)
    ensures Consistent(e, Start(e, moves))
  {
    assert moves[..0] == [];
  }

  /** From a consistent cursor that is not at the end, playing the next move
      is one more `apply` on the board, and when it is accepted the cursor
      one further on is consistent again. */
  lemma StepForward<P>(e: Engine<P>, c: Cursor<P>)
    requires Consistent(e, c)
    requires c.index < |c.moves|
    ensures Run(e, e.initial, c.moves[..c.index + 1]) == e.apply(c.board, c.moves[c.index])
  {
    assert c.moves[..c.index + 1] == c.moves[..c.index] + [c.moves[c.index]];
    RunSnoc(e, e.initial, c.moves[..c.index], c.moves[c.index]);
  }
}
