/**
 The opening viewer: the board under an opening's details, stepped through
 the opening's fixed move list with the "Previous Move" and "Next Move"
 buttons. Each button press, and each re-render with a selected opening,
 is one transition of an explicit state record.
 */
module OpeningViewer {
  import opened Engine
  import opened Moves
  import opened MoveCursor

  /** The entry of the opening selector that stands for "nothing selected". */
  const Placeholder: string := "---"

  /** `selectedKey` is the name of the opening the cursor was last reset
      for ("" before any selection). */
  datatype Viewer<P> = Viewer(selectedKey: string, cursor: Cursor<P>)

  /** The state a new session starts in. */
  function Init<P>(e: Engine<P>): Viewer<P>
  {
    Viewer("", Start(e, []))
  }

  /** A render with opening `name` (whose dataset move string is `movesStr`)
      chosen in the selector. Only a change of name resets the cursor. */
  function Select<P>(e: Engine<P>, v: Viewer<P>, name: string, movesStr: string): (r: Viewer<P>)
    ensures name == Placeholder || name == v.selectedKey ==> r == v
    ensures name != Placeholder && name != v.selectedKey ==>
      r.selectedKey == name && r.cursor.moves == Tokenize(movesStr) &&
      r.cursor.index == 0 && r.cursor.board == e.initial
  {
    if name == Placeholder || name == v.selectedKey then v
    else Viewer(name, Start(e, Tokenize(movesStr)))
  }

  /** "Next Move": disabled at the end of the list; otherwise the next move
      is played on the board and the index advances only if the engine
      accepts it. An index past the end (which consistent cursors never
      have) is the dashboard's "no more moves" warning and changes nothing. */
  function Next<P>(e: Engine<P>, c: Cursor<P>): (r: Cursor<P>)
    ensures r.moves == c.moves
    ensures r.index == c.index || r.index == c.index + 1
    ensures r.index == c.index + 1 <==> c.index < |c.moves| && e.apply(c.board, c.moves[c.index]).Some?
    ensures r.index == c.index + 1 ==> Some(r.board) == e.apply(c.board, c.moves[c.index])
    ensures r.index == c.index ==> r == c
  {
    if c.index == |c.moves| then c
    else if c.index > |c.moves| then c
    else match e.apply(c.board, c.moves[c.index])
      case None => c
      case Some(q) => c.(index := c.index + 1, board := q)
  }

  /** "Previous Move": disabled at the start; otherwise the index goes back
      one and the board is rebuilt from a fresh one by replaying the moves
      before the new index, stopping at the first the engine rejects. */
  function Previous<P>(e: Engine<P>, c: Cursor<P>): (r: Cursor<P>)
    ensures r.moves == c.moves
    ensures c.index == 0 ==> r == c
    ensures c.index > 0 ==> r.index == c.index - 1 && r.board == ReplayTo(e, c.moves, c.index - 1)
  {
    if c.index == 0 then c
    else
      var i := c.index - 1;
      c.(index := i, board := ReplayTo(e, c.moves, i))
  }

  /** "Previous Move" keeps the board in step with the index: the rebuilt
      board is the position after the moves before the new index. */
  lemma PreviousKeepsConsistent<P>(e: Engine<P>, c: Cursor<P>)
    requires Consistent(e, c)
    ensures Consistent(e, Previous(e, c))
  {
    if c.index > 0 {
      var i := c.index - 1;
      assert c.moves[..c.index][..i] == c.moves[..i];
      RunPrefix(e, e.initial, c.moves[..c.index], i);
      ReplayToAccepted(e, c.moves, i);
    }
  }

  /** "Next Move" keeps the board in step with the index. */
  lemma NextKeepsConsistent<P>(e: Engine<P>, c: Cursor<P>)
    requires Consistent(e, c)
    ensures Consistent(e, Next(e, c))
  {
    if c.index < |c.moves| {
      StepForward(e, c);
    }
  }

  /** Selecting an opening leaves a consistent cursor behind: either the
      untouched one or a fresh start. */
  lemma SelectKeepsConsistent<P>(e: Engine<P>, v: Viewer<P>, name: string, movesStr: string)
    requires Consistent(e, v.cursor)
    ensures Consistent(e, Select(e, v, name, movesStr).cursor)
  {
    StartConsistent(e, Tokenize(movesStr));
  }

  /** Re-rendering with the same opening still selected does not reset the
      navigation: a second `Select` with the same name changes nothing,
      whatever move string comes with it. */
  lemma SelectIdempotent<P>(e: Engine<P>, v: Viewer<P>, name: string, movesStr: string, movesStr': string)
    ensures Select(e, Select(e, v, name, movesStr), name, movesStr') == Select(e, v, name, movesStr)
  {
  }

  /** "Next Move" that plays a move, then "Previous Move", restores the
      cursor exactly, board included. */
  lemma NextThenPrevious<P>(e: Engine<P>, c: Cursor<P>)
    requires Consistent(e, c)
    requires Next(e, c).index == c.index + 1
    ensures Previous(e, Next(e, c)) == c
  {
    ReplayToAccepted(e, c.moves, c.index);
  }

  /** "Previous Move", then "Next Move", restores the cursor exactly: the
      move stepped back over was accepted before, so it is accepted again. */
  lemma PreviousThenNext<P>(e: Engine<P>, c: Cursor<P>)
    requires Consistent(e, c)
    requires c.index > 0
    ensures Next(e, Previous(e, c)) == c
  {
    PreviousKeepsConsistent(e, c);
    var p := Previous(e, c);
    StepForward(e, p);
    assert p.moves[..p.index + 1] == c.moves[..c.index];
  }

  /** `n` presses of "Next Move". */
  function Forward<P>(e: Engine<P>, c: Cursor<P>, n: nat): Cursor<P>
    decreases n
  {
    if n == 0 then c else Forward(e, Next(e, c), n - 1)
  }

  /** From a consistent cursor, `n` presses of "Next Move" over moves the
      engine accepts advance the index by exactly `n` and show the position
      those moves lead to. */
  lemma {:induction false} ForwardOverAccepted<P>(e: Engine<P>, c: Cursor<P>, n: nat)
    requires Consistent(e, c)
    requires c.index + n <= |c.moves|
    requires Legal(e, c.moves[..c.index + n])
    ensures Forward(e, c, n) == c.(index := c.index + n, board := Run(e, e.initial, c.moves[..c.index + n]).value)
    decreases n
  {
    if n == 0 {
    } else {
      StepForward(e, c);
      assert c.moves[..c.index + n][..c.index + 1] == c.moves[..c.index + 1];
      RunPrefix(e, e.initial, c.moves[..c.index + n], c.index + 1);
      NextKeepsConsistent(e, c);
      ForwardOverAccepted(e, Next(e, c), n - 1);
    }
  }

  /** Selecting a new opening whose moves are all legal and pressing
      "Next Move" once per move reaches the end of the list, showing the
      final position; one more press changes nothing. */
  lemma PlayThrough<P>(e: Engine<P>, v: Viewer<P>, name: string, movesStr: string)
    requires name != Placeholder && name != v.selectedKey
    requires Legal(e, Tokenize(movesStr))
    ensures var moves := Tokenize(movesStr);
      var end := Forward(e, Select(e, v, name, movesStr).cursor, |moves|);
      end.index == |moves| && Some(end.board) == Run(e, e.initial, moves) && Next(e, end) == end
  {
    var moves := Tokenize(movesStr);
    StartConsistent(e, moves);
    assert moves[..|moves|] == moves;
    ForwardOverAccepted(e, Start(e, moves), |moves|);
  }
}
