/**
 One user session of the dashboard: the opening viewer and the interactive
 board side by side. Every user action (a render with an opening chosen,
 a button press) is one atomic transition of the session record.
 */
module Dashboard {
  import opened Engine
  import opened MoveCursor
  import OpeningViewer
  import InteractiveBoard

  datatype Session<P> = Session(viewer: OpeningViewer.Viewer<P>, interactive: Cursor<P>)

  /** The user actions that change the session. */
  datatype Action =
    | ChooseOpening(name: string, movesStr: string)
    | PreviousMove
    | NextMove
    | SubmitMove(move: string)
    | PreviousInteractiveMove
    | NextInteractiveMove

  function Init<P>(e: Engine<P>): Session<P>
  {
    Session(OpeningViewer.Init(e), InteractiveBoard.Init(e))
  }

  /** One action; each touches only its own board. */
  function Step<P>(e: Engine<P>, s: Session<P>, a: Action): (r: Session<P>)
    ensures a.ChooseOpening? || a.PreviousMove? || a.NextMove? ==> r.interactive == s.interactive
    ensures a.SubmitMove? || a.PreviousInteractiveMove? || a.NextInteractiveMove? ==> r.viewer == s.viewer
  {
    match a
    case ChooseOpening(name, movesStr) => s.(viewer := OpeningViewer.Select(e, s.viewer, name, movesStr))
    case PreviousMove => s.(viewer := s.viewer.(cursor := OpeningViewer.Previous(e, s.viewer.cursor)))
    case NextMove => s.(viewer := s.viewer.(cursor := OpeningViewer.Next(e, s.viewer.cursor)))
    case SubmitMove(move) => s.(interactive := InteractiveBoard.MakeMove(e, s.interactive, move))
    case PreviousInteractiveMove => s.(interactive := InteractiveBoard.Previous(e, s.interactive))
    case NextInteractiveMove => s.(interactive := InteractiveBoard.Next(e, s.interactive))
  }

  /** The actions in order, from `s`. */
  function Steps<P>(e: Engine<P>, s: Session<P>, actions: seq<Action>): Session<P>
    decreases |actions|
  {
    if |actions| == 0 then s else Steps(e, Step(e, s, actions[0]), actions[1..])
  }

  /** Both boards show exactly the moves their cursors have played, and
      every interactive move is legal in sequence. */
  ghost predicate Sound<P>(e: Engine<P>, s: Session<P>)
  {
    Consistent(e, s.viewer.cursor) && InteractiveBoard.Valid(e, s.interactive)
  }

  lemma StepKeepsSound<P>(e: Engine<P>, s: Session<P>, a: Action)
    requires Sound(e, s)
    ensures Sound(e, Step(e, s, a))
  {
    match a
    case ChooseOpening(name, movesStr) => OpeningViewer.SelectKeepsConsistent(e, s.viewer, name, movesStr);
    case PreviousMove => OpeningViewer.PreviousKeepsConsistent(e, s.viewer.cursor);
    case NextMove => OpeningViewer.NextKeepsConsistent(e, s.viewer.cursor);
    case SubmitMove(move) => InteractiveBoard.MakeMoveKeepsValid(e, s.interactive, move);
    case PreviousInteractiveMove => InteractiveBoard.PreviousKeepsValid(e, s.interactive);
    case NextInteractiveMove => InteractiveBoard.NextKeepsValid(e, s.interactive);
  }

  /** Whatever the user does, from a new session: both indices stay within
      their move lists and both boards stay in step with their indices. */
  lemma ReachableSound<P>(e: Engine<P>, actions: seq<Action>)
    ensures Sound(e, Steps(e, Init(e), actions))
  {
    StartConsistent(e, []);
    InteractiveBoard.InitValid(e);
    StepsKeepSound(e, Init(e), actions);
  }

  lemma {:induction false} StepsKeepSound<P>(e: Engine<P>, s: Session<P>, actions: seq<Action>)
    requires Sound(e, s)
    ensures Sound(e, Steps(e, s, actions))
    decreases |actions|
  {
    if |actions| > 0 {
      StepKeepsSound(e, s, actions[0]);
      StepsKeepSound(e, Step(e, s, actions[0]), actions[1..]);
    }
  }
}
