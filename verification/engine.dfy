/**
 The chess library as the dashboard sees it.

 The dashboard never looks inside a board: it creates a fresh one
 (`chess.Board()`) and asks it to play a move given in standard algebraic
 notation (`push_san`), which either succeeds or raises. The model keeps
 exactly that much: a position type `P`, a start position and a partial
 move application. Everything else about chess is the library's business.
 */
module Engine {

  datatype Option<+T> = None | Some(value: T)

  /** `initial` is a fresh board; `apply(p, san)` is the position after
      playing `san` in `p`, or None when the library rejects the move as
      invalid, illegal or ambiguous. */
  datatype Engine<!P> = Engine(initial: P, apply: (P, string) -> Option<P>)

  /** Plays one more move after an optional position. */
  function Then<P>(e: Engine<P>, r: Option<P>, move: string): Option<P>
  {
    match r
    case None => None
    case Some(p) => e.apply(p, move)
  }

  /** Strict fold: plays every move in order from `p`; None as soon as one
      move is rejected. */
  function Run<P>(e: Engine<P>, p: P, moves: seq<string>): Option<P>
    decreases |moves|
  {
    if |moves| == 0 then Some(p)
    else match e.apply(p, moves[0])
      case None => None
      case Some(q) => Run(e, q, moves[1..])
  }

  /** Every move of `moves` is accepted when played in order from a fresh board. */
  predicate Legal<P>(e: Engine<P>, moves: seq<string>)
  {
    Run(e, e.initial, moves).Some?
  }

  /** Lenient fold, the shape of the dashboard's replay loops: plays moves in
      order from `p` and stops at the first rejected one, keeping the last
      position reached. */
  function Replay<P>(e: Engine<P>, p: P, moves: seq<string>): P
    decreases |moves|
  {
    if |moves| == 0 then p
    else match e.apply(p, moves[0])
      case None => p
      case Some(q) => Replay(e, q, moves[1..])
  }

  /** How many moves `Replay` plays before it stops: the first `n` moves are
      all accepted and lead to the replayed position, and move `n`, if there
      is one, is rejected there. */
  function Reached<P>(e: Engine<P>, p: P, moves: seq<string>): (n: nat)
    ensures n <= |moves|
    ensures Run(e, p, moves[..n]) == Some(Replay(e, p, moves))
    ensures n < |moves| ==> e.apply(Replay(e, p, moves), moves[n]) == None
    decreases |moves|
  {
    if |moves| == 0 then 0
    else match e.apply(p, moves[0])
      case None => 0
      case Some(q) =>
        var k := Reached(e, q, moves[1..]);
        assert moves[..k + 1][1..] == moves[1..][..k];
        k + 1
  }

  /** Running `a + b` is running `a` and then `b` from where `a` ended. */
  lemma {:induction false} RunAppend<P>(e: Engine<P>, p: P, a: seq<string>, b: seq<string>)
    ensures Run(e, p, a + b) ==
      match Run(e, p, a)
      case None => None
      case Some(q) => Run(e, q, b)
    decreases |a|
  {
    if |a| > 0 {
      assert (a + b)[1..] == a[1..] + b;
      match e.apply(p, a[0]) {
        case None =>
        case Some(q) => RunAppend(e, q, a[1..], b);
      }
    } else {
      assert a + b == b;
    }
  }

  /** Running one more move is one more `apply`. */
  lemma RunSnoc<P>(e: Engine<P>, p: P, moves: seq<string>, move: string)
    ensures Run(e, p, moves + [move]) == Then(e, Run(e, p, moves), move)
  {
    RunAppend(e, p, moves, [move]);
    match Run(e, p, moves) {
      case None =>
      case Some(q) =>
        assert [move][1..] == [];
    }
  }

  /** Every prefix of an accepted sequence is accepted. */
  lemma RunPrefix<P>(e: Engine<P>, p: P, moves: seq<string>, k: nat)
    requires k <= |moves|
    requires Run(e, p, moves).Some?
    ensures Run(e, p, moves[..k]).Some?
  {
    assert moves == moves[..k] + moves[k..];
    RunAppend(e, p, moves[..k], moves[k..]);
  }

  /** Characterisation of `Replay`, the converse of `Reached`: if the first
      `k` moves lead to `b` and move `k` is rejected in `b` (or there is no
      move `k`), the replay ends in `b`. */
  lemma {:induction false} ReplayStopsAt<P>(e: Engine<P>, p: P, moves: seq<string>, k: nat, b: P)
    requires k <= |moves|
    requires Run(e, p, moves[..k]) == Some(b)
    requires k < |moves| ==> e.apply(b, moves[k]) == None
    ensures Replay(e, p, moves) == b
    decreases |moves|
  {
    if k == 0 {
      assert moves[..0] == [];
      if |moves| > 0 {
        assert e.apply(p, moves[0]) == None;
      }
    } else {
      assert moves[..k][0] == moves[0];
      match e.apply(p, moves[0]) {
        case None =>
          assert false;
        case Some(q) =>
          assert moves[..k][1..] == moves[1..][..k - 1];
          ReplayStopsAt(e, q, moves[1..], k - 1, b);
      }
    }
  }

  /** When every move is accepted, the lenient replay and the strict run agree. */
  lemma ReplayOfAccepted<P>(e: Engine<P>, p: P, moves: seq<string>)
    requires Run(e, p, moves).Some?
    ensures Replay(e, p, moves) == Run(e, p, moves).value
  {
    assert moves[..|moves|] == moves;
    ReplayStopsAt(e, p, moves, |moves|, Run(e, p, moves).value);
  }
}
