/**
 Turning an opening's move string into a move list.

 The dataset stores an opening's moves as one string ("e4 e5 Nf3"). The
 dashboard splits it on single spaces, the way Python's `str.split(' ')`
 does (so runs of spaces produce empty pieces), and keeps only the
 non-empty pieces; an empty string gives no moves at all.
 */
module Moves {

  const Space: char := ' '

  /** `Join(pieces, sep)` is `sep.join(pieces)`: the pieces with one
      separator between neighbours. */
  function Join(pieces: seq<string>, sep: char): string
    decreases |pieces|
  {
    if |pieces| == 0 then ""
    else if |pieces| == 1 then pieces[0]
    else pieces[0] + [sep] + Join(pieces[1..], sep)
  }

  /** `Split(s, sep)` is Python's `s.split(sep)` for a one-character
      separator: the maximal separator-free stretches of `s`, empty ones
      included, so there is always one more piece than separators. */
  function Split(s: string, sep: char): (pieces: seq<string>)
    ensures |pieces| >= 1
    ensures forall i :: 0 <= i < |pieces| ==> sep !in pieces[i]
    ensures Join(pieces, sep) == s
    decreases |s|
  {
    if |s| == 0 then [""]
    else
      var rest := Split(s[1..], sep);
      if s[0] == sep then
        assert [s[0]] + Join(rest, sep) == s;
        [""] + rest
      else
        var pieces := [[s[0]] + rest[0]] + rest[1..];
        assert pieces[1..] == rest[1..];
        assert Join(pieces, sep) == [s[0]] + Join(rest, sep) by {
          if |rest| > 1 {
            assert Join(rest, sep) == rest[0] + [sep] + Join(rest[1..], sep);
          }
        }
        assert [s[0]] + s[1..] == s;
        pieces
  }

  /** The pieces that are not empty, in their original order. */
  function NonEmpty(pieces: seq<string>): seq<string>
    decreases |pieces|
  {
    if |pieces| == 0 then []
    else if pieces[0] == "" then NonEmpty(pieces[1..])
    else [pieces[0]] + NonEmpty(pieces[1..])
  }

  /** A well-formed move token: not empty and free of spaces. */
  predicate IsToken(t: string)
  {
    t != "" && Space !in t
  }

  /** The move list of a dataset move string. */
  function Tokenize(movesStr: string): (moves: seq<string>)
    ensures forall i :: 0 <= i < |moves| ==> IsToken(moves[i])
    ensures movesStr == "" ==> moves == []
  {
    if movesStr == "" then []
    else
      var pieces := Split(movesStr, Space);
      NonEmptyKeepsTokens(pieces);
      NonEmpty(pieces)
  }

  /** Filtering separator-free pieces leaves tokens. */
  lemma {:induction false} NonEmptyKeepsTokens(pieces: seq<string>)
    requires forall i :: 0 <= i < |pieces| ==> Space !in pieces[i]
    ensures forall i :: 0 <= i < |NonEmpty(pieces)| ==> IsToken(NonEmpty(pieces)[i])
    decreases |pieces|
  {
    if |pieces| > 0 {
      NonEmptyKeepsTokens(pieces[1..]);
    }
  }

  /** Pieces that are already tokens pass the filter unchanged. */
  lemma {:induction false} NonEmptyOfTokens(tokens: seq<string>)
    requires forall i :: 0 <= i < |tokens| ==> IsToken(tokens[i])
    ensures NonEmpty(tokens) == tokens
    decreases |tokens|
  {
    if |tokens| > 0 {
      NonEmptyOfTokens(tokens[1..]);
    }
  }

  /** Splitting a join of separator-free pieces gives the pieces back. */
  lemma {:induction false} SplitJoin(pieces: seq<string>, sep: char)
    requires |pieces| >= 1
    requires forall i :: 0 <= i < |pieces| ==> sep !in pieces[i]
    ensures Split(Join(pieces, sep), sep) == pieces
    decreases |pieces|, |pieces[0]|
  {
    var s := Join(pieces, sep);
    if |pieces[0]| == 0 {
      if |pieces| == 1 {
        assert s == "";
      } else {
        assert s == [sep] + Join(pieces[1..], sep);
        assert s[1..] == Join(pieces[1..], sep);
        SplitJoin(pieces[1..], sep);
        assert pieces == [""] + pieces[1..];
      }
    } else {
      var c := pieces[0][0];
      var shorter := [pieces[0][1..]] + pieces[1..];
      assert shorter[1..] == pieces[1..];
      assert c != sep by { assert c == pieces[0][0]; }
      assert s == [c] + Join(shorter, sep) by {
        assert pieces[0] == [c] + pieces[0][1..];
      }
      assert s[1..] == Join(shorter, sep);
      SplitJoin(shorter, sep);
      assert pieces == [[c] + shorter[0]] + shorter[1..] by {
        assert pieces[0] == [c] + pieces[0][1..];
      }
    }
  }

  /** Round trip: tokenising the space-separated join of tokens gives the
      same tokens back. */
  lemma TokenizeJoin(tokens: seq<string>)
    requires forall i :: 0 <= i < |tokens| ==> IsToken(tokens[i])
    ensures Tokenize(Join(tokens, Space)) == tokens
  {
    if |tokens| > 0 {
      assert Join(tokens, Space) != "" by {
        if |tokens| > 1 {
          assert Join(tokens, Space) == tokens[0] + [Space] + Join(tokens[1..], Space);
        }
      }
      SplitJoin(tokens, Space);
      NonEmptyOfTokens(tokens);
    }
  }

  /** Splitting at one separator: the pieces of `a`, then those of `b`. */
  /** Joining two non-empty piece lists puts one separator between them. */
  lemma {:induction false} JoinAppend(x: seq<string>, y: seq<string>, sep: char)
    requires |x| >= 1 && |y| >= 1
    ensures Join(x + y, sep) == Join(x, sep) + [sep] + Join(y, sep)
    decreases |x|
  {
    assert (x + y)[0] == x[0];
    assert (x + y)[1..] == x[1..] + y;
    if |x| > 1 {
      JoinAppend(x[1..], y, sep);
    }
  }

  /** Splitting at one separator: the pieces of `a`, then those of `b`. */
  lemma SplitAtSeparator(a: string, b: string, sep: char)
    ensures Split(a + [sep] + b, sep) == Split(a, sep) + Split(b, sep)
  {
    var pieces := Split(a, sep) + Split(b, sep);
    JoinAppend(Split(a, sep), Split(b, sep), sep);
    assert forall i :: 0 <= i < |pieces| ==> sep !in pieces[i] by {
      forall i | 0 <= i < |pieces|
        ensures sep !in pieces[i]
      {
        if i >= |Split(a, sep)| {
          assert pieces[i] == Split(b, sep)[i - |Split(a, sep)|];
        }
      }
    }
    SplitJoin(pieces, sep);
  }

  /** Filtering a concatenation filters each part. */
  lemma {:induction false} NonEmptyAppend(x: seq<string>, y: seq<string>)
    ensures NonEmpty(x + y) == NonEmpty(x) + NonEmpty(y)
    decreases |x|
  {
    if |x| == 0 {
      assert x + y == y;
    } else {
      assert (x + y)[0] == x[0];
      assert (x + y)[1..] == x[1..] + y;
      NonEmptyAppend(x[1..], y);
    }
  }

  /** The empty-string branch agrees with splitting and filtering. */
  lemma TokenizeIsFilteredSplit(movesStr: string)
    ensures Tokenize(movesStr) == NonEmpty(Split(movesStr, Space))
  {
    if movesStr == "" {
      assert Split(movesStr, Space) == [""];
      assert NonEmpty([""]) == NonEmpty([""][1..]);
    }
  }

  /** A space cuts the move string in two: the moves of the whole are the
      moves of the part before it followed by the moves of the part after
      it. With `TokenizeSingle` this fixes the move list of every string,
      runs of spaces and leading or trailing spaces included. */
  lemma TokenizeAtSpace(a: string, b: string)
    ensures Tokenize(a + [Space] + b) == Tokenize(a) + Tokenize(b)
  {
    TokenizeIsFilteredSplit(a + [Space] + b);
    TokenizeIsFilteredSplit(a);
    TokenizeIsFilteredSplit(b);
    SplitAtSeparator(a, b, Space);
    NonEmptyAppend(Split(a, Space), Split(b, Space));
  }

  /** A string with no space is one move, when it is not empty. */
  lemma TokenizeSingle(t: string)
    requires IsToken(t)
    ensures Tokenize(t) == [t]
  {
    assert Join([t], Space) == t;
    SplitJoin([t], Space);
    assert NonEmpty([t]) == [t] + NonEmpty([t][1..]);
  }

  /** All characters of the pieces, in order. */
  function Concat(pieces: seq<string>): string
    decreases |pieces|
  {
    if |pieces| == 0 then "" else pieces[0] + Concat(pieces[1..])
  }

  /** `s` without its spaces. */
  function WithoutSpaces(s: string): string
    decreases |s|
  {
    if |s| == 0 then ""
    else if s[0] == Space then WithoutSpaces(s[1..])
    else [s[0]] + WithoutSpaces(s[1..])
  }

  lemma {:induction false} ConcatNonEmpty(pieces: seq<string>)
    ensures Concat(NonEmpty(pieces)) == Concat(pieces)
    decreases |pieces|
  {
    if |pieces| > 0 {
      ConcatNonEmpty(pieces[1..]);
    }
  }

  lemma {:induction false} ConcatSplit(s: string)
    ensures Concat(Split(s, Space)) == WithoutSpaces(s)
    decreases |s|
  {
    if |s| > 0 {
      ConcatSplit(s[1..]);
      var rest := Split(s[1..], Space);
      if s[0] != Space {
        assert Concat(rest) == rest[0] + Concat(rest[1..]);
        var pieces := [[s[0]] + rest[0]] + rest[1..];
        assert pieces[1..] == rest[1..];
        assert Concat(pieces) == [s[0]] + rest[0] + Concat(rest[1..]);
      } else {
        assert Concat([""] + rest) == Concat(rest) by {
          assert ([""] + rest)[1..] == rest;
        }
      }
    }
  }

  /** Tokenising loses nothing but spaces: the tokens, glued together,
      are the move string with its spaces taken out. */
  lemma TokensCoverInput(movesStr: string)
    ensures Concat(Tokenize(movesStr)) == WithoutSpaces(movesStr)
  {
    if movesStr != "" {
      ConcatNonEmpty(Split(movesStr, Space));
      ConcatSplit(movesStr);
    }
  }
}
