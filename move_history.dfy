/** The move-history panel of the client: the moves of a game grouped into
    numbered (white, black) rows, and the PGN text offered for download. */
module MoveHistory {
  import opened JsText

  /** One row of the table. */
  datatype Pair = Pair(moveNumber: nat, white: string, black: string)

  /** `moves[i] || ""`: the move at i, or "" past the end. */
  function At(moves: seq<string>, i: nat): (m: string)
    ensures i < |moves| ==> m == moves[i]
    ensures i >= |moves| ==> m == ""
  {
    if i < |moves| then moves[i] else ""
  }

  /** The rows as a function of the moves, for use in lemmas. */
  function PairsOf(moves: seq<string>): seq<Pair> {
    seq((|moves| + 1) / 2, k requires 0 <= k < (|moves| + 1) / 2 => Pair(k + 1, At(moves, 2 * k), At(moves, 2 * k + 1)))
  }

  /** The grouping loop of the component: one row per two moves, the last
      row's black move empty when the count is odd. */
  method MovePairs(moves: seq<string>) returns (pairs: seq<Pair>)
    ensures |pairs| == (|moves| + 1) / 2
    ensures forall k :: 0 <= k < |pairs| ==>
      pairs[k].moveNumber == k + 1 && pairs[k].white == At(moves, 2 * k) && pairs[k].black == At(moves, 2 * k + 1)
    ensures pairs == PairsOf(moves)
  {
    pairs := [];
    var i := 0;
    while i < |moves|
      invariant 0 <= i <= |moves| + 1 && i == 2 * |pairs|
      invariant forall k :: 0 <= k < |pairs| ==> pairs[k] == Pair(k + 1, At(moves, 2 * k), At(moves, 2 * k + 1))
    {
      pairs := pairs + [Pair(i / 2 + 1, At(moves, i), At(moves, i + 1))];
      i := i + 2;
    }
  }

  /** The moves read back from the rows, white then black, an empty black
      move left out. */
  function Unpair(pairs: seq<Pair>): (moves: seq<string>)
    ensures |moves| <= 2 * |pairs|
  {
    if pairs == [] then []
    else [pairs[0].white] + (if pairs[0].black == "" then [] else [pairs[0].black]) + Unpair(pairs[1..])
  }

  /** Unpair ignores the move numbers. */
  lemma {:induction false} UnpairIgnoresNumbers(p: seq<Pair>, q: seq<Pair>)
    requires |p| == |q|
    requires forall k :: 0 <= k < |p| ==> p[k].white == q[k].white && p[k].black == q[k].black
    ensures Unpair(p) == Unpair(q)
  {
    if p != [] {
      UnpairIgnoresNumbers(p[1..], q[1..]);
    }
  }

  /** Row k of the table. */
  lemma PairsOfAt(moves: seq<string>, k: nat)
    requires k < (|moves| + 1) / 2
    ensures k < |PairsOf(moves)| && PairsOf(moves)[k] == Pair(k + 1, At(moves, 2 * k), At(moves, 2 * k + 1))
  {
  }

  /** Dropping the first two moves drops the first row and keeps the moves
      of the others. */
  lemma PairsOfShift(moves: seq<string>)
    requires |moves| >= 2
    ensures |PairsOf(moves)[1..]| == |PairsOf(moves[2..])|
    ensures forall k :: 0 <= k < |PairsOf(moves[2..])| ==>
      PairsOf(moves)[1..][k].white == PairsOf(moves[2..])[k].white && PairsOf(moves)[1..][k].black == PairsOf(moves[2..])[k].black
  {
    var p, q := PairsOf(moves), PairsOf(moves[2..]);
    forall k | 0 <= k < |q|
      ensures p[1..][k].white == q[k].white && p[1..][k].black == q[k].black
    {
      PairsOfAt(moves, k + 1);
      PairsOfAt(moves[2..], k);
      assert At(moves, 2 * (k + 1)) == At(moves[2..], 2 * k);
      assert At(moves, 2 * (k + 1) + 1) == At(moves[2..], 2 * k + 1);
    }
  }

  /** Reading the rows back gives the moves again, when no move is empty. */
  lemma {:induction false} UnpairPairs(moves: seq<string>)
    requires forall i :: 0 <= i < |moves| ==> moves[i] != ""
    ensures Unpair(PairsOf(moves)) == moves
  {
    var p := PairsOf(moves);
    if |moves| == 0 {
    } else if |moves| == 1 {
      assert p == [Pair(1, moves[0], "")];
      assert Unpair(p[1..]) == [];
    } else {
      var rest := moves[2..];
      UnpairPairs(rest);
      var q := PairsOf(rest);
      PairsOfShift(moves);
      UnpairIgnoresNumbers(p[1..], q);
      assert p[0] == Pair(1, moves[0], moves[1]);
      assert moves == [moves[0]] + [moves[1]] + rest;
    }
  }

  /** `${moveNumber}. ${whiteMove} ${blackMove} `: it starts with a digit
      and ends with a space. */
  function PairText(p: Pair): (t: string)
    ensures |t| == |NatToDecimal(p.moveNumber)| + |p.white| + |p.black| + 4
    ensures '0' <= t[0] <= '9' && t[|t| - 1] == ' '
  {
    NatToDecimal(p.moveNumber) + ". " + p.white + " " + p.black + " "
  }

  /** The untrimmed PGN: the text of every row, in order. It is empty
      exactly when there are no rows, and otherwise starts with a digit and
      ends with a space. */
  function PgnOf(pairs: seq<Pair>): (r: string)
    ensures r == [] <==> pairs == []
    ensures r != [] ==> '0' <= r[0] <= '9' && r[|r| - 1] == ' '
  {
    if pairs == [] then "" else PgnOf(pairs[..|pairs| - 1]) + PairText(pairs[|pairs| - 1])
  }

  /** The download's text: the rows' texts concatenated, then trimmed. */
  method DownloadPgn(moves: seq<string>) returns (text: string)
    ensures text == Trim(PgnOf(PairsOf(moves)))
  {
    var pgn := "";
    var i := 0;
    ghost var pairs := PairsOf(moves);
    ghost var k := 0;
    while i < |moves|
      invariant 0 <= k <= |pairs| && i == 2 * k
      invariant pgn == PgnOf(pairs[..k])
    {
      var moveNumber := i / 2 + 1;
      var whiteMove := At(moves, i);
      var blackMove := At(moves, i + 1);
      var line := NatToDecimal(moveNumber) + ". " + whiteMove + " " + blackMove + " ";
      PairsOfAt(moves, k);
      assert line == PairText(pairs[k]);
      PgnOfPrefix(pairs, k);
      pgn := pgn + line;
      i := i + 2;
      k := k + 1;
    }
    assert pairs[..k] == pairs;
    text := Trim(pgn);
  }

  /** The PGN of one more row appends that row's text. */
  lemma PgnOfPrefix(pairs: seq<Pair>, n: nat)
    requires n < |pairs|
    ensures PgnOf(pairs[..n + 1]) == PgnOf(pairs[..n]) + PairText(pairs[n])
  {
    assert pairs[..n + 1][..n] == pairs[..n];
  }

  /** The untrimmed PGN of a non-empty row list begins with the first row's text. */
  lemma {:induction false} PgnStartsWithFirstRow(pairs: seq<Pair>)
    requires pairs != []
    ensures |PairText(pairs[0])| <= |PgnOf(pairs)| && PgnOf(pairs)[..|PairText(pairs[0])|] == PairText(pairs[0])
  {
    var init := pairs[..|pairs| - 1];
    if |pairs| == 1 {
      var first := PairText(pairs[0]);
      assert init == [] && PgnOf(pairs) == "" + first;
      assert ("" + first)[..|first|] == first;
    } else {
      PgnStartsWithFirstRow(init);
      assert init[0] == pairs[0];
      PrefixExtends(PairText(pairs[0]), PgnOf(init), PairText(pairs[|pairs| - 1]));
    }
  }

  /** A prefix of a string is a prefix of every extension of it. */
  lemma PrefixExtends(t: string, u: string, x: string)
    requires |t| <= |u| && u[..|t|] == t
    ensures |t| <= |u + x| && (u + x)[..|t|] == t
  {
    assert (u + x)[..|t|] == u[..|t|];
  }

  /** The PGN is empty exactly when there are no moves; otherwise it starts
      with "1. " and the first move. */
  lemma PgnEmptyIffNoMoves(moves: seq<string>)
    ensures Trim(PgnOf(PairsOf(moves))) == "" <==> moves == []
    ensures moves != [] ==> var s := PgnOf(PairsOf(moves));
      |s| >= 3 + |moves[0]| && s[..3 + |moves[0]|] == "1. " + moves[0]
  {
    var pairs := PairsOf(moves);
    if moves != [] {
      var s := PgnOf(pairs);
      PgnStartsWithFirstRow(pairs);
      assert pairs[0] == Pair(1, moves[0], At(moves, 1));
      FirstRowText(moves[0], At(moves, 1));
      var first := PairText(pairs[0]);
      assert s[..3 + |moves[0]|] == first[..3 + |moves[0]|] by {
        assert s[..3 + |moves[0]|] == s[..|first|][..3 + |moves[0]|];
      }
      TrimKeepsLeadingNonSpace(s);
    }
  }

  /** The first row's text begins with "1. " and the white move. */
  lemma FirstRowText(white: string, black: string)
    ensures var t := PairText(Pair(1, white, black));
      |t| >= 3 + |white| && t[..3 + |white|] == "1. " + white
  {
    assert NatToDecimal(1) == "1";
  }

  /** A string that does not start with whitespace does not trim to "". */
  lemma TrimKeepsLeadingNonSpace(s: string)
    requires s != [] && !IsSpace(s[0])
    ensures Trim(s) != ""
  {
    assert TrimStart(s) == s;
  }
}
