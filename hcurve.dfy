/**
 * The H-curve scan (move_H_curve): the Hilbert-curve L-system is rewritten
 * for seven rounds from the axiom "a", and a turtle then walks the string.
 * For every symbol the stage position is read; 'F' commands a move to that
 * position plus the heading, '+' and '-' turn the heading a quarter turn,
 * and every other symbol changes nothing.
 */
module HCurve {
  import opened Seqs

  /** range(7): the number of rewriting rounds. */
  const Rounds: nat := 7
  /** vx = 4e-6: the length of one step, in metres. */
  const Step: real := 0.000004

  /** The two rules of the L-system. */
  function RuleA(): string { "-bF+aFa+Fb-" }
  function RuleB(): string { "+aF-bFb-Fa+" }

  /** The replacement for one symbol: the two rules, and a copy of anything else. */
  function Production(c: char): string {
    if c == 'a' then RuleA()
    else if c == 'b' then RuleB()
    else [c]
  }

  /** One round of rewriting: every symbol replaced by its production, in order. */
  function Rewrite(s: string): string {
    if s == [] then []
    else Rewrite(s[..|s| - 1]) + Production(s[|s| - 1])
  }

  /** hilbert_seq after n rounds from "a". */
  function Expand(n: nat): string {
    if n == 0 then "a" else Rewrite(Expand(n - 1))
  }

  function Pow4(n: nat): (r: nat)
    ensures r >= 1
  {
    if n == 0 then 1 else 4 * Pow4(n - 1)
  }

  /** The symbols the curve is written in. */
  predicate IsSymbol(c: char) {
    c == 'a' || c == 'b' || c == 'F' || c == '+' || c == '-'
  }

  predicate AllSymbols(s: string) {
    forall i :: 0 <= i < |s| ==> IsSymbol(s[i])
  }

  /** Rewriting a prefix one symbol longer appends that symbol's production. */
  lemma RewriteSnoc(s: string, i: int)
    requires 0 <= i < |s|
    ensures Rewrite(s[..i + 1]) == Rewrite(s[..i]) + Production(s[i])
  {
    assert s[..i + 1][..i] == s[..i];
  }

  lemma RuleACounts()
    ensures Count(RuleA(), 'a') == 2 && Count(RuleA(), 'b') == 2 && Count(RuleA(), 'F') == 3
    ensures Count(RuleA(), '+') == 2 && Count(RuleA(), '-') == 2 && |RuleA()| == 11
  {
    CountMultiset(RuleA(), 'a');
    CountMultiset(RuleA(), 'b');
    CountMultiset(RuleA(), 'F');
    CountMultiset(RuleA(), '+');
    CountMultiset(RuleA(), '-');
  }

  lemma RuleBCounts()
    ensures Count(RuleB(), 'a') == 2 && Count(RuleB(), 'b') == 2 && Count(RuleB(), 'F') == 3
    ensures Count(RuleB(), '+') == 2 && Count(RuleB(), '-') == 2 && |RuleB()| == 11
  {
    CountMultiset(RuleB(), 'a');
    CountMultiset(RuleB(), 'b');
    CountMultiset(RuleB(), 'F');
    CountMultiset(RuleB(), '+');
    CountMultiset(RuleB(), '-');
  }

  /** The number of a's and b's: the symbols a round replaces. */
  function Rules(s: string): nat {
    Count(s, 'a') + Count(s, 'b')
  }

  /** Each rule writes two a's and two b's; a copied symbol is neither. */
  lemma ProductionCountAB(c: char, x: char)
    requires x == 'a' || x == 'b'
    ensures Count(Production(c), x) == if c == 'a' || c == 'b' then 2 else 0
  {
    if c == 'a' {
      RuleACounts();
    } else if c == 'b' {
      RuleBCounts();
    }
  }

  /** Each rule writes three F's; an F is copied. */
  lemma ProductionCountF(c: char)
    ensures Count(Production(c), 'F') == if c == 'a' || c == 'b' then 3 else if c == 'F' then 1 else 0
  {
    if c == 'a' {
      RuleACounts();
    } else if c == 'b' {
      RuleBCounts();
    }
  }

  /** Each rule writes two '+' and two '-'; a turn is copied. */
  lemma ProductionCountTurn(c: char, x: char)
    requires x == '+' || x == '-'
    ensures Count(Production(c), x) == if c == 'a' || c == 'b' then 2 else if c == x then 1 else 0
  {
    if c == 'a' {
      RuleACounts();
    } else if c == 'b' {
      RuleBCounts();
    }
  }

  /** Rewriting a non-empty string is rewriting its front and appending the last symbol's production. */
  lemma RewriteLast(s: string, x: char)
    requires s != []
    ensures Count(Rewrite(s), x) == Count(Rewrite(s[..|s| - 1]), x) + Count(Production(s[|s| - 1]), x)
  {
    CountAppend(Rewrite(s[..|s| - 1]), Production(s[|s| - 1]), x);
  }

  /** After a round there are two a's and two b's for every a and b before it. */
  lemma {:induction false} RewriteCountAB(s: string, x: char)
    requires x == 'a' || x == 'b'
    ensures Count(Rewrite(s), x) == 2 * Rules(s)
  {
    if s != [] {
      RewriteCountAB(s[..|s| - 1], x);
      RewriteLast(s, x);
      ProductionCountAB(s[|s| - 1], x);
    }
  }

  /** A round keeps the F's and adds three for every a and b. */
  lemma {:induction false} RewriteCountF(s: string)
    ensures Count(Rewrite(s), 'F') == Count(s, 'F') + 3 * Rules(s)
  {
    if s != [] {
      RewriteCountF(s[..|s| - 1]);
      RewriteLast(s, 'F');
      ProductionCountF(s[|s| - 1]);
    }
  }

  /** A round keeps the turns and adds two '+' and two '-' for every a and b. */
  lemma {:induction false} RewriteCountTurn(s: string, x: char)
    requires x == '+' || x == '-'
    ensures Count(Rewrite(s), x) == Count(s, x) + 2 * Rules(s)
  {
    if s != [] {
      RewriteCountTurn(s[..|s| - 1], x);
      RewriteLast(s, x);
      ProductionCountTurn(s[|s| - 1], x);
    }
  }

  /** A round turns each a and b into eleven symbols and copies the rest. */
  lemma {:induction false} RewriteLength(s: string)
    ensures |Rewrite(s)| == |s| + 10 * Rules(s)
  {
    if s != [] {
      var front, last := s[..|s| - 1], s[|s| - 1];
      RewriteLength(front);
      if last == 'a' {
        RuleACounts();
      } else if last == 'b' {
        RuleBCounts();
      }
    }
  }

  /** Rewriting keeps the string within the curve's alphabet. */
  lemma {:induction false} RewriteSymbols(s: string)
    requires AllSymbols(s)
    ensures AllSymbols(Rewrite(s))
  {
    if s != [] {
      var front, last := s[..|s| - 1], s[|s| - 1];
      RewriteSymbols(front);
      var r := Rewrite(s);
      forall i | 0 <= i < |r|
        ensures IsSymbol(r[i])
      {
        if i >= |Rewrite(front)| {
          var p := Production(last);
          assert r[i] == p[i - |Rewrite(front)|];
          assert IsSymbol(RuleA()[i - |Rewrite(front)|]) || IsSymbol(RuleB()[i - |Rewrite(front)|]) || p == [last];
        }
      }
    }
  }

  /**
   * The tallies of a whole curve with n = Rules(s) rules still to expand:
   * n - 1 F's, as many '+' as '-' (two thirds of n - 1 each), (10n - 7) / 3
   * symbols, and nothing outside the alphabet.
   */
  predicate Tallied(s: string) {
    && Rules(s) >= 1
    && Count(s, 'F') == Rules(s) - 1
    && Count(s, '+') == Count(s, '-')
    && 3 * Count(s, '+') == 2 * (Rules(s) - 1)
    && 3 * |s| == 10 * Rules(s) - 7
    && AllSymbols(s)
  }

  /** A round keeps a curve's tallies and multiplies its a's and b's by four. */
  lemma RewriteTallied(s: string)
    requires Tallied(s)
    ensures Tallied(Rewrite(s)) && Rules(Rewrite(s)) == 4 * Rules(s)
  {
    RewriteCountAB(s, 'a');
    RewriteCountAB(s, 'b');
    RewriteCountF(s);
    RewriteCountTurn(s, '+');
    RewriteCountTurn(s, '-');
    RewriteLength(s);
    RewriteSymbols(s);
  }

  /** The axiom "a" is a curve with one rule to expand. */
  lemma AxiomTallied()
    ensures Tallied("a") && Rules("a") == 1
  {
    assert "a" == ['a'];
  }

  /** After n rounds from "a" there are 4^n a's and b's together, and the tallies of a curve. */
  lemma {:induction false} ExpandTallied(n: nat)
    ensures Tallied(Expand(n)) && Rules(Expand(n)) == Pow4(n)
  {
    if n == 0 {
      AxiomTallied();
    } else {
      var e := Expand(n - 1);
      ExpandTallied(n - 1);
      RewriteTallied(e);
    }
  }

  /** range(7): seven rounds give 4^7 = 16384 a's and b's. */
  lemma SevenRounds()
    ensures Pow4(Rounds) == 16384
  {
  }

  /**
   * A curve of 4^n = 16384 a's and b's, the one seven rounds give: 16383
   * moves, 10922 turns each way, 54611 symbols.
   */
  lemma ScanCounts(n: nat)
    requires Pow4(n) == 16384
    ensures Rules(Expand(n)) == 16384
    ensures Count(Expand(n), 'F') == 16383
    ensures Count(Expand(n), '+') == 10922 && Count(Expand(n), '-') == 10922
    ensures |Expand(n)| == 54611
  {
    ExpandTallied(n);
  }

  /** One pass of move_H_curve's inner loop: every symbol replaced by its production, in order. */
  method RewriteRound(hilbert: string) returns (next: string)
    ensures next == Rewrite(hilbert)
  {
    next := "";
    var j := 0;
    while j < |hilbert|
      invariant 0 <= j <= |hilbert| && next == Rewrite(hilbert[..j])
    {
      var c := hilbert[j];
      if c == 'a' {
        next := next + RuleA();
      } else if c == 'b' {
        next := next + RuleB();
      } else {
        next := next + [c];
      }
      RewriteSnoc(hilbert, j);
      j := j + 1;
    }
    TakeAll(hilbert);
  }

  /** The loops of move_H_curve that build hilbert_seq. */
  method HilbertSequence() returns (hilbert: string)
    ensures hilbert == Expand(Rounds)
  {
    hilbert := "a";
    var round := 0;
    while round < Rounds
      invariant 0 <= round <= Rounds && hilbert == Expand(round)
    {
      hilbert := RewriteRound(hilbert);
      round := round + 1;
    }
  }

  /** A planar vector: a stage position or the heading (vx, vy). */
  datatype Vec = Vec(x: real, y: real)

  function Add(p: Vec, d: Vec): Vec {
    Vec(p.x + d.x, p.y + d.y)
  }

  /** The heading before the first symbol: (vx, vy) = (4e-6, 0). */
  const Start: Vec := Vec(Step, 0.0)

  /** '+' sets (vx, vy) to (vy, -vx), '-' to (-vy, vx); other symbols keep it. */
  function Turn(h: Vec, c: char): Vec {
    if c == '+' then Vec(h.y, -h.x)
    else if c == '-' then Vec(-h.y, h.x)
    else h
  }

  /** The heading after k quarter turns the '+' way (k taken modulo 4). */
  function Rotated(h: Vec, k: int): Vec {
    var q := k % 4;
    if q == 0 then h
    else if q == 1 then Vec(h.y, -h.x)
    else if q == 2 then Vec(-h.x, -h.y)
    else Vec(-h.y, h.x)
  }

  /** One of the four axis-aligned steps of length 4e-6. */
  predicate AxisStep(d: Vec) {
    d == Vec(Step, 0.0) || d == Vec(0.0, Step) || d == Vec(-Step, 0.0) || d == Vec(0.0, -Step)
  }

  /** '+' and '-' undo each other. */
  lemma TurnsUndo(h: Vec)
    ensures Turn(Turn(h, '+'), '-') == h && Turn(Turn(h, '-'), '+') == h
  {
  }

  /** Four identical turns bring the heading back. */
  lemma FourTurns(h: Vec, c: char)
    ensures Turn(Turn(Turn(Turn(h, c), c), c), c) == h
  {
  }

  /** A '+' is one more quarter turn and a '-' one fewer. */
  lemma TurnRotated(h: Vec, k: int, c: char)
    ensures Turn(Rotated(h, k), c) == Rotated(h, if c == '+' then k + 1 else if c == '-' then k - 1 else k)
  {
  }

  /** Rotating the start heading by any number of quarter turns gives an axis step. */
  lemma RotatedStartIsAxisStep(k: int)
    ensures AxisStep(Rotated(Start, k))
  {
  }

  /** (vx, vy) after the turtle has read s, starting from h. */
  function HeadingAfter(s: string, h: Vec): Vec {
    if s == [] then h
    else Turn(HeadingAfter(s[..|s| - 1], h), s[|s| - 1])
  }

  lemma HeadingSnoc(s: string, i: int, h: Vec)
    requires 0 <= i < |s|
    ensures HeadingAfter(s[..i + 1], h) == Turn(HeadingAfter(s[..i], h), s[i])
  {
    assert s[..i + 1][..i] == s[..i];
  }

  /** The heading depends only on how many '+' and '-' were read: their difference, modulo 4. */
  lemma {:induction false} HeadingByTurns(s: string, h: Vec)
    ensures HeadingAfter(s, h) == Rotated(h, Count(s, '+') as int - Count(s, '-'))
  {
    if s != [] {
      var front, last := s[..|s| - 1], s[|s| - 1];
      HeadingByTurns(front, h);
      DropLast(s);
      TurnRotated(h, Count(front, '+') as int - Count(front, '-'), last);
    }
  }

  /** Whatever the turtle has read, the heading is one of the four axis steps. */
  lemma HeadingIsAxisStep(s: string)
    ensures AxisStep(HeadingAfter(s, Start))
  {
    HeadingByTurns(s, Start);
    RotatedStartIsAxisStep(Count(s, '+') as int - Count(s, '-'));
  }

  /** A whole curve has as many '+' as '-', so the walk ends facing where it began. */
  lemma CurveEndsWithStartHeading(n: nat)
    ensures HeadingAfter(Expand(n), Start) == Start
  {
    ExpandTallied(n);
    HeadingByTurns(Expand(n), Start);
  }

  /** One commanded move: the position read, and the target written. */
  datatype Move = Move(from: Vec, target: Vec)

  /**
   * The moves the turtle commands while reading s, when reading(i) is the
   * position read before symbol i: for each 'F', the position plus the
   * current heading.
   */
  function Moves(s: string, reading: nat -> Vec, h: Vec): seq<Move> {
    if s == [] then []
    else
      var i := |s| - 1;
      Moves(s[..i], reading, h) + (if s[i] == 'F' then [Move(reading(i), Add(reading(i), HeadingAfter(s[..i], h)))] else [])
  }

  lemma MovesSnoc(s: string, i: int, reading: nat -> Vec, h: Vec)
    requires 0 <= i < |s|
    ensures Moves(s[..i + 1], reading, h) ==
      Moves(s[..i], reading, h) + (if s[i] == 'F' then [Move(reading(i), Add(reading(i), HeadingAfter(s[..i], h)))] else [])
  {
    assert s[..i + 1][..i] == s[..i];
  }

  /** One move per 'F', and none for any other symbol. */
  lemma {:induction false} MovesCount(s: string, reading: nat -> Vec, h: Vec)
    ensures |Moves(s, reading, h)| == Count(s, 'F')
  {
    if s != [] {
      MovesCount(s[..|s| - 1], reading, h);
      DropLast(s);
    }
  }

  /** Every move's target is its starting point plus an axis step of 4e-6. */
  lemma {:induction false} MovesAreAxisSteps(s: string, reading: nat -> Vec)
    ensures forall m :: m in Moves(s, reading, Start) ==> exists d :: AxisStep(d) && m.target == Add(m.from, d)
  {
    if s != [] {
      var i := |s| - 1;
      MovesAreAxisSteps(s[..i], reading);
      HeadingIsAxisStep(s[..i]);
    }
  }

  /**
   * The walk of move_H_curve over s: read the position, command a move for
   * 'F', turn for '+' and '-'. It returns the moves and the final heading.
   */
  method Walk(s: string, reading: nat -> Vec) returns (moves: seq<Move>, v: Vec)
    ensures moves == Moves(s, reading, Start)
    ensures v == HeadingAfter(s, Start)
  {
    moves, v := [], Start;
    var i := 0;
    while i < |s|
      invariant 0 <= i <= |s|
      invariant moves == Moves(s[..i], reading, Start)
      invariant v == HeadingAfter(s[..i], Start)
    {
      var c := s[i];
      var pos := reading(i);
      var newv := v;
      if c == 'F' {
        moves := moves + [Move(pos, Vec(pos.x + v.x, pos.y + v.y))];
      } else if c == '+' {
        newv := Vec(v.y, -v.x);
      } else if c == '-' {
        newv := Vec(-v.y, v.x);
      }
      v := newv;
      MovesSnoc(s, i, reading, Start);
      HeadingSnoc(s, i, Start);
      i := i + 1;
    }
    TakeAll(s);
  }

  /**
   * move_H_curve: build the seven-round curve and walk it. It commands 16383
   * moves, each an axis step of 4e-6 from the position read, and ends with
   * the heading it started with.
   */
  method MoveHCurve(reading: nat -> Vec) returns (moves: seq<Move>, v: Vec)
    ensures moves == Moves(Expand(Rounds), reading, Start)
    ensures |moves| == 16383
    ensures forall m :: m in moves ==> exists d :: AxisStep(d) && m.target == Add(m.from, d)
    ensures v == Start
  {
    var hilbert := HilbertSequence();
    moves, v := Walk(hilbert, reading);
    SevenRounds();
    ScanCounts(Rounds);
    MovesCount(hilbert, reading, Start);
    MovesAreAxisSteps(hilbert, reading);
    CurveEndsWithStartHeading(Rounds);
  }
}
