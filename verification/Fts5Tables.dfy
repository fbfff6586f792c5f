/**
 The tables of the FTS5 expression parser, the lookups in them, and the automaton
 they compress.  `Auto` is the listing of states in fts5parse.out; TerminalMoves and
 NonterminalMoves prove that the lookups find exactly its moves.
 */
module Fts5Tables {

  // Symbols: terminals are below 16.

  const END := 0
  const OR := 1
  const AND := 2
  const NOT := 3
  const TERM := 4
  const COLON := 5
  const LP := 6
  const RP := 7
  const MINUS := 8
  const LCP := 9
  const RCP := 10
  const STRING := 11
  const COMMA := 12
  const PLUS := 13
  const STAR := 14
  const ERROR_TOKEN := 15
  const INPUT := 16
  const EXPR := 17
  const CNEARSET := 18
  const EXPRLIST := 19
  const NEARSET := 20
  const COLSET := 21
  const COLSETLIST := 22
  const NEARPHRASES := 23
  const PHRASE := 24
  const NEARDIST_OPT := 25
  const STAR_OPT := 26

  const YY_MAX_SHIFT := 28
  const YY_MIN_SHIFTREDUCE := 45
  const YY_MAX_SHIFTREDUCE := 70
  const YY_MIN_REDUCE := 71
  const YY_MAX_REDUCE := 96
  const YY_ERROR_ACTION := 97
  const YY_ACCEPT_ACTION := 98
  const YY_NO_ACTION := 99
  const YY_ACTTAB_COUNT := 85
  const YY_REDUCE_COUNT := 14

  /** yy_action */
  function YyAction(i: int): int {
    match i
    case 0 => 98 case 1 => 16 case 2 => 51 case 3 => 5 case 4 => 53
    case 5 => 27 case 6 => 83 case 7 => 7 case 8 => 26 case 9 => 15
    case 10 => 51 case 11 => 5 case 12 => 53 case 13 => 27 case 14 => 13
    case 15 => 69 case 16 => 26 case 17 => 48 case 18 => 51 case 19 => 5
    case 20 => 53 case 21 => 27 case 22 => 19 case 23 => 11 case 24 => 26
    case 25 => 9 case 26 => 20 case 27 => 51 case 28 => 5 case 29 => 53
    case 30 => 27 case 31 => 13 case 32 => 22 case 33 => 26 case 34 => 28
    case 35 => 51 case 36 => 5 case 37 => 53 case 38 => 27 case 39 => 68
    case 40 => 1 case 41 => 26 case 42 => 19 case 43 => 11 case 44 => 17
    case 45 => 9 case 46 => 52 case 47 => 10 case 48 => 53 case 49 => 27
    case 50 => 23 case 51 => 24 case 52 => 26 case 53 => 54 case 54 => 3
    case 55 => 4 case 56 => 2 case 57 => 26 case 58 => 6 case 59 => 21
    case 60 => 49 case 61 => 71 case 62 => 3 case 63 => 4 case 64 => 2
    case 65 => 7 case 66 => 56 case 67 => 59 case 68 => 55 case 69 => 59
    case 70 => 4 case 71 => 2 case 72 => 12 case 73 => 69 case 74 => 58
    case 75 => 60 case 76 => 18 case 77 => 67 case 78 => 62 case 79 => 69
    case 80 => 25 case 81 => 66 case 82 => 8 case 83 => 14 case 84 => 2
    case _ => 99
  }

  /** yy_lookahead */
  function YyLookahead(i: int): int {
    match i
    case 0 => 16 case 1 => 17 case 2 => 18 case 3 => 19 case 4 => 20
    case 5 => 21 case 6 => 5 case 7 => 6 case 8 => 24 case 9 => 17
    case 10 => 18 case 11 => 19 case 12 => 20 case 13 => 21 case 14 => 11
    case 15 => 14 case 16 => 24 case 17 => 17 case 18 => 18 case 19 => 19
    case 20 => 20 case 21 => 21 case 22 => 8 case 23 => 9 case 24 => 24
    case 25 => 11 case 26 => 17 case 27 => 18 case 28 => 19 case 29 => 20
    case 30 => 21 case 31 => 11 case 32 => 12 case 33 => 24 case 34 => 17
    case 35 => 18 case 36 => 19 case 37 => 20 case 38 => 21 case 39 => 26
    case 40 => 6 case 41 => 24 case 42 => 8 case 43 => 9 case 44 => 22
    case 45 => 11 case 46 => 18 case 47 => 11 case 48 => 20 case 49 => 21
    case 50 => 24 case 51 => 25 case 52 => 24 case 53 => 20 case 54 => 1
    case 55 => 2 case 56 => 3 case 57 => 24 case 58 => 23 case 59 => 24
    case 60 => 7 case 61 => 0 case 62 => 1 case 63 => 2 case 64 => 3
    case 65 => 6 case 66 => 10 case 67 => 11 case 68 => 10 case 69 => 11
    case 70 => 2 case 71 => 3 case 72 => 9 case 73 => 14 case 74 => 11
    case 75 => 11 case 76 => 22 case 77 => 26 case 78 => 7 case 79 => 14
    case 80 => 13 case 81 => 11 case 82 => 5 case 83 => 11 case 84 => 3
    case _ => 28
  }

  /** yy_shift_ofst */
  function YyShiftOfst(i: int): int {
    match i
    case 0 => 34 case 1 => 34 case 2 => 34 case 3 => 34 case 4 => 34
    case 5 => 14 case 6 => 20 case 7 => 3 case 8 => 36 case 9 => 1
    case 10 => 59 case 11 => 64 case 12 => 64 case 13 => 65 case 14 => 65
    case 15 => 53 case 16 => 61 case 17 => 56 case 18 => 58 case 19 => 63
    case 20 => 68 case 21 => 67 case 22 => 70 case 23 => 67 case 24 => 71
    case 25 => 72 case 26 => 67 case 27 => 77 case 28 => 81
    case _ => 85
  }

  /** yy_reduce_ofst */
  function YyReduceOfst(i: int): int {
    match i
    case 0 => -16 case 1 => -8 case 2 => 0 case 3 => 9 case 4 => 17
    case 5 => 28 case 6 => 26 case 7 => 35 case 8 => 33 case 9 => 13
    case 10 => 13 case 11 => 22 case 12 => 54 case 13 => 13 case 14 => 51
    case _ => -17
  }

  /** yy_default */
  function YyDefault(i: int): int {
    match i
    case 0 => 97 case 1 => 97 case 2 => 97 case 3 => 97 case 4 => 97
    case 5 => 76 case 6 => 91 case 7 => 97 case 8 => 97 case 9 => 96
    case 10 => 96 case 11 => 97 case 12 => 97 case 13 => 96 case 14 => 96
    case 15 => 97 case 16 => 97 case 17 => 97 case 18 => 97 case 19 => 97
    case 20 => 73 case 21 => 89 case 22 => 97 case 23 => 90 case 24 => 97
    case 25 => 97 case 26 => 87 case 27 => 97 case 28 => 72
    case _ => 97
  }

  /** yy_find_shift_action on a state that is not itself a pending reduction. */
  function ShiftAction(s: int, x: int): int {
    var i := YyShiftOfst(s) + x;
    if i < 0 || i >= YY_ACTTAB_COUNT || YyLookahead(i) != x then YyDefault(s) else YyAction(i)
  }

  /** yy_find_reduce_action; YY_NO_ACTION where one of its asserts would fail. */
  function GotoAction(s: int, x: int): int {
    if s < 0 || s > YY_REDUCE_COUNT then YY_NO_ACTION
    else
      var i := YyReduceOfst(s) + x;
      if i < 0 || i >= YY_ACTTAB_COUNT || YyLookahead(i) != x then YY_NO_ACTION else YyAction(i)
  }

  datatype Move = Shift(s: int) | ShiftReduce(r: int) | Reduce(r: int) | Accept | Error | Absent

  /** What an action code means. */
  function Meaning(a: int): Move {
    if 0 <= a <= YY_MAX_SHIFT then Shift(a)
    else if YY_MIN_SHIFTREDUCE <= a <= YY_MAX_SHIFTREDUCE then ShiftReduce(a - YY_MIN_SHIFTREDUCE)
    else if YY_MIN_REDUCE <= a <= YY_MAX_REDUCE then Reduce(a - YY_MIN_REDUCE)
    else if a == YY_ERROR_ACTION then Error
    else if a == YY_ACCEPT_ACTION then Accept
    else Absent
  }

  /** The moves of each state; the last case of a state is its default for terminals. */
  function Auto(s: int, x: int): Move {
    match s
    case 0 => (match x case 6 => Shift(1) case 8 => Shift(19) case 9 => Shift(11) case 11 => Shift(9)
       case 16 => Accept case 17 => Shift(16) case 18 => ShiftReduce(6) case 19 => Shift(5)
       case 20 => ShiftReduce(8) case 21 => Shift(27) case 24 => Shift(26)
       case _ => if x < 16 then Error else Absent)
    case 1 => (match x case 6 => Shift(1) case 8 => Shift(19) case 9 => Shift(11) case 11 => Shift(9)
       case 17 => Shift(15) case 18 => ShiftReduce(6) case 19 => Shift(5) case 20 => ShiftReduce(8)
       case 21 => Shift(27) case 24 => Shift(26) case _ => if x < 16 then Error else Absent)
    case 2 => (match x case 6 => Shift(1) case 8 => Shift(19) case 9 => Shift(11) case 11 => Shift(9)
       case 17 => ShiftReduce(3) case 18 => ShiftReduce(6) case 19 => Shift(5) case 20 => ShiftReduce(8)
       case 21 => Shift(27) case 24 => Shift(26) case _ => if x < 16 then Error else Absent)
    case 3 => (match x case 6 => Shift(1) case 8 => Shift(19) case 9 => Shift(11) case 11 => Shift(9)
       case 17 => Shift(20) case 18 => ShiftReduce(6) case 19 => Shift(5) case 20 => ShiftReduce(8)
       case 21 => Shift(27) case 24 => Shift(26) case _ => if x < 16 then Error else Absent)
    case 4 => (match x case 6 => Shift(1) case 8 => Shift(19) case 9 => Shift(11) case 11 => Shift(9)
       case 17 => Shift(28) case 18 => ShiftReduce(6) case 19 => Shift(5) case 20 => ShiftReduce(8)
       case 21 => Shift(27) case 24 => Shift(26) case _ => if x < 16 then Error else Absent)
    case 5 => (match x case 8 => Shift(19) case 9 => Shift(11) case 11 => Shift(9) case 18 => ShiftReduce(7)
       case 20 => ShiftReduce(8) case 21 => Shift(27) case 24 => Shift(26)
       case _ => if x < 16 then Reduce(5) else Absent)
    case 6 => (match x case 11 => Shift(13) case 12 => Shift(22) case 24 => Shift(23) case 25 => Shift(24)
       case _ => if x < 16 then Reduce(20) else Absent)
    case 7 => (match x case 11 => Shift(13) case 23 => Shift(6) case 24 => Shift(21)
       case _ => if x < 16 then Error else Absent)
    case 8 => (match x case 11 => Shift(10) case 20 => ShiftReduce(9) case 24 => Shift(26)
       case _ => if x < 16 then Error else Absent)
    case 9 => (match x case 5 => Reduce(12) case 6 => Shift(7) case 14 => ShiftReduce(24)
       case 26 => ShiftReduce(23) case _ => if x < 16 then Reduce(25) else Absent)
    case 10 => (match x case 6 => Shift(7) case 14 => ShiftReduce(24) case 26 => ShiftReduce(23)
       case _ => if x < 16 then Reduce(25) else Absent)
    case 11 => (match x case 11 => ShiftReduce(15) case 22 => Shift(17)
       case _ => if x < 16 then Error else Absent)
    case 12 => (match x case 11 => ShiftReduce(15) case 22 => Shift(18)
       case _ => if x < 16 then Error else Absent)
    case 13 => (match x case 14 => ShiftReduce(24) case 26 => ShiftReduce(23)
       case _ => if x < 16 then Reduce(25) else Absent)
    case 14 => (match x case 14 => ShiftReduce(24) case 26 => ShiftReduce(22)
       case _ => if x < 16 then Reduce(25) else Absent)
    case 15 => (match x case 1 => Shift(3) case 2 => Shift(4) case 3 => Shift(2) case 7 => ShiftReduce(4)
       case _ => if x < 16 then Error else Absent)
    case 16 => (match x case 0 => Reduce(0) case 1 => Shift(3) case 2 => Shift(4) case 3 => Shift(2)
       case _ => if x < 16 then Error else Absent)
    case 17 => (match x case 10 => ShiftReduce(11) case 11 => ShiftReduce(14)
       case _ => if x < 16 then Error else Absent)
    case 18 => (match x case 10 => ShiftReduce(10) case 11 => ShiftReduce(14)
       case _ => if x < 16 then Error else Absent)
    case 19 => (match x case 9 => Shift(12) case 11 => ShiftReduce(13)
       case _ => if x < 16 then Error else Absent)
    case 20 => (match x case 2 => Shift(4) case 3 => Shift(2) case _ => if x < 16 then Reduce(2) else Absent)
    case 21 => (match x case 13 => Shift(25) case _ => if x < 16 then Reduce(18) else Absent)
    case 22 => (match x case 11 => ShiftReduce(21) case _ => if x < 16 then Error else Absent)
    case 23 => (match x case 13 => Shift(25) case _ => if x < 16 then Reduce(19) else Absent)
    case 24 => (match x case 7 => ShiftReduce(17) case _ => if x < 16 then Error else Absent)
    case 25 => (match x case 11 => Shift(14) case _ => if x < 16 then Error else Absent)
    case 26 => (match x case 13 => Shift(25) case _ => if x < 16 then Reduce(16) else Absent)
    case 27 => (match x case 5 => Shift(8) case _ => if x < 16 then Error else Absent)
    case 28 => (match x case 3 => Shift(2) case _ => if x < 16 then Reduce(1) else Absent)
    case _ => Absent
  }

  lemma TerminalMoves(s: int, x: int)
    requires 0 <= s < 29 && 0 <= x < 16
    ensures Meaning(ShiftAction(s, x)) == Auto(s, x)
  {
    if s < 4 {
      TerminalMovesFrom0(s, x);
    } else if s < 7 {
      TerminalMovesFrom4(s, x);
    } else if s < 10 {
      TerminalMovesFrom7(s, x);
    } else if s < 12 {
      TerminalMovesFrom10(s, x);
    } else if s < 13 {
      TerminalMovesFrom12(s, x);
    } else if s < 15 {
      TerminalMovesFrom13(s, x);
    } else if s < 17 {
      TerminalMovesFrom15(s, x);
    } else if s == 17 {
      TerminalMovesFrom17(s, x);
    } else if s == 18 {
      TerminalMovesFrom18(s, x);
    } else if s < 21 {
      TerminalMovesFrom19(s, x);
    } else if s < 23 {
      TerminalMovesFrom21(s, x);
    } else if s < 24 {
      TerminalMovesFrom23(s, x);
    } else if s < 25 {
      TerminalMovesFrom24(s, x);
    } else if s < 26 {
      TerminalMovesFrom25(s, x);
    } else if s < 27 {
      TerminalMovesFrom26(s, x);
    } else {
      TerminalMovesFrom27(s, x);
    }
  }

  lemma TerminalMovesFrom0(s: int, x: int)
    requires 0 <= s < 4 && 0 <= x < 16
    ensures Meaning(ShiftAction(s, x)) == Auto(s, x)
  {
  }

  lemma TerminalMovesFrom4(s: int, x: int)
    requires 4 <= s < 7 && 0 <= x < 16
    ensures Meaning(ShiftAction(s, x)) == Auto(s, x)
  {
  }

  lemma TerminalMovesFrom7(s: int, x: int)
    requires 7 <= s < 10 && 0 <= x < 16
    ensures Meaning(ShiftAction(s, x)) == Auto(s, x)
  {
  }

  lemma TerminalMovesFrom10(s: int, x: int)
    requires 10 <= s < 12 && 0 <= x < 16
    ensures Meaning(ShiftAction(s, x)) == Auto(s, x)
  {
  }

  lemma TerminalMovesFrom12(s: int, x: int)
    requires s == 12 && 0 <= x < 16
    ensures Meaning(ShiftAction(s, x)) == Auto(s, x)
  {
  }

  lemma TerminalMovesFrom13(s: int, x: int)
    requires 13 <= s < 15 && 0 <= x < 16
    ensures Meaning(ShiftAction(s, x)) == Auto(s, x)
  {
  }

  lemma TerminalMovesFrom15(s: int, x: int)
    requires 15 <= s < 17 && 0 <= x < 16
    ensures Meaning(ShiftAction(s, x)) == Auto(s, x)
  {
  }

  lemma TerminalMovesFrom17(s: int, x: int)
    requires s == 17 && 0 <= x < 16
    ensures Meaning(ShiftAction(s, x)) == Auto(s, x)
  {
  }

  lemma TerminalMovesFrom18(s: int, x: int)
    requires s == 18 && 0 <= x < 16
    ensures Meaning(ShiftAction(s, x)) == Auto(s, x)
  {
  }

  lemma TerminalMovesFrom19(s: int, x: int)
    requires 19 <= s < 21 && 0 <= x < 16
    ensures Meaning(ShiftAction(s, x)) == Auto(s, x)
  {
  }

  lemma TerminalMovesFrom21(s: int, x: int)
    requires 21 <= s < 23 && 0 <= x < 16
    ensures Meaning(ShiftAction(s, x)) == Auto(s, x)
  {
  }

  lemma TerminalMovesFrom23(s: int, x: int)
    requires s == 23 && 0 <= x < 16
    ensures Meaning(ShiftAction(s, x)) == Auto(s, x)
  {
  }

  lemma TerminalMovesFrom24(s: int, x: int)
    requires s == 24 && 0 <= x < 16
    ensures Meaning(ShiftAction(s, x)) == Auto(s, x)
  {
  }

  lemma TerminalMovesFrom25(s: int, x: int)
    requires s == 25 && 0 <= x < 16
    ensures Meaning(ShiftAction(s, x)) == Auto(s, x)
  {
  }

  lemma TerminalMovesFrom26(s: int, x: int)
    requires s == 26 && 0 <= x < 16
    ensures Meaning(ShiftAction(s, x)) == Auto(s, x)
  {
  }

  lemma TerminalMovesFrom27(s: int, x: int)
    requires 27 <= s < 29 && 0 <= x < 16
    ensures Meaning(ShiftAction(s, x)) == Auto(s, x)
  {
  }

  lemma NonterminalMoves(s: int, x: int)
    requires 0 <= s < 29 && 16 <= x < 27
    ensures Meaning(GotoAction(s, x)) == Auto(s, x)
  {
    if s < 3 {
      NonterminalMovesFrom0(s, x);
    } else if s < 6 {
      NonterminalMovesFrom3(s, x);
    } else if s < 10 {
      NonterminalMovesFrom6(s, x);
    } else if s < 12 {
      NonterminalMovesFrom10(s, x);
    } else if s == 12 {
      NonterminalMovesFrom12(s, x);
    } else if s < 15 {
      NonterminalMovesFrom13(s, x);
    } else {
      NonterminalMovesFrom15(s, x);
    }
  }

  lemma NonterminalMovesFrom0(s: int, x: int)
    requires 0 <= s < 3 && 16 <= x < 27
    ensures Meaning(GotoAction(s, x)) == Auto(s, x)
  {
  }

  lemma NonterminalMovesFrom3(s: int, x: int)
    requires 3 <= s < 6 && 16 <= x < 27
    ensures Meaning(GotoAction(s, x)) == Auto(s, x)
  {
  }

  lemma NonterminalMovesFrom6(s: int, x: int)
    requires 6 <= s < 10 && 16 <= x < 27
    ensures Meaning(GotoAction(s, x)) == Auto(s, x)
  {
  }

  lemma NonterminalMovesFrom10(s: int, x: int)
    requires 10 <= s < 12 && 16 <= x < 27
    ensures Meaning(GotoAction(s, x)) == Auto(s, x)
  {
  }

  lemma NonterminalMovesFrom12(s: int, x: int)
    requires s == 12 && 16 <= x < 27
    ensures Meaning(GotoAction(s, x)) == Auto(s, x)
  {
  }

  lemma NonterminalMovesFrom13(s: int, x: int)
    requires 13 <= s < 15 && 16 <= x < 27
    ensures Meaning(GotoAction(s, x)) == Auto(s, x)
  {
  }

  lemma NonterminalMovesFrom15(s: int, x: int)
    requires 15 <= s < 29 && 16 <= x < 27
    ensures Meaning(GotoAction(s, x)) == Auto(s, x)
  {
  }
}
