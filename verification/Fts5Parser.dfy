/**
 The parser as the C code runs it: an array of 100 entries, the index of its top, and
 the compressed tables.  Each method is proved to make the step that Fts5Driver
 describes, so the whole query is accepted exactly when it has a derivation.
 */
module Fts5Parser {
  import opened Fts5Tables
  import opened Fts5Grammar
  import Fts5Lr
  import Driver = Fts5Driver
  import Fts5Soundness
  import Fts5Completeness
  import opened Fts5Actions

  const YYNOCODE := 28
  const YYSTACKDEPTH := Fts5Lr.YYSTACKDEPTH

  /** yyRuleInfo: the left-hand side of a rule and the number of symbols on its right. */
  function RuleInfo(r: int): (int, nat) {
    match r
    case 0 => (16, 1)
    case 1 => (17, 3) case 2 => (17, 3) case 3 => (17, 3) case 4 => (17, 3) case 5 => (17, 1)
    case 6 => (19, 1) case 7 => (19, 2)
    case 8 => (18, 1) case 9 => (18, 3)
    case 10 => (21, 4) case 11 => (21, 3) case 12 => (21, 1) case 13 => (21, 2)
    case 14 => (22, 2) case 15 => (22, 1)
    case 16 => (20, 1) case 17 => (20, 5)
    case 18 => (23, 1) case 19 => (23, 2)
    case 20 => (25, 0) case 21 => (25, 2)
    case 22 => (24, 4) case 23 => (24, 2)
    case 24 => (26, 1)
    case _ => (26, 0)
  }

  lemma RuleInfoOf(r: int)
    requires 0 <= r < YYNRULE
    ensures RuleInfo(r) == (Lhs(r), |Rhs(r)|)
  {
  }

  class YyParser {
    const yystack: array<Fts5Lr.Entry>
    var yytos: nat
    var errors: nat
    var finished: seq<Tree>
    /** Whether a semantic action has reported an error, and which ones do. */
    var rejected: bool
    const rejects: Rejects

    ghost predicate Valid()
      reads this, yystack
    {
      yystack.Length == YYSTACKDEPTH && yytos < YYSTACKDEPTH && yystack[0].state == 0
    }

    /** The state as a value: the stack above its first entry. */
    ghost function At(): Fts5Lr.Parser
      requires Valid()
      reads this, yystack
    {
      Fts5Lr.Parser(yystack[1..yytos + 1], errors, finished)
    }

    /** Unless the parser itself has failed, `rejected` tells whether a node it holds was rejected. */
    ghost predicate Noted()
      requires Valid()
      reads this, yystack
    {
      errors == 0 ==> (rejected <==> BadIn(rejects, At()))
    }

    /** The stack index and the states, as the value has them. */
    lemma StackIs(i: nat)
      requires Valid() && i <= yytos
      ensures yytos == |At().stack| && yystack[i].state == Fts5Lr.StateAt(At().stack, i)
    {
    }

    /** sqlite3Fts5ParserAlloc */
    constructor (rejects: Rejects)
      ensures Valid() && Noted() && At() == Fts5Soundness.START && this.rejects == rejects && fresh(yystack)
    {
      this.rejects := rejects;
      rejected := false;
      yystack := new Fts5Lr.Entry[YYSTACKDEPTH](_ => Fts5Lr.Entry(0, 0, Leaf(Token(0, ""))));
      yytos := 0;
      errors := 0;
      finished := [];
    }

    /** yy_find_shift_action */
    method FindShiftAction(x: int) returns (act: int)
      requires Valid() && 0 <= x < 16
      requires 0 <= yystack[yytos].state < 29 || YY_MIN_REDUCE <= yystack[yytos].state <= YY_MAX_REDUCE
      ensures yystack[yytos].state >= YY_MIN_REDUCE ==> act == yystack[yytos].state
      ensures yystack[yytos].state < YY_MIN_REDUCE ==> Meaning(act) == Auto(yystack[yytos].state, x)
    {
      hide Auto, Meaning;
      var stateno := yystack[yytos].state;
      if stateno >= YY_MIN_REDUCE { return stateno; }
      var i := YyShiftOfst(stateno) + x;
      if i < 0 || i >= YY_ACTTAB_COUNT || YyLookahead(i) != x {
        act := YyDefault(stateno);
      } else {
        act := YyAction(i);
      }
      TerminalMoves(stateno, x);
    }

    /** yyStackOverflow, entered with the top already advanced. */
    method StackOverflow()
      requires yystack.Length == YYSTACKDEPTH && 0 < yytos <= YYSTACKDEPTH && yystack[0].state == 0
      modifies this`yytos, this`errors
      ensures Valid() && At() == Fts5Lr.Parser([], old(errors) + 1, old(finished))
    {
      yytos := yytos - 1;
      while yytos > 0
        invariant yytos < YYSTACKDEPTH && errors == old(errors) && finished == old(finished)
      {
        yytos := yytos - 1;
      }
      errors := errors + 1;
    }

    /** yy_shift */
    method Shift(newState: int, tok: Token)
      requires Valid()
      modifies this`yytos, this`errors, yystack
      ensures Valid()
      ensures var s := if newState > YY_MAX_SHIFT then newState + YY_MIN_REDUCE - YY_MIN_SHIFTREDUCE else newState;
        At() == if old(yytos) + 1 >= YYSTACKDEPTH then Driver.Overflow(old(At()))
                else old(At()).(stack := old(At()).stack + [Fts5Lr.Entry(s, tok.major, Leaf(tok))])
    {
      yytos := yytos + 1;
      if yytos >= YYSTACKDEPTH {
        StackOverflow();
        return;
      }
      var state := newState;
      if state > YY_MAX_SHIFT {
        state := state + YY_MIN_REDUCE - YY_MIN_SHIFTREDUCE;
      }
      yystack[yytos] := Fts5Lr.Entry(state, tok.major, Leaf(tok));
    }

    /** The semantic action of a rule builds a tree node, or reports an error. */
    method Action(r: int, size: nat) returns (node: Tree)
      requires Valid() && size <= yytos
      modifies this`rejected
      ensures Valid() && At() == old(At())
      ensures var kids := Fts5Lr.Trees(At().stack[yytos - size..]);
        node == Node(r, kids) && rejected == (old(rejected) || rejects(r, kids))
    {
      var base := yytos - size;
      node := Node(r, Fts5Lr.Trees(yystack[base + 1..yytos + 1]));
      assert yystack[base + 1..yytos + 1] == At().stack[base..];
      rejected := rejected || rejects(r, node.kids);
    }

    /** The entries above `base` are replaced by one. */
    method Replace(base: nat, e: Fts5Lr.Entry)
      requires Valid() && base <= yytos && base + 1 < YYSTACKDEPTH
      modifies this`yytos, yystack
      ensures Valid() && At() == old(At()).(stack := old(At()).stack[..base] + [e])
    {
      yytos := base + 1;
      yystack[yytos] := e;
    }

    /** Acceptance leaves an empty stack and the finished tree. */
    method Accept(base: nat, node: Tree)
      requires Valid() && base <= yytos
      modifies this`yytos, this`finished
      ensures Valid() && At() == Fts5Lr.Parser(old(At()).stack[..base], errors, old(finished) + [node])
    {
      yytos := base;
      finished := finished + [node];
    }

    /** The goto after the semantic action, or acceptance. */
    method Goto(r: int, base: nat, act: int, node: Tree)
      requires Valid() && 0 <= r < YYNRULE && |Rhs(r)| <= yytos && base == yytos - |Rhs(r)| && base + 1 < YYSTACKDEPTH
      requires node == Node(r, Fts5Lr.Trees(At().stack[base..]))
      requires var q := Fts5Lr.StateAt(At().stack, base);
        if act > YY_MAX_SHIFTREDUCE then Auto(q, Lhs(r)).Accept?
        else !Auto(q, Lhs(r)).Accept? &&
             Fts5Lr.Target(q, Lhs(r)) == if act > YY_MAX_SHIFT then act + YY_MIN_REDUCE - YY_MIN_SHIFTREDUCE else act
      modifies this`yytos, this`finished, yystack
      ensures Valid() && At() == Driver.Reduced(old(At()), r)
    {
      hide Auto, Rhs, Lhs, RuleInfo, Fts5Lr.Target, Fts5Lr.Trees, Driver.Reduced;
      ReducedIs(At(), r);
      var (lhs, size) := RuleInfo(r);
      RuleInfoOf(r);
      if act > YY_MAX_SHIFTREDUCE {
        Accept(base, node);
      } else {
        Replace(base, Fts5Lr.Entry(if act > YY_MAX_SHIFT then act + YY_MIN_REDUCE - YY_MIN_SHIFTREDUCE else act, lhs, node));
      }
    }

    /** yy_reduce */
    method Reduce(r: int)
      requires Valid() && 0 <= r < YYNRULE && |Rhs(r)| <= yytos
      requires 0 <= yystack[yytos - |Rhs(r)|].state < 29
      requires Fts5Lr.Item(yystack[yytos - |Rhs(r)|].state, r, 0)
      modifies this, yystack
      ensures Valid() && At() == Driver.Reduced(old(At()), r)
      ensures errors == old(errors) ==>
        rejected == (old(rejected) || rejects(r, Fts5Lr.Trees(old(At()).stack[old(yytos) - |Rhs(r)|..])))
    {
      hide Auto, Fts5Lr.Item, Rhs, Lhs, RuleInfo, Fts5Lr.Target, Fts5Lr.Trees, Driver.Reduced;
      RuleInfoOf(r);
      ReducedIs(At(), r);
      var (lhs, size) := RuleInfo(r);
      if size == 0 && yytos >= YYSTACKDEPTH - 1 {
        StackOverflow();
        return;
      }
      var base := yytos - size;
      StackIs(base);
      var act := FindReduceAction(yystack[base].state, r, lhs);
      var node := Action(r, size);
      Goto(r, base, act, node);
    }

    /** yy_find_reduce_action: its asserts hold for every goto a reduction asks for. */
    method FindReduceAction(stateno: int, r: int, lhs: int) returns (act: int)
      requires 0 <= r < YYNRULE && lhs == Lhs(r) && 0 <= stateno < 29 && Fts5Lr.Item(stateno, r, 0)
      ensures 0 <= act && (act <= YY_MAX_SHIFTREDUCE || act == YY_ACCEPT_ACTION)
      ensures act == YY_ACCEPT_ACTION <==> Auto(stateno, lhs).Accept?
      ensures act <= YY_MAX_SHIFTREDUCE ==>
        Fts5Lr.Target(stateno, lhs) == if act > YY_MAX_SHIFT then act + YY_MIN_REDUCE - YY_MIN_SHIFTREDUCE else act
    {
      hide Auto, Fts5Lr.Item, Lhs, YyLookahead, YyReduceOfst, YyAction;
      Driver.GotoExists(stateno, r);
      NonterminalMoves(stateno, lhs);
      GotoInTable(stateno, lhs);
      assert stateno <= YY_REDUCE_COUNT;
      var i := YyReduceOfst(stateno) + lhs;
      assert 0 <= i < YY_ACTTAB_COUNT && YyLookahead(i) == lhs;
      act := YyAction(i);
    }

    /** The reduction that the state and the token ask for. */
    method ReduceTop(x: int, r: int)
      requires Valid() && Noted() && Fts5Lr.Path(At().stack) && 0 <= x < 16
      requires r == Fts5Lr.Applies(Fts5Lr.Top(At().stack), x) != -1
      modifies this, yystack
      ensures Valid() && Noted() && 0 <= r < YYNRULE && |Rhs(r)| <= |old(At()).stack| && At() == Driver.Reduced(old(At()), r)
    {
      hide Auto, Fts5Lr.Item, Fts5Lr.Path, Fts5Lr.Trees, Fts5Lr.Applies, Rhs, Lhs, Driver.Reduced, BadIn;
      ghost var p := At();
      Fts5Lr.ReductionFindsRule(p.stack, x);
      StackIs(yytos - |Rhs(r)|);
      Driver.StatesBelow(p.stack, |p.stack| - |Rhs(r)|, r);
      Reduce(r);
      ReducedErrors(p, r);
      if errors == 0 { ReducedBad(rejects, p, r); }
    }

    /** The token is pushed, or reported and dropped: fts5parse.y switches error recovery off. */
    method ShiftOrFail(act: int, tok: Token)
      requires Valid() && Noted() && Meaning(act) == Auto(Fts5Lr.Top(At().stack), tok.major)
      requires !Meaning(act).Absent? && !Meaning(act).Reduce? && !Meaning(act).Accept?
      modifies this, yystack
      ensures Valid() && Noted() && At() == Driver.Shifted(old(At()), tok)
    {
      hide Auto, Fts5Lr.Trees, Driver.Shifted, BadIn;
      ghost var p := At();
      if act <= YY_MAX_SHIFTREDUCE {
        Shift(act, tok);
        ShiftIs(p, act, tok);
        if errors == 0 { ShiftedBad(rejects, p, tok); }
      } else {
        errors := errors + 1;
        ErrorIs(p, tok);
      }
    }

    /** One pass of the driver's loop: a reduction, or the token itself. */
    method Act(tok: Token) returns (consumed: bool)
      requires Valid() && Noted() && Fts5Lr.Path(At().stack) && 0 <= tok.major < 16
      modifies this, yystack
      ensures Valid() && Noted() && consumed == (Fts5Lr.Applies(Fts5Lr.Top(old(At()).stack), tok.major) == -1)
      ensures consumed ==> At() == Driver.Shifted(old(At()), tok)
      ensures !consumed ==>
        var r := Fts5Lr.Applies(Fts5Lr.Top(old(At()).stack), tok.major);
        0 <= r < YYNRULE && |Rhs(r)| <= |old(At()).stack| && At() == Driver.Reduced(old(At()), r)
    {
      hide Auto, Fts5Lr.Item, Fts5Lr.Path, Fts5Lr.Trees, Rhs, Lhs, Driver.Reduced, Driver.Shifted, BadIn;
      ghost var p := At();
      Fts5Lr.TopIsState(p.stack);
      StackIs(yytos);
      var yyact := FindShiftAction(tok.major);
      if yystack[yytos].state < YY_MIN_REDUCE { Fts5Lr.Moves(yystack[yytos].state, tok.major); }
      consumed := !(YY_MIN_REDUCE <= yyact <= YY_MAX_REDUCE);
      if consumed {
        ShiftOrFail(yyact, tok);
      } else {
        ReduceTop(tok.major, yyact - YY_MIN_REDUCE);
      }
    }

    /** sqlite3Fts5Parser: feeds one token. */
    method Parse(tok: Token)
      requires Valid() && Noted() && Fts5Lr.Path(At().stack) && 0 <= tok.major < 16
      modifies this, yystack
      ensures Valid() && Noted() && At() == Driver.Parse(old(At()), tok)
    {
      hide Auto, Fts5Lr.Applies, Fts5Lr.Path, Rhs, Lhs, Driver.Potential, Driver.Shifted, Driver.Reduced, BadIn;
      ghost var p := At();
      var yymajor := tok.major;
      var more := true;
      while more
        invariant Valid() && Noted() && (more ==> Fts5Lr.Path(At().stack))
        invariant if more then yymajor == tok.major && Driver.Parse(At(), tok) == Driver.Parse(p, tok)
                  else At() == Driver.Parse(p, tok)
        decreases more, if more then Driver.Potential(At().stack) else 0
      {
        ghost var q := At();
        var consumed := Act(tok);
        if consumed {
          yymajor := YYNOCODE;
        } else {
          Driver.ReducedPath(q, tok.major);
          Driver.ReducedPotential(q, tok.major);
        }
        more := yymajor != YYNOCODE && yytos > 0;
      }
    }
  }

  lemma GotoInTable(s: int, x: int)
    requires Meaning(GotoAction(s, x)) != Absent
    ensures 0 <= s <= YY_REDUCE_COUNT && 0 <= YyReduceOfst(s) + x < YY_ACTTAB_COUNT
    ensures YyLookahead(YyReduceOfst(s) + x) == x
  {
  }

  /** What a reduction amounts to, by the move that it finds. */
  lemma ReducedIs(p: Fts5Lr.Parser, r: int)
    requires 0 <= r < YYNRULE && |Rhs(r)| <= |p.stack|
    ensures var n := |p.stack| - |Rhs(r)|;
      var q, node := Fts5Lr.StateAt(p.stack, n), Node(r, Fts5Lr.Trees(p.stack[n..]));
      Driver.Reduced(p, r) ==
        if |Rhs(r)| == 0 && n >= YYSTACKDEPTH - 1 then Driver.Overflow(p)
        else if Auto(q, Lhs(r)).Accept? then Fts5Lr.Parser(p.stack[..n], p.errors, p.finished + [node])
        else p.(stack := p.stack[..n] + [Fts5Lr.Entry(Fts5Lr.Target(q, Lhs(r)), Lhs(r), node)])
  {
    hide Auto, Rhs, Lhs, Fts5Lr.Target, Fts5Lr.Trees;
  }

  /** What pushing a token amounts to, by the action that the tables give. */
  lemma ShiftIs(p: Fts5Lr.Parser, act: int, tok: Token)
    requires act <= YY_MAX_SHIFTREDUCE && Meaning(act) == Auto(Fts5Lr.Top(p.stack), tok.major) != Absent
    ensures var s := if act > YY_MAX_SHIFT then act + YY_MIN_REDUCE - YY_MIN_SHIFTREDUCE else act;
      Driver.Shifted(p, tok) == if |p.stack| + 1 >= YYSTACKDEPTH then Driver.Overflow(p)
                                else p.(stack := p.stack + [Fts5Lr.Entry(s, tok.major, Leaf(tok))])
  {
    hide Auto;
  }

  lemma ErrorIs(p: Fts5Lr.Parser, tok: Token)
    requires Fts5Lr.Target(Fts5Lr.Top(p.stack), tok.major) == -1
    ensures Driver.Shifted(p, tok) == p.(errors := p.errors + 1)
  {
    hide Auto;
  }

  /**
   sqlite3Fts5ExprNew's loop: tokens are fed until an error or the end.  It succeeds
   exactly on the queries that have a derivation fitting the stack of which no semantic
   action reports an error, and returns it.
   */
  method ParseQuery(toks: seq<Token>, rejects: Rejects) returns (ok: bool, result: seq<Tree>)
    requires Fts5Soundness.Query(toks)
    ensures ok <==> exists t :: Fts5Soundness.ParseOf(t, toks) && !Bad(rejects, t)
    ensures ok ==> |result| == 1 && Fts5Soundness.ParseOf(result[0], toks) && !Bad(rejects, result[0])
  {
    hide Fts5Soundness.ParseOf, Driver.Parse, Fts5Lr.Path, BadIn, Bad;
    var parser := new YyParser(rejects);
    var i := 0;
    Fts5Completeness.StartPath();
    assert toks[0..] == toks;
    var more := true;
    while more
      invariant parser.Valid() && parser.Noted() && parser.rejects == rejects
      invariant fresh(parser) && fresh(parser.yystack) && Fts5Lr.Path(parser.At().stack)
      invariant i <= |toks| && (more ==> i < |toks|)
      invariant Fts5Soundness.Run(Fts5Soundness.START, toks) == Fts5Soundness.Run(parser.At(), toks[i..])
      invariant !more ==> parser.errors > 0 || parser.rejected || i == |toks|
      decreases |toks| - i, more
    {
      Driver.ParsePath(parser.At(), toks[i]);
      assert toks[i..][1..] == toks[i + 1..];
      parser.Parse(toks[i]);
      more := parser.errors == 0 && !parser.rejected && toks[i].major != END;
      i := i + 1;
    }
    ok, result := parser.errors == 0 && !parser.rejected, parser.finished;
    Fts5Soundness.RunErrors(parser.At(), toks[i..]);
    if ok { Fts5Soundness.Soundness(toks); }
    forall t | Fts5Soundness.ParseOf(t, toks)
      ensures ok <==> !Bad(rejects, t)
      ensures ok ==> result == [t]
    {
      Fts5Completeness.Completeness(t, toks);
      if parser.rejected { RunBad(rejects, parser.At(), toks[i..]); }
      BadResult(rejects, Fts5Soundness.Run(Fts5Soundness.START, toks), t);
    }
  }
}
