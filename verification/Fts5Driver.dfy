/**
 One call of the parser as a function on its state.  Every stack the driver builds is
 a path of the automaton, so no reduction underflows and no goto is missing, and a
 measure bounds the reductions that one token can cause.
 */
module Fts5Driver {
  import opened Fts5Tables
  import opened Fts5Grammar
  import opened Fts5Lr

  // ---- the moves ----

  /** yyStackOverflow: the stack is emptied and the error reported. */
  function Overflow(p: Parser): Parser { Parser([], p.errors + 1, p.finished) }

  /** The token is pushed, or reported and dropped. */
  function Shifted(p: Parser, tok: Token): Parser {
    var s := Target(Top(p.stack), tok.major);
    if s == -1 then p.(errors := p.errors + 1)
    else if |p.stack| + 1 >= YYSTACKDEPTH then Overflow(p)
    else p.(stack := p.stack + [Entry(s, tok.major, Leaf(tok))])
  }

  /** The right-hand side of rule r is popped and its left-hand side pushed or accepted. */
  function Reduced(p: Parser, r: int): Parser
    requires 0 <= r < YYNRULE && |Rhs(r)| <= |p.stack|
  {
    var n := |p.stack| - |Rhs(r)|;
    var q := StateAt(p.stack, n);
    var t := Node(r, Trees(p.stack[n..]));
    if |Rhs(r)| == 0 && n >= YYSTACKDEPTH - 1 then Overflow(p)
    else if Auto(q, Lhs(r)).Accept? then Parser(p.stack[..n], p.errors, p.finished + [t])
    else p.(stack := p.stack[..n] + [Entry(Target(q, Lhs(r)), Lhs(r), t)])
  }

  // ---- every stack is a path ----

  lemma PathPush(stack: seq<Entry>, e: Entry)
    requires Path(stack) && Linked(Top(stack), e) && |stack| + 1 < YYSTACKDEPTH
    ensures Path(stack + [e])
  {
    hide Linked;
    var s := stack + [e];
    forall i | 0 <= i < |s|
      ensures Linked(StateAt(s, i), s[i])
    {
      assert StateAt(s, i) == StateAt(stack, i);
      if i < |stack| { assert Linked(StateAt(stack, i), stack[i]); }
    }
  }

  lemma PathTake(stack: seq<Entry>, n: nat)
    requires Path(stack) && n <= |stack|
    ensures Path(stack[..n]) && Top(stack[..n]) == StateAt(stack, n)
  {
    hide Linked;
    var s := stack[..n];
    forall i | 0 <= i < |s|
      ensures Linked(StateAt(s, i), s[i])
    {
      assert StateAt(s, i) == StateAt(stack, i) && Linked(StateAt(stack, i), stack[i]);
    }
  }

  /** The entries above n carry derivations of their symbols. */
  lemma PathTrees(stack: seq<Entry>, n: nat)
    requires Path(stack) && n <= |stack|
    ensures Symbols(Trees(stack[n..])) == Majors(stack)[n..]
    ensures forall i :: 0 <= i < |stack| - n ==> Derives(Trees(stack[n..])[i])
  {
    hide Auto, Target, Derives;
    forall i | n <= i < |stack|
      ensures stack[i].major == Symbol(stack[i].tree) && Derives(stack[i].tree)
    {
      assert Linked(StateAt(stack, i), stack[i]);
    }
  }

  lemma ShiftedPath(p: Parser, tok: Token)
    requires Path(p.stack) && Top(p.stack) < YY_MIN_REDUCE && 0 <= tok.major < 16
    ensures Path(Shifted(p, tok).stack)
  {
    hide Auto, Target;
    var s := Target(Top(p.stack), tok.major);
    if s != -1 && |p.stack| + 1 < YYSTACKDEPTH {
      TopIsState(p.stack);
      PathPush(p.stack, Entry(s, tok.major, Leaf(tok)));
    }
  }

  /** Only the bottom of the stack is in state 0. */
  lemma BottomState(stack: seq<Entry>, n: nat)
    requires Path(stack) && n <= |stack| && StateAt(stack, n) == 0
    ensures n == 0
  {
    hide Auto, Target;
    if n > 0 {
      assert Linked(StateAt(stack, n - 1), stack[n - 1]);
      Moves(StateAt(stack, n - 1), stack[n - 1].major);
    }
  }

  lemma LhsIsNonterminal(r: int)
    requires 0 <= r < YYNRULE
    ensures 16 <= Lhs(r) < 27 && (Lhs(r) == INPUT <==> r == 0)
  {
  }

  /** After an item's start comes a move: the goto of a reduction exists. */
  lemma GotoExists(q: int, r: int)
    requires 0 <= q && 0 <= r < YYNRULE && Item(q, r, 0)
    ensures q < 29 && 16 <= Lhs(r) < 27
    ensures if r == 0 then Auto(q, Lhs(r)).Accept? && q == 0 else Target(q, Lhs(r)) != -1 && !Auto(q, Lhs(r)).Accept?
  {
    hide Lhs, Rhs, Kernel, Auto;
    LhsIsNonterminal(r);
    Moves(q, Lhs(r));
  }

  /** What a reduction pushes is linked to the state below it, and is a derivation. */
  lemma NodeLinked(stack: seq<Entry>, n: nat, r: int)
    requires Path(stack) && n <= |stack| && 0 <= r < YYNRULE && Majors(stack)[n..] == Rhs(r)
    requires 0 <= StateAt(stack, n) < 29 && 0 <= Lhs(r) < 27 && Target(StateAt(stack, n), Lhs(r)) != -1
    ensures Linked(StateAt(stack, n), Entry(Target(StateAt(stack, n), Lhs(r)), Lhs(r), Node(r, Trees(stack[n..]))))
  {
    hide Auto, Rhs, Lhs, Target, Path;
    PathTrees(stack, n);
  }

  lemma ReducedPath(p: Parser, x: int)
    requires Path(p.stack) && 0 <= x < 16 && Applies(Top(p.stack), x) != -1
    ensures var r := Applies(Top(p.stack), x);
      && 0 <= r < YYNRULE && |Rhs(r)| <= |p.stack| && Path(Reduced(p, r).stack)
      && (Reduced(p, r).stack == [] <==> r == 0 || Reduced(p, r) == Overflow(p))
  {
    hide Auto, Rhs, Lhs, Kernel, Applies, Target, Item, Derives, Linked;
    var r := Applies(Top(p.stack), x);
    ReductionFindsRule(p.stack, x);
    var n := |p.stack| - |Rhs(r)|;
    var q := StateAt(p.stack, n);
    StatesBelow(p.stack, n, r);
    GotoExists(q, r);
    PathTake(p.stack, n);
    if r == 0 {
      BottomState(p.stack, n);
    } else if !(|Rhs(r)| == 0 && n >= YYSTACKDEPTH - 1) {
      NodeLinked(p.stack, n, r);
      PathPush(p.stack[..n], Entry(Target(q, Lhs(r)), Lhs(r), Node(r, Trees(p.stack[n..]))));
    }
  }

  lemma StatesBelow(stack: seq<Entry>, n: nat, r: int)
    requires Path(stack) && n <= |stack| && Item(StateAt(stack, n), r, 0)
    ensures 0 <= StateAt(stack, n) < 29
  {
    hide Auto, Lhs, Rhs, Target;
    if n > 0 {
      assert Linked(StateAt(stack, n - 1), stack[n - 1]);
      Moves(StateAt(stack, n - 1), stack[n - 1].major);
    }
  }

  // ---- a bound on the reductions ----

  /** A rule with symbols on its right weighs at least 3 less on its left. */
  function Weight(x: int): nat {
    match x
    case 11 => 18 // STRING
    case 16 => 0 // input
    case 17 => 3 // expr
    case 18 => 9 // cnearset
    case 19 => 6 // exprlist
    case 20 => 12 // nearset
    case 21 => 9 // colset
    case 22 => 12 // colsetlist
    case 23 => 12 // nearphrases
    case 24 => 15 // phrase
    case 25 => 1 // neardist_opt
    case 26 => 1 // star_opt
    case _ => 4
  }

  function Total(xs: seq<int>): nat {
    if xs == [] then 0 else Total(xs[..|xs| - 1]) + Weight(xs[|xs| - 1])
  }

  lemma {:induction false} TotalAppend(a: seq<int>, b: seq<int>)
    ensures Total(a + b) == Total(a) + Total(b)
  {
    if b == [] {
      assert a + b == a;
    } else {
      assert (a + b)[..|a + b| - 1] == a + b[..|b| - 1];
      TotalAppend(a, b[..|b| - 1]);
    }
  }

  lemma {:induction false} TotalBound(xs: seq<int>)
    ensures Total(xs) <= 18 * |xs|
  {
    if xs != [] { TotalBound(xs[..|xs| - 1]); }
  }

  lemma RuleWeight(r: int)
    requires 0 <= r < YYNRULE
    ensures |Rhs(r)| > 0 ==> Total(Rhs(r)) >= Weight(Lhs(r)) + 3
    ensures |Rhs(r)| == 0 ==> Weight(Lhs(r)) == 1 && (Lhs(r) == NEARDIST_OPT || Lhs(r) == STAR_OPT)
  {
    if |Rhs(r)| > 1 { TotalOfLast(Rhs(r)); }
  }

  lemma TotalOfLast(xs: seq<int>)
    requires |xs| > 1
    ensures Total(xs) >= Weight(xs[|xs| - 1]) + Weight(xs[|xs| - 2])
    ensures |xs| > 2 ==> Total(xs) >= Weight(xs[|xs| - 1]) + Weight(xs[|xs| - 2]) + Weight(xs[|xs| - 3])
  {
    hide Weight;
    var ys := xs[..|xs| - 1];
    assert ys[|ys| - 1] == xs[|xs| - 2];
    if |xs| > 2 { assert ys[..|ys| - 1][|ys| - 2] == xs[|xs| - 3]; }
  }

  /** What bounds the reductions still to come on this stack. */
  function Potential(stack: seq<Entry>): nat { Total(Majors(stack)) + Bonus(Top(stack)) }

  lemma PotentialBound(stack: seq<Entry>)
    requires |stack| < YYSTACKDEPTH
    ensures Potential(stack) <= 18 * (YYSTACKDEPTH - 1) + 2
  {
    TotalBound(Majors(stack));
  }

  lemma ReducedPotential(p: Parser, x: int)
    requires Path(p.stack) && 0 <= x < 16 && Applies(Top(p.stack), x) != -1
    ensures var r := Applies(Top(p.stack), x);
      && 0 <= r < YYNRULE && |Rhs(r)| <= |p.stack|
      && (Reduced(p, r).stack == [] || Potential(Reduced(p, r).stack) < Potential(p.stack))
  {
    hide Auto, Rhs, Lhs, Kernel, Applies, Target, Item, Weight, Bonus, Total;
    var r := Applies(Top(p.stack), x);
    ReductionFindsRule(p.stack, x);
    var n := |p.stack| - |Rhs(r)|;
    var q := StateAt(p.stack, n);
    var after := Reduced(p, r).stack;
    RuleWeight(r);
    StatesBelow(p.stack, n, r);
    GotoExists(q, r);
    if r == 0 {
      BottomState(p.stack, n);
    } else if after != [] {
      TotalReplaced(p.stack, n, after[n], Rhs(r));
      TotalEmpty();
      Bonuses(p.stack, x, Target(q, Lhs(r)));
      Moves(q, Lhs(r));
    }
  }

  lemma TotalReplaced(stack: seq<Entry>, n: nat, e: Entry, xs: seq<int>)
    requires n <= |stack| && Majors(stack)[n..] == xs
    ensures Total(Majors(stack)) == Total(Majors(stack)[..n]) + Total(xs)
    ensures Total(Majors(stack[..n] + [e])) == Total(Majors(stack)[..n]) + Weight(e.major)
  {
    hide Weight;
    assert Majors(stack) == Majors(stack)[..n] + xs;
    TotalAppend(Majors(stack)[..n], xs);
    assert Majors(stack[..n] + [e])[..n] == Majors(stack)[..n];
  }

  lemma TotalEmpty()
    ensures Total([]) == 0
  {
  }

  /** An empty rule leaves a state that has room for one. */
  lemma Bonuses(stack: seq<Entry>, x: int, q: int)
    requires Path(stack) && 0 <= x < 16 && Applies(Top(stack), x) != -1
    ensures |Rhs(Applies(Top(stack), x))| == 0 ==> Bonus(Top(stack)) == 2
    ensures Bonus(q) <= 2
  {
    hide Auto, Rhs, Lhs, Kernel, Target, Item;
    var s, n := Top(stack), |stack|;
    TopIsState(stack);
    if s >= YY_MIN_REDUCE {
      assert Linked(StateAt(stack, n - 1), stack[n - 1]);
      PendingItem(StateAt(stack, n - 1), stack[n - 1].major);
    } else {
      ReduceItem(s, x);
    }
  }

  // ---- one call ----

  /**
   sqlite3Fts5Parser: reductions as long as the state and the token ask for them, then
   the token itself.  A reduction that empties the stack ends the call.
   */
  ghost function Parse(p: Parser, tok: Token): Parser
    requires Path(p.stack) && 0 <= tok.major < 16
    decreases Potential(p.stack)
  {
    var r := Applies(Top(p.stack), tok.major);
    if r == -1 then
      Shifted(p, tok)
    else
      ReducedPath(p, tok.major); ReducedPotential(p, tok.major);
      var q := Reduced(p, r);
      if q.stack == [] then q else Parse(q, tok)
  }

  /** How many reductions the call makes. */
  ghost function Reductions(p: Parser, tok: Token): nat
    requires Path(p.stack) && 0 <= tok.major < 16
    decreases Potential(p.stack)
  {
    var r := Applies(Top(p.stack), tok.major);
    if r == -1 then
      0
    else
      ReducedPath(p, tok.major); ReducedPotential(p, tok.major);
      var q := Reduced(p, r);
      if q.stack == [] then 1 else 1 + Reductions(q, tok)
  }

  /** The stack index stays in 0..99 and every state below the top is a proper one. */
  lemma {:induction false} ParsePath(p: Parser, tok: Token)
    requires Path(p.stack) && 0 <= tok.major < 16
    ensures Path(Parse(p, tok).stack)
    decreases Potential(p.stack)
  {
    hide Auto, Rhs, Lhs, Kernel, Target, Item, Potential, Path;
    var r := Applies(Top(p.stack), tok.major);
    if r == -1 {
      NotPending(p, tok.major);
      ShiftedPath(p, tok);
    } else {
      ReducedPath(p, tok.major);
      ReducedPotential(p, tok.major);
      if Reduced(p, r).stack != [] { ParsePath(Reduced(p, r), tok); }
    }
  }

  lemma NotPending(p: Parser, x: int)
    requires Path(p.stack) && Applies(Top(p.stack), x) == -1
    ensures Top(p.stack) < YY_MIN_REDUCE
  {
    hide Auto;
  }

  /** One token causes at most 1785 reductions, whatever the stack holds. */
  lemma {:induction false} ReductionsBounded(p: Parser, tok: Token)
    requires Path(p.stack) && 0 <= tok.major < 16
    ensures Reductions(p, tok) <= Potential(p.stack) + 1 <= 1785
    decreases Potential(p.stack)
  {
    hide Auto, Rhs, Lhs, Kernel, Target, Item, Potential;
    PotentialBound(p.stack);
    if Applies(Top(p.stack), tok.major) != -1 {
      ReducedPath(p, tok.major);
      ReducedPotential(p, tok.major);
      var q := Reduced(p, Applies(Top(p.stack), tok.major));
      if q.stack != [] { ReductionsBounded(q, tok); }
    }
  }
}
