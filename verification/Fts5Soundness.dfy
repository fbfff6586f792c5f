/**
 What an accepted query means: a parse that reports no error has built one derivation
 of exactly its tokens, in which OR is outside AND and AND outside NOT, each grouped to
 the left.
 */
module Fts5Soundness {
  import opened Fts5Tables
  import opened Fts5Grammar
  import opened Fts5Lr
  import opened Fts5Driver

  /** The level an expression needs to follow state s: more than that of the operator before it. */
  function MinLevel(s: int): nat {
    if s == 3 then 2 else if s == 4 then 3 else if s == 2 then 4 else 1
  }

  /**
   The tree can be built in m stack entries: while child i is built, the i children
   before it stay on the stack.
   */
  ghost predicate Room(t: Tree, m: int) {
    m >= 1 && (t.Node? ==> forall i :: 0 <= i < |t.kids| ==> Room(t.kids[i], m - i))
  }

  /** A tree is as tight and as shallow as its place on the stack demands. */
  ghost predicate Fits(below: int, e: Entry, after: int, room: int) {
    && Precedence(e.tree) && Room(e.tree, room)
    && (e.major == EXPR ==> Level(e.tree) >= MinLevel(below) && Level(e.tree) >= Binding(after))
  }

  /** What follows entry i: the next entry, and x after the last one. */
  function After(stack: seq<Entry>, i: nat, x: int): int
    requires i < |stack|
  {
    if i + 1 < |stack| then stack[i + 1].major else x
  }

  const ROOM := YYSTACKDEPTH - 1

  /** Every entry fits, with x to come after the last one. */
  ghost predicate Ordered(stack: seq<Entry>, x: int) {
    forall i :: 0 <= i < |stack| ==> Fits(StateAt(stack, i), stack[i], After(stack, i, x), ROOM - i)
  }

  function Text(stack: seq<Entry>): seq<Token> { Yields(Trees(stack)) }

  // ---- operators in the automaton ----

  lemma OperatorMoves(p: int, x: int)
    requires 0 <= p < 29 && x in {OR, AND, NOT} && Target(p, x) != -1
    ensures MinLevel(Target(p, x)) == Binding(x) + 1
  {
  }

  lemma OperandMoves(q: int, x: int)
    requires 0 <= q < 29 && x in {OR, AND, NOT} && Target(q, EXPR) != -1
    requires 0 <= Target(q, EXPR) < 29 && Target(Target(q, EXPR), x) != -1
    ensures Binding(x) >= MinLevel(q)
  {
  }

  lemma BinaryRule(r: int)
    requires 1 <= r <= 3
    ensures |Rhs(r)| == 3 && Rhs(r)[0] == EXPR && Rhs(r)[2] == EXPR && Rhs(r)[1] in {OR, AND, NOT}
    ensures forall kids :: Level(Node(r, kids)) == Binding(Rhs(r)[1])
  {
  }

  lemma OtherRule(r: int)
    requires 0 <= r < YYNRULE && !(1 <= r <= 3)
    ensures forall kids :: Level(Node(r, kids)) == 4
  {
  }

  /** The operands of a binary operator on the stack, and the room for the result. */
  lemma BinaryOperands(stack: seq<Entry>, n: nat, r: int, x: int)
    requires Path(stack) && Ordered(stack, x) && 1 <= r <= 3 && n + 3 == |stack|
    requires Majors(stack)[n..] == Rhs(r)
    ensures Level(stack[n].tree) >= Binding(Rhs(r)[1])
    ensures Level(stack[n + 2].tree) > Binding(Rhs(r)[1])
    ensures Binding(Rhs(r)[1]) >= MinLevel(StateAt(stack, n))
  {
    hide Auto, Target, Rhs, Derives, Precedence, Level, Binding, MinLevel;
    BinaryRule(r);
    assert Majors(stack)[n] == Rhs(r)[0] && Majors(stack)[n + 1] == Rhs(r)[1] && Majors(stack)[n + 2] == Rhs(r)[2];
    assert Linked(StateAt(stack, n), stack[n]) && Linked(StateAt(stack, n + 1), stack[n + 1]);
    assert Linked(StateAt(stack, n + 2), stack[n + 2]);
    assert Fits(StateAt(stack, n), stack[n], After(stack, n, x), ROOM - n);
    assert Fits(StateAt(stack, n + 2), stack[n + 2], After(stack, n + 2, x), ROOM - (n + 2));
    OperatorMoves(StateAt(stack, n + 1), Rhs(r)[1]);
    OperandMoves(StateAt(stack, n), Rhs(r)[1]);
  }

  /** The tree a reduction builds keeps the precedence rules. */
  lemma NodePrecedence(stack: seq<Entry>, n: nat, r: int, x: int)
    requires Path(stack) && Ordered(stack, x) && n <= |stack| && 0 <= r < YYNRULE && Majors(stack)[n..] == Rhs(r)
    ensures Precedence(Node(r, Trees(stack[n..])))
    ensures Level(Node(r, Trees(stack[n..]))) >= MinLevel(StateAt(stack, n))
    ensures n < ROOM ==> Room(Node(r, Trees(stack[n..])), ROOM - n)
  {
    hide Auto, Target, Rhs, Derives, Path, Binding;
    var kids := Trees(stack[n..]);
    forall i | 0 <= i < |kids|
      ensures Precedence(kids[i]) && Room(kids[i], ROOM - n - i)
    {
      assert Fits(StateAt(stack, n + i), stack[n + i], After(stack, n + i, x), ROOM - (n + i));
    }
    if 1 <= r <= 3 {
      BinaryRule(r);
      BinaryOperands(stack, n, r, x);
      assert Level(Node(r, kids)) == Binding(Rhs(r)[1]);
    } else {
      OtherRule(r);
    }
  }

  /** A lookahead that allows the reduction binds no tighter than the expression built. */
  lemma NodeBeforeLookahead(stack: seq<Entry>, x: int, kids: seq<Tree>)
    requires Path(stack) && 0 <= x < 16 && Applies(Top(stack), x) != -1
    ensures var r := Applies(Top(stack), x); Level(Node(r, kids)) >= Binding(x) && (r == 0 ==> x == END)
  {
    hide Auto, Target, Rhs, Derives, Item;
    var n := |stack|;
    TopIsState(stack);
    if Top(stack) >= YY_MIN_REDUCE {
      assert Linked(StateAt(stack, n - 1), stack[n - 1]);
      PendingItem(StateAt(stack, n - 1), stack[n - 1].major);
    } else {
      ReduceItem(Top(stack), x);
    }
  }

  // ---- one move ----

  lemma OrderedReplaced(stack: seq<Entry>, n: nat, e: Entry, x: int)
    requires Ordered(stack, x) && n <= |stack| && Fits(StateAt(stack, n), e, x, ROOM - n) && Binding(e.major) == 0
    ensures Ordered(stack[..n] + [e], x)
  {
    hide Precedence, Level, MinLevel;
    var s := stack[..n] + [e];
    forall i | 0 <= i < |s|
      ensures Fits(StateAt(s, i), s[i], After(s, i, x), ROOM - i)
    {
      if i < n {
        assert Fits(StateAt(stack, i), stack[i], After(stack, i, x), ROOM - i) && StateAt(s, i) == StateAt(stack, i);
      }
    }
  }

  lemma TextReplaced(stack: seq<Entry>, n: nat, r: int, state: int)
    requires n <= |stack|
    ensures Text(stack) == Text(stack[..n]) + Yields(Trees(stack[n..]))
    ensures Text(stack[..n] + [Entry(state, Lhs(r), Node(r, Trees(stack[n..])))]) == Text(stack)
  {
    hide Lhs;
    var t := Node(r, Trees(stack[n..]));
    assert Trees(stack) == Trees(stack[..n]) + Trees(stack[n..]);
    YieldsAppend(Trees(stack[..n]), Trees(stack[n..]));
    assert Trees(stack[..n] + [Entry(state, Lhs(r), t)]) == Trees(stack[..n]) + [t];
    YieldsAppend(Trees(stack[..n]), [t]);
    YieldsOne(t);
  }

  lemma YieldsOne(t: Tree)
    ensures Yields([t]) == Yield(t)
  {
    assert Yields([]) == [];
  }

  /** A query tree: what acceptance must deliver. */
  ghost predicate Parsed(t: Tree, text: seq<Token>) {
    Symbol(t) == INPUT && Derives(t) && Precedence(t) && Yield(t) == text && Room(t, ROOM)
  }

  /** The state after a reduction, unless the stack overflowed. */
  ghost predicate Carried(p: Parser, q: Parser, x: int) {
    if q.stack != [] then
      q.finished == p.finished && q.errors == p.errors && Ordered(q.stack, x) && Text(q.stack) == Text(p.stack)
    else if q.errors == p.errors then
      x == END && exists t :: q.finished == p.finished + [t] && Parsed(t, Text(p.stack))
    else
      q.errors > p.errors
  }

  lemma ReducedCarries(p: Parser, x: int)
    requires Path(p.stack) && Ordered(p.stack, x) && 0 <= x < 16 && Applies(Top(p.stack), x) != -1
    ensures var r := Applies(Top(p.stack), x);
      0 <= r < YYNRULE && |Rhs(r)| <= |p.stack| && Carried(p, Reduced(p, r), x)
  {
    hide Auto, Rhs, Lhs, Kernel, Applies, Target, Item, Derives, Linked, Ordered, Precedence, Level, Text, Fits, Room, Trees;
    var r := Applies(Top(p.stack), x);
    ReductionFindsRule(p.stack, x);
    var n := |p.stack| - |Rhs(r)|;
    var q := StateAt(p.stack, n);
    StatesBelow(p.stack, n, r);
    GotoExists(q, r);
    NodePrecedence(p.stack, n, r, x);
    NodeBeforeLookahead(p.stack, x, Trees(p.stack[n..]));
    if r == 0 {
      BottomState(p.stack, n);
      assert p.stack[n..] == p.stack && Majors(p.stack)[n..] == Majors(p.stack);
      RootParsed(p.stack, Node(r, Trees(p.stack[n..])));
    } else if !(|Rhs(r)| == 0 && n >= YYSTACKDEPTH - 1) {
      NodeCarried(p, n, r, x);
    }
  }

  /** The node that replaces its children fits, and spells the same text. */
  lemma NodeCarried(p: Parser, n: nat, r: int, x: int)
    requires Path(p.stack) && Ordered(p.stack, x) && n <= |p.stack| && 1 <= r < YYNRULE && n < ROOM
    requires Precedence(Node(r, Trees(p.stack[n..]))) && Room(Node(r, Trees(p.stack[n..])), ROOM - n)
    requires Level(Node(r, Trees(p.stack[n..]))) >= MinLevel(StateAt(p.stack, n))
    requires Level(Node(r, Trees(p.stack[n..]))) >= Binding(x)
    ensures var e := Entry(Target(StateAt(p.stack, n), Lhs(r)), Lhs(r), Node(r, Trees(p.stack[n..])));
      Ordered(p.stack[..n] + [e], x) && Text(p.stack[..n] + [e]) == Text(p.stack)
  {
    hide Auto, Rhs, Lhs, Target, Ordered, Precedence, Level, Text, Fits, Room, Trees, Path;
    var q := StateAt(p.stack, n);
    var e := Entry(Target(q, Lhs(r)), Lhs(r), Node(r, Trees(p.stack[n..])));
    LhsIsNonterminal(r);
    TextReplaced(p.stack, n, r, Target(q, Lhs(r)));
    FitsNode(q, e, x, ROOM - n);
    OrderedReplaced(p.stack, n, e, x);
  }

  lemma FitsNode(q: int, e: Entry, x: int, room: int)
    requires Precedence(e.tree) && Room(e.tree, room) && Level(e.tree) >= MinLevel(q) && Level(e.tree) >= Binding(x)
    ensures Fits(q, e, x, room)
  {
  }

  lemma RootParsed(stack: seq<Entry>, t: Tree)
    requires Path(stack) && t == Node(0, Trees(stack)) && Majors(stack) == Rhs(0) && Precedence(t) && Room(t, ROOM)
    ensures Parsed(t, Text(stack))
  {
    hide Auto, Rhs, Target, Path, Precedence;
    PathTrees(stack, 0);
    assert stack[0..] == stack && Majors(stack)[0..] == Majors(stack);
  }

  // ---- one token ----

  /** Between calls: nothing accepted, the stack spells the text, a token is on top. */
  ghost predicate Settled(p: Parser, text: seq<Token>) {
    && Path(p.stack) && Ordered(p.stack, END) && Text(p.stack) == text && p.finished == []
    && (p.stack != [] ==> p.stack[|p.stack| - 1].major < 16)
  }

  lemma SettledOrdered(p: Parser, text: seq<Token>, x: int)
    requires Settled(p, text)
    ensures Ordered(p.stack, x)
  {
    hide Precedence, Level, MinLevel, Binding, Path, Text;
    var s := p.stack;
    forall i | 0 <= i < |s|
      ensures Fits(StateAt(s, i), s[i], After(s, i, x), ROOM - i)
    {
      assert Fits(StateAt(s, i), s[i], After(s, i, END), ROOM - i);
    }
  }

  lemma ShiftedSettled(p: Parser, tok: Token)
    requires Path(p.stack) && Ordered(p.stack, tok.major) && p.finished == [] && 0 <= tok.major < 16
    requires Top(p.stack) < YY_MIN_REDUCE && Shifted(p, tok).errors == p.errors
    ensures Settled(Shifted(p, tok), Text(p.stack) + [tok]) && tok.major != END
  {
    hide Auto, Target, Derives, MinLevel, Binding, Level;
    var q := Shifted(p, tok);
    TopIsState(p.stack);
    Moves(Top(p.stack), tok.major);
    ShiftedPath(p, tok);
    forall i | 0 <= i < |q.stack|
      ensures Fits(StateAt(q.stack, i), q.stack[i], After(q.stack, i, END), ROOM - i)
    {
      assert StateAt(q.stack, i) == StateAt(p.stack, i);
      if i < |p.stack| { assert Fits(StateAt(p.stack, i), p.stack[i], After(p.stack, i, tok.major), ROOM - i); }
    }
    assert Trees(q.stack) == Trees(p.stack) + [Leaf(tok)];
    YieldsAppend(Trees(p.stack), [Leaf(tok)]);
    YieldsOne(Leaf(tok));
  }

  /** The outcome of a call: an error, the whole query accepted, or one more token read. */
  ghost predicate Advanced(p: Parser, q: Parser, tok: Token) {
    if q.errors > p.errors then true
    else if tok.major == END then
      q.errors == p.errors && exists t :: q.finished == [t] && Parsed(t, Text(p.stack))
    else
      q.errors == p.errors && Settled(q, Text(p.stack) + [tok])
  }

  lemma {:induction false} ParseAdvances(p: Parser, tok: Token)
    requires Path(p.stack) && Ordered(p.stack, tok.major) && p.finished == [] && 0 <= tok.major < 16
    ensures Advanced(p, Parse(p, tok), tok)
    decreases Potential(p.stack)
  {
    hide Auto, Rhs, Lhs, Kernel, Target, Item, Potential, Path, Ordered, Text, Parsed, Settled;
    var r := Applies(Top(p.stack), tok.major);
    if r == -1 {
      NotPending(p, tok.major);
      if Shifted(p, tok).errors == p.errors { ShiftedSettled(p, tok); }
    } else {
      ReducedPath(p, tok.major);
      ReducedPotential(p, tok.major);
      ReducedCarries(p, tok.major);
      var q := Reduced(p, r);
      if q.stack == [] {
        AcceptedAdvance(p, q, tok);
      } else {
        ParseAdvances(q, tok);
      }
    }
  }

  lemma AcceptedAdvance(p: Parser, q: Parser, tok: Token)
    requires Carried(p, q, tok.major) && q.stack == [] && p.finished == []
    ensures Advanced(p, q, tok)
  {
    hide Parsed, Text;
    if q.errors == p.errors {
      var t :| q.finished == p.finished + [t] && Parsed(t, Text(p.stack));
      assert q.finished == [t];
    }
  }

  // ---- the whole query ----

  ghost predicate Majors16(toks: seq<Token>) { forall i :: 0 <= i < |toks| ==> 0 <= toks[i].major < 16 }

  /** The calls of one query. */
  ghost function Run(p: Parser, toks: seq<Token>): (q: Parser)
    requires Path(p.stack) && Majors16(toks)
    ensures Path(q.stack)
    decreases |toks|
  {
    if toks == [] then p
    else
      ParsePath(p, toks[0]);
      Run(Parse(p, toks[0]), toks[1..])
  }

  const START := Parser([], 0, [])

  lemma {:induction false} ParseErrors(p: Parser, tok: Token)
    requires Path(p.stack) && 0 <= tok.major < 16
    ensures Parse(p, tok).errors >= p.errors
    decreases Potential(p.stack)
  {
    hide Auto, Rhs, Lhs, Kernel, Target, Item, Potential, Path;
    var r := Applies(Top(p.stack), tok.major);
    if r != -1 {
      ReducedPath(p, tok.major);
      ReducedPotential(p, tok.major);
      if Reduced(p, r).stack != [] { ParseErrors(Reduced(p, r), tok); }
    }
  }

  lemma {:induction false} RunErrors(p: Parser, toks: seq<Token>)
    requires Path(p.stack) && Majors16(toks)
    ensures Run(p, toks).errors >= p.errors
    decreases |toks|
  {
    hide Path, Parse;
    if toks != [] {
      ParsePath(p, toks[0]);
      ParseErrors(p, toks[0]);
      RunErrors(Parse(p, toks[0]), toks[1..]);
    }
  }

  /** The tokens of a query: END comes once, at the end. */
  ghost predicate Query(toks: seq<Token>) {
    && toks != [] && Majors16(toks) && toks[|toks| - 1].major == END
    && forall i :: 0 <= i < |toks| - 1 ==> toks[i].major != END
  }

  ghost predicate ParseOf(t: Tree, toks: seq<Token>)
    requires toks != []
  {
    Parsed(t, toks[..|toks| - 1])
  }

  lemma {:induction false} RunParses(p: Parser, text: seq<Token>, toks: seq<Token>)
    requires Settled(p, text) && Query(toks) && Run(p, toks).errors == p.errors
    ensures exists t :: Run(p, toks).finished == [t] && Parsed(t, text + toks[..|toks| - 1])
    decreases |toks|
  {
    hide Path, Ordered, Text, Parsed, Parse;
    SettledOrdered(p, text, toks[0].major);
    var q := Parse(p, toks[0]);
    ParsePath(p, toks[0]);
    ParseErrors(p, toks[0]);
    ParseAdvances(p, toks[0]);
    RunErrors(q, toks[1..]);
    if |toks| == 1 {
      assert text + toks[..0] == text;
    } else {
      assert toks[0].major != END && Query(toks[1..]);
      assert Text(p.stack) == text;
      RunParses(q, text + [toks[0]], toks[1..]);
      assert text + [toks[0]] + toks[1..][..|toks| - 2] == text + toks[..|toks| - 1];
    }
  }

  /**
   Soundness: a query that the parser reads without an error has exactly one result, a
   derivation of its tokens that respects precedence and associativity.
   */
  lemma {:induction false} Soundness(toks: seq<Token>)
    requires Query(toks) && Run(START, toks).errors == 0
    ensures exists t :: Run(START, toks).finished == [t] && ParseOf(t, toks)
  {
    assert Text([]) == [];
    RunParses(START, [], toks);
    assert [] + toks[..|toks| - 1] == toks[..|toks| - 1];
    var t :| Run(START, toks).finished == [t] && Parsed(t, [] + toks[..|toks| - 1]);
    assert ParseOf(t, toks);
  }
}
