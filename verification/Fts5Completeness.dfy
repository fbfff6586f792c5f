/**
 Nothing is lost: the parser accepts every derivation that respects precedence and fits
 its stack, and returns exactly that derivation.  With soundness this says, for all
 token sequences and trees, when the parser returns that tree.
 */
module Fts5Completeness {
  import opened Fts5Tables
  import opened Fts5Grammar
  import opened Fts5Lr
  import opened Fts5Driver
  import opened Fts5Soundness

  // ---- which tokens begin and follow a symbol ----

  predicate Nullable(y: int) { y == NEARDIST_OPT || y == STAR_OPT }

  /** Token x can begin symbol y. */
  predicate First(y: int, x: int) {
    if y < 16 then x == y
    else if y == NEARDIST_OPT then x == COMMA
    else if y == STAR_OPT then x == STAR
    else if y in {NEARSET, COLSETLIST, NEARPHRASES, PHRASE} then x == STRING
    else if y in {EXPRLIST, CNEARSET, COLSET} then x in {STRING, MINUS, LCP}
    else x in {STRING, MINUS, LCP, LP}
  }

  /** Token x can follow symbol y. */
  predicate Follow(y: int, x: int) {
    if y < 16 then true
    else if y == INPUT then x == END
    else if y == EXPR then x in {END, OR, AND, NOT, RP}
    else if y in {EXPRLIST, CNEARSET, NEARSET} then x in {END, OR, AND, NOT, RP, MINUS, LCP, STRING}
    else if y == COLSET then x == COLON
    else if y == COLSETLIST then x in {STRING, RCP}
    else if y == NEARPHRASES then x in {STRING, COMMA, RP}
    else if y == NEARDIST_OPT then x == RP
    else x in {END, OR, AND, NOT, RP, MINUS, LCP, STRING, PLUS, COMMA}
  }

  /** Token y can come next when rule r has its dot at d and token x comes after the rule. */
  predicate Next(r: int, d: nat, x: int, y: int)
    requires d <= |Rhs(r)|
    decreases |Rhs(r)| - d
  {
    if d == |Rhs(r)| then y == x
    else First(Rhs(r)[d], y) || (Nullable(Rhs(r)[d]) && Next(r, d + 1, x, y))
  }

  lemma RuleFirst(r: int)
    requires 0 <= r < YYNRULE
    ensures Rhs(r) == [] ==> Nullable(Lhs(r))
    ensures Rhs(r) != [] ==> !Nullable(Rhs(r)[0])
    ensures Rhs(r) != [] ==> forall x :: First(Rhs(r)[0], x) ==> First(Lhs(r), x)
  {
  }

  /** What the yield of a tree starts with. */
  lemma {:induction false} FirstToken(t: Tree)
    requires Derives(t)
    ensures Yield(t) == [] ==> Nullable(Symbol(t))
    ensures Yield(t) != [] ==> First(Symbol(t), Yield(t)[0].major)
    ensures Majors16(Yield(t))
  {
    hide Rhs, Lhs, First;
    match t
    case Leaf(tok) => LeafFirst(tok.major);
    case Node(r, kids) =>
      RuleFirst(r);
      forall i | 0 <= i < |kids| ensures Majors16(Yield(kids[i])) { FirstToken(kids[i]); }
      YieldsMajors(kids);
      if kids != [] {
        assert Symbols(kids)[0] == Rhs(r)[0];
        FirstToken(kids[0]);
      } else {
        assert |Symbols(kids)| == 0;
      }
  }

  lemma LeafFirst(x: int)
    requires x < 16
    ensures First(x, x)
  {
  }

  lemma {:induction false} YieldsMajors(ts: seq<Tree>)
    requires forall i :: 0 <= i < |ts| ==> Majors16(Yield(ts[i]))
    ensures Majors16(Yields(ts))
  {
    if ts != [] { YieldsMajors(ts[1..]); }
  }

  /** The token after a dot is one that Next allows. */
  lemma {:induction false} NextToken(r: int, kids: seq<Tree>, d: nat, toks: seq<Token>)
    requires 0 <= r < YYNRULE && Derives(Node(r, kids)) && d <= |kids| && toks != []
    ensures |kids| == |Rhs(r)| && Next(r, d, toks[0].major, (Yields(kids[d..]) + toks)[0].major)
    decreases |kids| - d
  {
    hide Rhs, Lhs, First, Nullable;
    assert |Symbols(kids)| == |kids|;
    if d == |kids| {
      assert Yields(kids[d..]) + toks == toks;
    } else {
      FirstToken(kids[d]);
      assert Symbols(kids)[d] == Rhs(r)[d];
      assert kids[d..][0] == kids[d] && kids[d..][1..] == kids[d + 1..];
      if Yield(kids[d]) == [] {
        NextToken(r, kids, d + 1, toks);
        assert Yields(kids[d..]) + toks == Yields(kids[d + 1..]) + toks;
      }
    }
  }

  /** What can come after a child can follow its symbol. */
  lemma FollowChild(r: int, d: nat, x: int, y: int)
    requires 0 <= r < YYNRULE && d < |Rhs(r)| && Follow(Lhs(r), x) && Next(r, d + 1, x, y)
    ensures Follow(Rhs(r)[d], y)
    ensures Rhs(r)[d] == EXPR && 1 <= r <= 3 ==> y == if d == 0 then Rhs(r)[1] else x
    ensures Rhs(r)[d] == EXPR && !(1 <= r <= 3) ==> Binding(y) == 0
  {
    if d + 1 < |Rhs(r)| && Nullable(Rhs(r)[d + 1]) && d + 2 < |Rhs(r)| { assert Next(r, d + 2, x, y) ==> First(RP, y); }
  }

  // ---- the automaton offers what the grammar needs ----

  /** Symbol y of rule r's place can be built in state q: some move leads on from there. */
  predicate Wanted(q: int, t: Tree, x: int) {
    && 0 <= q < 29 && Target(q, Symbol(t)) != -1 && Follow(Symbol(t), x)
    && (Symbol(t) == EXPR ==> Level(t) >= MinLevel(q) && Level(t) >= Binding(x))
  }

  /** Rule r was begun in state q and has its dot at d in state s. */
  predicate AtDot(q: int, s: int, r: int, d: nat) {
    && 0 <= q < 29 && 0 <= r < YYNRULE && d <= |Rhs(r)| && Item(q, r, 0)
    && (if d == 0 then s == q else Kernel(s, r, d))
    && (1 <= r <= 3 ==> Level(Node(r, [])) >= MinLevel(q) && (d == 1 ==> s == Target(q, EXPR)))
  }

  lemma ForwardStart(q: int, r: int)
    requires 0 <= q < 29 && 0 <= r < YYNRULE && Rhs(r) != [] && Item(q, r, 0)
    requires 1 <= r <= 3 ==> Level(Node(r, [])) >= MinLevel(q)
    ensures Target(q, Rhs(r)[0]) != -1 && Kernel(Target(q, Rhs(r)[0]), r, 1)
  {
    hide Auto, Kernel, Target, Item, Level, MinLevel;
    if r < 6 {
      ForwardStartExpr(q, r);
    } else if r < 14 {
      ForwardStartSet(q, r);
    } else if r < 19 {
      ForwardStartNear(q, r);
    } else {
      ForwardStartPhrase(q, r);
    }
  }

  lemma ForwardStartNear(q: int, r: int)
    requires 0 <= q < 29 && 14 <= r < 19 && Item(q, r, 0)
    ensures |Rhs(r)| > 0 && Target(q, Rhs(r)[0]) != -1 && Kernel(Target(q, Rhs(r)[0]), r, 1)
  {
  }

  lemma ForwardStartPhrase(q: int, r: int)
    requires 0 <= q < 29 && 19 <= r < YYNRULE && Rhs(r) != [] && Item(q, r, 0)
    ensures Target(q, Rhs(r)[0]) != -1 && Kernel(Target(q, Rhs(r)[0]), r, 1)
  {
  }

  lemma ForwardStartExpr(q: int, r: int)
    requires 0 <= q < 29 && 0 <= r < 6 && Item(q, r, 0)
    requires 1 <= r <= 3 ==> Level(Node(r, [])) >= MinLevel(q)
    ensures |Rhs(r)| > 0 && Target(q, Rhs(r)[0]) != -1 && Kernel(Target(q, Rhs(r)[0]), r, 1)
  {
  }

  lemma ForwardStartSet(q: int, r: int)
    requires 0 <= q < 29 && 6 <= r < 14 && Item(q, r, 0)
    ensures |Rhs(r)| > 0 && Target(q, Rhs(r)[0]) != -1 && Kernel(Target(q, Rhs(r)[0]), r, 1)
  {
  }

  /** The converse of OperandMoves: a tight enough operator is shifted after its left operand. */
  lemma ForwardOperator(q: int, r: int)
    requires 0 <= q < 29 && 1 <= r <= 3 && Target(q, EXPR) != -1 && Level(Node(r, [])) >= MinLevel(q)
    ensures |Rhs(r)| == 3 && 0 <= Target(q, EXPR) < 29
    ensures Target(Target(q, EXPR), Rhs(r)[1]) != -1 && Kernel(Target(Target(q, EXPR), Rhs(r)[1]), r, 2)
  {
  }

  lemma ForwardRest(s: int, r: int, d: nat)
    requires 0 <= r < YYNRULE && 0 < d < |Rhs(r)| && Kernel(s, r, d) && !(1 <= r <= 3 && d == 1)
    ensures 0 <= s < 29 && Target(s, Rhs(r)[d]) != -1 && Kernel(Target(s, Rhs(r)[d]), r, d + 1)
  {
  }

  lemma Forward(q: int, s: int, r: int, d: nat)
    requires AtDot(q, s, r, d) && d < |Rhs(r)|
    ensures 0 <= s < 29 && Target(s, Rhs(r)[d]) != -1 && AtDot(q, Target(s, Rhs(r)[d]), r, d + 1)
  {
    hide Auto, Kernel, Target, Item, Level, MinLevel;
    if 1 <= r <= 3 { BinaryRule(r); }
    if d == 0 {
      ForwardStart(q, r);
    } else if 1 <= r <= 3 && d == 1 {
      ItemOfExpr(q, r);
      ForwardOperator(q, r);
    } else {
      ForwardRest(s, r, d);
    }
  }

  lemma ItemOfExpr(q: int, r: int)
    requires 0 <= q < 29 && 1 <= r <= 3 && Item(q, r, 0)
    ensures Target(q, EXPR) != -1
  {
    hide Auto, Kernel;
    Moves(q, EXPR);
  }

  /** A completed rule is applied on every token that can follow it. */
  lemma Completed(q: int, s: int, r: int, x: int)
    requires AtDot(q, s, r, |Rhs(r)|) && Follow(Lhs(r), x) && 0 <= x < 16
    requires 1 <= r <= 3 ==> Level(Node(r, [])) >= Binding(x)
    ensures Applies(s, x) == r
  {
    if r == 20 || r == 25 {
      CompletedEmpty(s, r, x);
    } else {
      CompletedKernel(s, r, x);
    }
  }

  lemma CompletedEmpty(s: int, r: int, x: int)
    requires (r == 20 || r == 25) && 0 <= s < 29 && Item(s, r, 0) && Follow(Lhs(r), x) && 0 <= x < 16
    ensures Applies(s, x) == r
  {
  }

  lemma CompletedKernel(s: int, r: int, x: int)
    requires 0 <= r < YYNRULE && |Rhs(r)| > 0 && Kernel(s, r, |Rhs(r)|) && Follow(Lhs(r), x) && 0 <= x < 16
    requires 1 <= r <= 3 ==> Level(Node(r, [])) >= Binding(x)
    ensures Applies(s, x) == r
  {
  }

  // ---- the parser rebuilds the tree ----

  /** The stack with the tree's symbol pushed. */
  function Pushed(p: Parser, n: nat, t: Tree): Parser
    requires n <= |p.stack|
  {
    p.(stack := p.stack[..n] + [Entry(Target(StateAt(p.stack, n), Symbol(t)), Symbol(t), t)])
  }

  /** The node's children up to d lie above position n, where the node was begun. */
  ghost predicate Underway(p: Parser, n: nat, r: int, kids: seq<Tree>, d: nat) {
    && Path(p.stack) && n + d == |p.stack| && d <= |kids|
    && Trees(p.stack[n..]) == kids[..d]
    && AtDot(StateAt(p.stack, n), Top(p.stack), r, d)
  }

  ghost predicate Good(t: Tree) { Derives(t) && Precedence(t) }

  lemma ChildWanted(q: int, s: int, r: int, kids: seq<Tree>, d: nat, x: int, y: int)
    requires AtDot(q, s, r, d) && d < |kids| && Good(Node(r, kids)) && Follow(Lhs(r), x)
    requires 1 <= r <= 3 ==> Level(Node(r, kids)) >= Binding(x)
    requires |kids| == |Rhs(r)| && Next(r, d + 1, x, y)
    ensures Wanted(s, kids[d], y) && Symbol(kids[d]) == Rhs(r)[d]
    ensures AtDot(q, Target(s, Rhs(r)[d]), r, d + 1)
  {
    hide Auto, Kernel, Target, Item, Next, Rhs, Follow, Lhs, First;
    assert Symbols(kids)[d] == Rhs(r)[d];
    Forward(q, s, r, d);
    FollowChild(r, d, x, y);
    if Rhs(r)[d] == EXPR { ExprChild(q, s, r, kids, d); }
  }

  /** An operand is tight enough for the state in which it is built. */
  lemma ExprChild(q: int, s: int, r: int, kids: seq<Tree>, d: nat)
    requires AtDot(q, s, r, d) && d < |kids| && |kids| == |Rhs(r)| && Precedence(Node(r, kids)) && Rhs(r)[d] == EXPR
    ensures Level(kids[d]) >= MinLevel(s)
    ensures 1 <= r <= 3 ==> Level(kids[d]) >= Level(Node(r, kids)) && (d == 0 ==> Level(Node(r, kids)) == Binding(Rhs(r)[1]))
  {
    if r == 0 { RootState(q); }
  }

  lemma RootState(q: int)
    requires 0 <= q < 29 && Item(q, 0, 0)
    ensures q == 0
  {
    hide Auto, Kernel;
    Moves(q, INPUT);
  }

  lemma PushedPath(p: Parser, t: Tree, x: int)
    requires Path(p.stack) && Wanted(Top(p.stack), t, x) && Derives(t) && Room(t, ROOM - |p.stack|)
    ensures Path(Pushed(p, |p.stack|, t).stack)
  {
    hide Auto, Target, Derives, Wanted;
    var q := Top(p.stack);
    assert p.stack[..|p.stack|] == p.stack;
    SymbolRange(t);
    assert 0 <= q < 29 && Target(q, Symbol(t)) != -1 by { WantedMove(q, t, x); }
    PathPush(p.stack, Entry(Target(q, Symbol(t)), Symbol(t), t));
  }

  lemma WantedMove(q: int, t: Tree, x: int)
    requires Wanted(q, t, x)
    ensures 0 <= q < 29 && Target(q, Symbol(t)) != -1
  {
  }

  lemma SymbolRange(t: Tree)
    requires Derives(t)
    ensures 0 <= Symbol(t) < 27
  {
    hide Rhs, Lhs;
    if t.Node? { LhsIsNonterminal(t.rule); }
  }

  /** A wanted token is shifted. */
  lemma ShiftsLeaf(p: Parser, tok: Token)
    requires Path(p.stack) && 0 <= tok.major < 16 && |p.stack| + 1 < YYSTACKDEPTH
    requires 0 <= Top(p.stack) < 29 && Target(Top(p.stack), tok.major) != -1
    ensures Parse(p, tok) == Pushed(p, |p.stack|, Leaf(tok))
  {
    hide Auto, Path;
    assert p.stack[..|p.stack|] == p.stack;
    MovesDoNotReduce(Top(p.stack), tok.major);
  }

  lemma MovesDoNotReduce(q: int, x: int)
    requires 0 <= q < 29 && Target(q, x) != -1
    ensures Applies(q, x) == -1
  {
    hide Auto;
  }

  /** A completed node is reduced as soon as the next token is seen. */
  lemma ReducesNode(p: Parser, n: nat, r: int, kids: seq<Tree>, x: int)
    requires Underway(p, n, r, kids, |kids|) && Derives(Node(r, kids)) && Follow(Lhs(r), x) && 0 <= x < 16
    requires 1 <= r <= 3 ==> Level(Node(r, kids)) >= Binding(x)
    requires n < ROOM
    ensures |kids| == |Rhs(r)| && Applies(Top(p.stack), x) == r
    ensures r != 0 ==> Reduced(p, r) == Pushed(p, n, Node(r, kids))
    ensures r == 0 ==> Reduced(p, r) == Parser([], p.errors, p.finished + [Node(r, kids)])
  {
    hide Auto, Kernel, Target, Item, Rhs, Follow, Lhs, Path, Applies;
    assert |Symbols(kids)| == |kids| && kids[..|kids|] == kids;
    Completed(StateAt(p.stack, n), Top(p.stack), r, x);
    GotoExists(StateAt(p.stack, n), r);
    if r == 0 { BottomState(p.stack, n); }
  }

  /** Reading a tree's tokens amounts to pushing the tree. */
  lemma {:induction false} Simulate(p: Parser, t: Tree, toks: seq<Token>)
    requires Path(p.stack) && Good(t) && Room(t, ROOM - |p.stack|)
    requires toks != [] && Majors16(toks) && Wanted(Top(p.stack), t, toks[0].major)
    ensures Path(Pushed(p, |p.stack|, t).stack) && Majors16(Yield(t) + toks)
    ensures Run(p, Yield(t) + toks) == Run(Pushed(p, |p.stack|, t), toks)
    decreases t, if t.Node? then |t.kids| + 1 else 0
  {
    hide Auto, Path, Follow, Target, Room, Parse, AtDot;
    PushedPath(p, t, toks[0].major);
    RoomSome(t, ROOM - |p.stack|);
    FirstToken(t);
    WantedMove(Top(p.stack), t, toks[0].major);
    match t
    case Leaf(tok) =>
      ShiftsLeaf(p, tok);
      assert (Yield(t) + toks)[0] == tok && (Yield(t) + toks)[1..] == toks;
    case Node(r, kids) =>
      Begun(p, t, toks[0].major);
      SimulateKids(p, |p.stack|, t, 0, toks);
      assert kids[0..] == kids;
  }

  lemma RoomSome(t: Tree, m: int)
    requires Room(t, m)
    ensures m >= 1
  {
  }

  lemma Begun(p: Parser, t: Tree, x: int)
    requires Path(p.stack) && Good(t) && t.Node? && Wanted(Top(p.stack), t, x)
    ensures Underway(p, |p.stack|, t.rule, t.kids, 0)
  {
    hide Auto, Path, Target, Follow, Kernel;
    assert p.stack[|p.stack|..] == [];
    LhsIsNonterminal(t.rule);
    LevelOfRule(t);
  }

  lemma LevelOfRule(t: Tree)
    requires t.Node?
    ensures Level(Node(t.rule, [])) == Level(t)
    ensures 1 <= t.rule <= 3 ==> Lhs(t.rule) == EXPR
  {
  }

  lemma {:induction false} SimulateKids(p: Parser, n: nat, t: Tree, d: nat, toks: seq<Token>)
    requires t.Node? && Good(t) && d <= |t.kids| && n < ROOM && Room(t, ROOM - n)
    requires Underway(p, n, t.rule, t.kids, d)
    requires toks != [] && Majors16(toks) && Wanted(StateAt(p.stack, n), t, toks[0].major)
    requires Path(Pushed(p, n, t).stack)
    ensures Majors16(Yields(t.kids[d..]) + toks)
    ensures Run(p, Yields(t.kids[d..]) + toks) == Run(Pushed(p, n, t), toks)
    decreases t, |t.kids| - d
  {
    hide *;
    RestMajors(t, d, toks);
    if d == |t.kids| {
      KidsDone(p, n, t, toks);
    } else {
      var rest := Yields(t.kids[d + 1..]) + toks;
      RestMajors(t, d + 1, toks);
      NextKid(p, n, t, d, toks);
      Simulate(p, t.kids[d], rest);
      SimulateKids(Pushed(p, |p.stack|, t.kids[d]), n, t, d + 1, toks);
    }
  }

  lemma RestMajors(t: Tree, d: nat, toks: seq<Token>)
    requires t.Node? && Good(t) && d <= |t.kids| && Majors16(toks)
    ensures Majors16(Yields(t.kids[d..]) + toks)
  {
    var rest := t.kids[d..];
    forall i | 0 <= i < |rest| ensures Majors16(Yield(rest[i])) { FirstToken(rest[i]); }
    YieldsMajors(rest);
  }

  /** The last child is in place: the next token makes the parser reduce. */
  lemma KidsDone(p: Parser, n: nat, t: Tree, toks: seq<Token>)
    requires t.Node? && Good(t) && Underway(p, n, t.rule, t.kids, |t.kids|) && n < ROOM
    requires toks != [] && Majors16(toks) && Wanted(StateAt(p.stack, n), t, toks[0].major)
    requires Path(Pushed(p, n, t).stack) && Majors16(Yields(t.kids[|t.kids|..]) + toks)
    ensures Run(p, Yields(t.kids[|t.kids|..]) + toks) == Run(Pushed(p, n, t), toks)
  {
    hide Auto, Target, Lhs, Rhs, Path, Follow, AtDot, Parse, Kernel;
    NotRoot(StateAt(p.stack, n), t, toks[0].major);
    LevelOfRule(t);
    ReducesNode(p, n, t.rule, t.kids, toks[0].major);
    ParseReduces(p, toks[0]);
    assert Yields(t.kids[|t.kids|..]) + toks == toks;
    RunCongruent(p, Pushed(p, n, t), toks);
  }

  lemma NotRoot(q: int, t: Tree, x: int)
    requires t.Node? && Good(t) && Wanted(q, t, x)
    ensures 1 <= t.rule < YYNRULE && Follow(Lhs(t.rule), x)
  {
    hide Auto, Rhs, Follow;
    Moves(q, Symbol(t));
  }

  lemma ParseReduces(p: Parser, tok: Token)
    requires Path(p.stack) && 0 <= tok.major < 16 && Applies(Top(p.stack), tok.major) != -1
    ensures var r := Applies(Top(p.stack), tok.major);
      && 0 <= r < YYNRULE && |Rhs(r)| <= |p.stack| && Path(Reduced(p, r).stack)
      && Parse(p, tok) == if Reduced(p, r).stack == [] then Reduced(p, r) else Parse(Reduced(p, r), tok)
  {
    hide Auto, Rhs, Lhs, Kernel, Target, Item, Path, Potential;
    ReducedPath(p, tok.major);
    ReducedPotential(p, tok.major);
  }

  lemma RunCongruent(p: Parser, q: Parser, toks: seq<Token>)
    requires Path(p.stack) && Path(q.stack) && Majors16(toks) && toks != [] && Parse(p, toks[0]) == Parse(q, toks[0])
    ensures Run(p, toks) == Run(q, toks)
  {
    hide Parse, Path;
  }

  /** The next child is wanted in the state on top, and pushing it moves the dot. */
  lemma NextKid(p: Parser, n: nat, t: Tree, d: nat, toks: seq<Token>)
    requires t.Node? && Good(t) && Underway(p, n, t.rule, t.kids, d) && n < ROOM && Room(t, ROOM - n) && d < |t.kids|
    requires toks != [] && Majors16(toks) && Wanted(StateAt(p.stack, n), t, toks[0].major)
    requires Path(Pushed(p, n, t).stack) && Majors16(Yields(t.kids[d + 1..]) + toks)
    ensures Path(p.stack) && Good(t.kids[d]) && Room(t.kids[d], ROOM - |p.stack|)
    ensures Wanted(Top(p.stack), t.kids[d], (Yields(t.kids[d + 1..]) + toks)[0].major)
    ensures Yields(t.kids[d..]) + toks == Yield(t.kids[d]) + (Yields(t.kids[d + 1..]) + toks)
    ensures var p' := Pushed(p, |p.stack|, t.kids[d]);
      && n <= |p'.stack| && StateAt(p'.stack, n) == StateAt(p.stack, n) && Pushed(p', n, t) == Pushed(p, n, t)
      && (Path(p'.stack) ==> Underway(p', n, t.rule, t.kids, d + 1))
  {
    hide Auto, Target, Lhs, Rhs, Path, Follow, AtDot, Kernel, Wanted, Next, Good, Room, Level;
    KidGood(t, d, ROOM - n);
    NotRoot(StateAt(p.stack, n), t, toks[0].major);
    LevelOfRule(t);
    WantedLevel(StateAt(p.stack, n), t, toks[0].major);
    NextToken(t.rule, t.kids, d + 1, toks);
    ChildWanted(StateAt(p.stack, n), Top(p.stack), t.rule, t.kids, d, toks[0].major, (Yields(t.kids[d + 1..]) + toks)[0].major);
    YieldsFrom(t.kids, d, toks);
    ChildPushed(p, n, t.kids, d);
  }

  lemma YieldsFrom(kids: seq<Tree>, d: nat, toks: seq<Token>)
    requires d < |kids|
    ensures Yields(kids[d..]) + toks == Yield(kids[d]) + (Yields(kids[d + 1..]) + toks)
  {
    assert kids[d..][0] == kids[d] && kids[d..][1..] == kids[d + 1..];
  }

  lemma KidGood(t: Tree, d: nat, m: int)
    requires t.Node? && Good(t) && d < |t.kids| && Room(t, m)
    ensures Derives(t) && Good(t.kids[d]) && Room(t.kids[d], m - d)
  {
  }

  lemma WantedLevel(q: int, t: Tree, x: int)
    requires Wanted(q, t, x) && t.Node?
    ensures Lhs(t.rule) == EXPR ==> Level(t) >= Binding(x)
  {
  }

  lemma ChildPushed(p: Parser, n: nat, kids: seq<Tree>, d: nat)
    requires n + d == |p.stack| && d < |kids| && Trees(p.stack[n..]) == kids[..d]
    ensures var s := Pushed(p, |p.stack|, kids[d]).stack;
      && n + d + 1 == |s| && Trees(s[n..]) == kids[..d + 1] && s[..n] == p.stack[..n]
      && StateAt(s, n) == StateAt(p.stack, n) && Top(s) == Target(Top(p.stack), Symbol(kids[d]))
  {
    hide Target, Symbol;
    var s := Pushed(p, |p.stack|, kids[d]).stack;
    assert s[n..] == p.stack[n..] + [s[n + d]];
  }

  // ---- the parser, exactly ----

  /** Completeness: a derivation that respects precedence and fits the stack is the result. */
  lemma {:induction false} Completeness(t: Tree, toks: seq<Token>)
    requires Query(toks) && ParseOf(t, toks)
    ensures Run(START, toks) == Parser([], 0, [t])
  {
    hide Auto, Target, Follow, Kernel, Item, AtDot, Parse, Room, Path;
    var kids := t.kids;
    var end := toks[|toks| - 1..];
    RootNode(t);
    StartWants(kids[0]);
    RoomKid(t, 0);
    StartPath();
    Simulate(START, kids[0], end);
    assert Yields(kids) == Yield(kids[0]) by { assert kids == [kids[0]]; YieldsOne(kids[0]); }
    assert toks == Yield(kids[0]) + end;
    var p := Pushed(START, 0, kids[0]);
    RootUnderway(p, kids);
    RootRule();
    assert t == Node(0, kids);
    ReducesNode(p, 0, 0, kids, END);
    ParseReduces(p, end[0]);
    assert Run(p, end) == Parse(p, end[0]) by { assert end[1..] == []; }
  }

  lemma RootNode(t: Tree)
    requires Derives(t) && Symbol(t) == INPUT
    ensures t.Node? && t.rule == 0 && |t.kids| == 1 && Symbol(t.kids[0]) == EXPR
  {
    hide Rhs, Lhs;
    LhsIsNonterminal(t.rule);
    RootRule();
    assert |Symbols(t.kids)| == 1;
    assert Symbols(t.kids)[0] == Symbol(t.kids[0]);
  }

  lemma StartPath()
    ensures Path(START.stack)
  {
  }

  lemma RootRule()
    ensures Rhs(0) == [EXPR] && Lhs(0) == INPUT && Follow(Lhs(0), END)
  {
  }

  lemma StartWants(e: Tree)
    requires Symbol(e) == EXPR
    ensures Wanted(0, e, END)
  {
  }

  lemma RoomKid(t: Tree, i: nat)
    requires t.Node? && i < |t.kids| && Room(t, ROOM)
    ensures Room(t.kids[i], ROOM - i)
  {
  }

  lemma RootUnderway(p: Parser, kids: seq<Tree>)
    requires |kids| == 1 && Symbol(kids[0]) == EXPR && p == Pushed(START, 0, kids[0]) && Path(p.stack)
    ensures Underway(p, 0, 0, kids, |kids|)
  {
    hide Path, Symbol;
    assert p.stack[0..] == p.stack;
  }

  /**
   The parser reports no error and returns tree t exactly if t is a derivation of the
   query that respects precedence and associativity and can be built in 99 entries.
   */
  lemma {:induction false} ParserExactly(t: Tree, toks: seq<Token>)
    requires Query(toks)
    ensures Run(START, toks).errors == 0 && Run(START, toks).finished == [t] <==> ParseOf(t, toks)
  {
    hide Run, ParseOf;
    if ParseOf(t, toks) { Completeness(t, toks); }
    if Run(START, toks).errors == 0 { Soundness(toks); }
  }

  /** No query has two such derivations. */
  lemma {:induction false} Unambiguous(t: Tree, u: Tree, toks: seq<Token>)
    requires Query(toks) && ParseOf(t, toks) && ParseOf(u, toks)
    ensures t == u
  {
    hide Run, ParseOf;
    Completeness(t, toks);
    Completeness(u, toks);
    assert [t][0] == [u][0];
  }
}
