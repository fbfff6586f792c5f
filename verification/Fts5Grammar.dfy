/**
 The grammar of FTS5 queries and its parse trees.

 `Rhs` lists the right-hand sides as yyRuleName spells them; yyRuleInfo has only the
 left-hand side and the length.
 */
module Fts5Grammar {
  import opened Fts5Tables

  const YYNRULE := 26

  function Lhs(r: int): int {
    match r
    case 0 => INPUT
    case 1 => EXPR case 2 => EXPR case 3 => EXPR case 4 => EXPR case 5 => EXPR
    case 6 => EXPRLIST case 7 => EXPRLIST
    case 8 => CNEARSET case 9 => CNEARSET
    case 10 => COLSET case 11 => COLSET case 12 => COLSET case 13 => COLSET
    case 14 => COLSETLIST case 15 => COLSETLIST
    case 16 => NEARSET case 17 => NEARSET
    case 18 => NEARPHRASES case 19 => NEARPHRASES
    case 20 => NEARDIST_OPT case 21 => NEARDIST_OPT
    case 22 => PHRASE case 23 => PHRASE
    case _ => STAR_OPT
  }

  function Rhs(r: int): seq<int> {
    match r
    case 0 => [EXPR]
    case 1 => [EXPR, AND, EXPR]
    case 2 => [EXPR, OR, EXPR]
    case 3 => [EXPR, NOT, EXPR]
    case 4 => [LP, EXPR, RP]
    case 5 => [EXPRLIST]
    case 6 => [CNEARSET]
    case 7 => [EXPRLIST, CNEARSET]
    case 8 => [NEARSET]
    case 9 => [COLSET, COLON, NEARSET]
    case 10 => [MINUS, LCP, COLSETLIST, RCP]
    case 11 => [LCP, COLSETLIST, RCP]
    case 12 => [STRING]
    case 13 => [MINUS, STRING]
    case 14 => [COLSETLIST, STRING]
    case 15 => [STRING]
    case 16 => [PHRASE]
    case 17 => [STRING, LP, NEARPHRASES, NEARDIST_OPT, RP]
    case 18 => [PHRASE]
    case 19 => [NEARPHRASES, PHRASE]
    case 20 => []
    case 21 => [COMMA, STRING]
    case 22 => [PHRASE, PLUS, STRING, STAR_OPT]
    case 23 => [STRING, STAR_OPT]
    case 24 => [STAR]
    case _ => []
  }

  /** A token: its major code and its text. */
  datatype Token = Token(major: int, text: string)

  datatype Tree = Leaf(token: Token) | Node(rule: int, kids: seq<Tree>)

  function Symbol(t: Tree): int {
    match t
    case Leaf(token) => token.major
    case Node(r, _) => Lhs(r)
  }

  function Symbols(ts: seq<Tree>): (r: seq<int>)
    ensures |r| == |ts|
  {
    seq(|ts|, i requires 0 <= i < |ts| => Symbol(ts[i]))
  }

  /** The tree is a derivation: each node applies a rule of the grammar. */
  ghost predicate Derives(t: Tree) {
    match t
    case Leaf(token) => 0 <= token.major < 16
    case Node(r, kids) =>
      0 <= r < YYNRULE && Symbols(kids) == Rhs(r) && forall i :: 0 <= i < |kids| ==> Derives(kids[i])
  }

  function Yield(t: Tree): seq<Token> {
    match t
    case Leaf(token) => [token]
    case Node(_, kids) => Yields(kids)
  }

  function Yields(ts: seq<Tree>): seq<Token> {
    if ts == [] then [] else Yield(ts[0]) + Yields(ts[1..])
  }

  lemma {:induction false} YieldsAppend(a: seq<Tree>, b: seq<Tree>)
    ensures Yields(a + b) == Yields(a) + Yields(b)
  {
    if a == [] {
      assert a + b == b;
    } else {
      assert (a + b)[1..] == a[1..] + b;
      YieldsAppend(a[1..], b);
    }
  }

  // ---- operator precedence ----

  /** How tightly an operator token binds: OR below AND below NOT. */
  function Binding(x: int): nat {
    if x == OR then 1 else if x == AND then 2 else if x == NOT then 3 else 0
  }

  /** The binding of the operator at the root of a tree; everything else binds tighter. */
  function Level(t: Tree): nat {
    if t.Node? && t.rule == 2 then 1 else if t.Node? && t.rule == 1 then 2 else if t.Node? && t.rule == 3 then 3 else 4
  }

  /**
   OR is outermost, then AND, then NOT, and each is left-associative: a left operand
   binds at least as tightly as the operator, a right operand more tightly.
   */
  ghost predicate Precedence(t: Tree) {
    match t
    case Leaf(_) => true
    case Node(r, kids) =>
      && (forall i :: 0 <= i < |kids| ==> Precedence(kids[i]))
      && ((r == 1 || r == 2 || r == 3) && |kids| == 3 ==>
            Level(kids[0]) >= Level(t) && Level(kids[2]) > Level(t))
  }
}
