/**
 Semantic actions that report an error: a column that does not exist, a NEAR distance that
 is no number.  Which ones do is a parameter; what the parser keeps track of is whether any
 node built so far has been rejected.
 */
module Fts5Actions {
  import opened Fts5Tables
  import opened Fts5Grammar
  import opened Fts5Lr
  import opened Fts5Driver
  import opened Fts5Soundness

  /** Whether the action of a rule reports an error on these children. */
  type Rejects = (int, seq<Tree>) -> bool

  /** Some node of the tree has been rejected. */
  predicate Bad(rejects: Rejects, t: Tree) {
    match t
    case Leaf(_) => false
    case Node(r, kids) => rejects(r, kids) || exists i :: 0 <= i < |kids| && Bad(rejects, kids[i])
  }

  predicate AnyBad(rejects: Rejects, ts: seq<Tree>) { exists i :: 0 <= i < |ts| && Bad(rejects, ts[i]) }

  /** The trees that the parser holds. */
  function Held(p: Parser): seq<Tree> { Trees(p.stack) + p.finished }

  predicate BadIn(rejects: Rejects, p: Parser) { AnyBad(rejects, Held(p)) }

  lemma AnyBadAppend(rejects: Rejects, a: seq<Tree>, b: seq<Tree>)
    ensures AnyBad(rejects, a + b) <==> AnyBad(rejects, a) || AnyBad(rejects, b)
  {
    if AnyBad(rejects, a) {
      var i :| 0 <= i < |a| && Bad(rejects, a[i]);
      assert (a + b)[i] == a[i];
    }
    if AnyBad(rejects, b) {
      var i :| 0 <= i < |b| && Bad(rejects, b[i]);
      assert (a + b)[|a| + i] == b[i];
    }
  }

  lemma AnyBadOne(rejects: Rejects, t: Tree)
    ensures AnyBad(rejects, [t]) <==> Bad(rejects, t)
  {
    hide Bad;
    assert [t][0] == t;
  }

  lemma BadNode(rejects: Rejects, r: int, kids: seq<Tree>)
    ensures Bad(rejects, Node(r, kids)) <==> rejects(r, kids) || AnyBad(rejects, kids)
  {
  }

  lemma BadInParts(rejects: Rejects, p: Parser)
    ensures BadIn(rejects, p) <==> AnyBad(rejects, Trees(p.stack)) || AnyBad(rejects, p.finished)
  {
    AnyBadAppend(rejects, Trees(p.stack), p.finished);
  }

  /** A token adds nothing that could be rejected. */
  lemma ShiftedBad(rejects: Rejects, p: Parser, tok: Token)
    requires Shifted(p, tok).errors == p.errors
    ensures BadIn(rejects, Shifted(p, tok)) <==> BadIn(rejects, p)
  {
    hide AnyBad, Target, Trees;
    var q := Shifted(p, tok);
    BadInParts(rejects, p);
    BadInParts(rejects, q);
    PushedTrees(p.stack, q.stack[|p.stack|]);
    AnyBadAppend(rejects, Trees(p.stack), [Leaf(tok)]);
    AnyBadOne(rejects, Leaf(tok));
  }

  lemma PushedTrees(stack: seq<Entry>, e: Entry)
    ensures Trees(stack + [e]) == Trees(stack) + [e.tree]
  {
  }

  lemma PoppedTrees(stack: seq<Entry>, n: nat)
    requires n <= |stack|
    ensures Trees(stack) == Trees(stack[..n]) + Trees(stack[n..])
  {
  }

  /** A reduction adds its own node to what may have been rejected, and forgets nothing. */
  lemma ReducedBad(rejects: Rejects, p: Parser, r: int)
    requires 0 <= r < YYNRULE && |Rhs(r)| <= |p.stack| && Reduced(p, r).errors == p.errors
    ensures BadIn(rejects, Reduced(p, r)) <==> BadIn(rejects, p) || rejects(r, Trees(p.stack[|p.stack| - |Rhs(r)|..]))
  {
    hide AnyBad, Auto, Target, Rhs, Lhs, Trees, Bad;
    var n, q := |p.stack| - |Rhs(r)|, Reduced(p, r);
    var kids := Trees(p.stack[n..]);
    BadInParts(rejects, p);
    BadInParts(rejects, q);
    PoppedTrees(p.stack, n);
    AnyBadAppend(rejects, Trees(p.stack[..n]), kids);
    BadNode(rejects, r, kids);
    AnyBadOne(rejects, Node(r, kids));
    if Auto(StateAt(p.stack, n), Lhs(r)).Accept? {
      AnyBadAppend(rejects, p.finished, [Node(r, kids)]);
    } else {
      PushedTrees(p.stack[..n], q.stack[n]);
      AnyBadAppend(rejects, Trees(p.stack[..n]), [Node(r, kids)]);
    }
  }

  lemma ReducedErrors(p: Parser, r: int)
    requires 0 <= r < YYNRULE && |Rhs(r)| <= |p.stack|
    ensures Reduced(p, r).errors >= p.errors
  {
    hide Auto, Target, Rhs, Lhs;
  }

  /** While no other error is reported, a rejected node stays. */
  lemma {:induction false} ParseBad(rejects: Rejects, p: Parser, tok: Token)
    requires Path(p.stack) && 0 <= tok.major < 16 && BadIn(rejects, p) && Parse(p, tok).errors == p.errors
    ensures BadIn(rejects, Parse(p, tok))
    decreases Potential(p.stack)
  {
    hide Auto, Rhs, Lhs, Kernel, Target, Item, Potential, Path, BadIn, Shifted, Reduced;
    var r := Applies(Top(p.stack), tok.major);
    if r == -1 {
      ShiftedBad(rejects, p, tok);
    } else {
      ReducedPath(p, tok.major);
      ReducedPotential(p, tok.major);
      ReducedErrors(p, r);
      var q := Reduced(p, r);
      if q.stack != [] { ParseErrors(q, tok); }
      ReducedBad(rejects, p, r);
      if q.stack != [] { ParseBad(rejects, q, tok); }
    }
  }

  lemma {:induction false} RunBad(rejects: Rejects, p: Parser, toks: seq<Token>)
    requires Path(p.stack) && Majors16(toks) && BadIn(rejects, p) && Run(p, toks).errors == p.errors
    ensures BadIn(rejects, Run(p, toks))
    decreases |toks|
  {
    hide Path, Parse, BadIn;
    if toks != [] {
      ParsePath(p, toks[0]);
      ParseErrors(p, toks[0]);
      RunErrors(Parse(p, toks[0]), toks[1..]);
      ParseBad(rejects, p, toks[0]);
      RunBad(rejects, Parse(p, toks[0]), toks[1..]);
    }
  }

  lemma BadResult(rejects: Rejects, p: Parser, t: Tree)
    requires p.stack == [] && p.finished == [t]
    ensures BadIn(rejects, p) <==> Bad(rejects, t)
  {
    hide Bad;
    assert Held(p) == [t];
    AnyBadOne(rejects, t);
  }
}
