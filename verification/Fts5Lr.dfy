/**
 The parser as a step function on its stack, and why it is right: what the stack
 always looks like, which rule a reduction may apply, and how far reductions go.
 */
module Fts5Lr {
  import opened Fts5Tables
  import opened Fts5Grammar

  const YYSTACKDEPTH := 100

  /** `state` is a state, or 71 + r when the entry completes rule r at once. */
  datatype Entry = Entry(state: int, major: int, tree: Tree)

  /** `stack` is yystack without its first entry, whose state is 0. */
  datatype Parser = Parser(stack: seq<Entry>, errors: nat, finished: seq<Tree>)

  function StateAt(stack: seq<Entry>, i: nat): int
    requires i <= |stack|
  {
    if i == 0 then 0 else stack[i - 1].state
  }

  function Top(stack: seq<Entry>): int { StateAt(stack, |stack|) }

  /** Where symbol x leads from state p: the state number that is pushed, or -1. */
  function Target(p: int, x: int): int {
    match Auto(p, x)
    case Shift(s) => s
    case ShiftReduce(r) => YY_MIN_REDUCE + r
    case _ => -1
  }

  function Trees(stack: seq<Entry>): (r: seq<Tree>)
    ensures |r| == |stack|
  {
    seq(|stack|, i requires 0 <= i < |stack| => stack[i].tree)
  }

  /** The entry is what a move of state q pushes, and its tree derives its symbol. */
  ghost predicate Linked(q: int, e: Entry) {
    && 0 <= q < 29 && 0 <= e.major < 27 && Target(q, e.major) == e.state != -1
    && e.major == Symbol(e.tree) && Derives(e.tree)
  }

  /** The stack spells a path of the automaton from state 0, and carries its derivations. */
  ghost predicate Path(stack: seq<Entry>) {
    |stack| < YYSTACKDEPTH && forall i :: 0 <= i < |stack| ==> Linked(StateAt(stack, i), stack[i])
  }

  // ---- items ----

  /** The kernel items of the states: rule and dot position, the dot not at the start. */
  predicate Kernel(s: int, r: int, d: int) {
    match s
    case 1 => r == 4 && d == 1
    case 2 => r == 3 && d == 2
    case 3 => r == 2 && d == 2
    case 4 => r == 1 && d == 2
    case 5 => d == 1 && (r == 5 || r == 7)
    case 6 => (r == 17 && d == 3) || (r == 19 && d == 1)
    case 7 => r == 17 && d == 2
    case 8 => r == 9 && d == 2
    case 9 => d == 1 && (r == 12 || r == 17 || r == 23)
    case 10 => d == 1 && (r == 17 || r == 23)
    case 11 => r == 11 && d == 1
    case 12 => r == 10 && d == 2
    case 13 => r == 23 && d == 1
    case 14 => r == 22 && d == 3
    case 15 => (1 <= r <= 3 && d == 1) || (r == 4 && d == 2)
    case 16 => 0 <= r <= 3 && d == 1
    case 17 => (r == 11 && d == 2) || (r == 14 && d == 1)
    case 18 => (r == 10 && d == 3) || (r == 14 && d == 1)
    case 19 => d == 1 && (r == 10 || r == 13)
    case 20 => (1 <= r <= 3 && d == 1) || (r == 2 && d == 3)
    case 21 => d == 1 && (r == 18 || r == 22)
    case 22 => r == 21 && d == 1
    case 23 => (r == 19 && d == 2) || (r == 22 && d == 1)
    case 24 => r == 17 && d == 4
    case 25 => r == 22 && d == 2
    case 26 => d == 1 && (r == 16 || r == 22)
    case 27 => r == 9 && d == 1
    case 28 => (1 <= r <= 3 && d == 1) || (r == 1 && d == 3)
    case _ => YY_MIN_REDUCE <= s <= YY_MAX_REDUCE && r == s - YY_MIN_REDUCE && d == |Rhs(r)|
  }

  /** A rule may start in s exactly if its left-hand side leads somewhere from s. */
  predicate Item(s: int, r: int, d: int) {
    if d == 0 then s < 29 && (Target(s, Lhs(r)) != -1 || Auto(s, Lhs(r)).Accept?) else Kernel(s, r, d)
  }

  /** One step back: the dot moves over the symbol that led into the state. */
  predicate StepsBack(p: int, x: int, r: int, d: int) {
    0 <= r < YYNRULE && 0 < d <= |Rhs(r)| && Rhs(r)[d - 1] == x && Item(p, r, d - 1)
  }

  lemma ItemBack(p: int, x: int, r: int, d: int)
    requires 0 <= p < 29 && 0 <= x < 27 && Target(p, x) != -1 && d > 0 && Kernel(Target(p, x), r, d)
    ensures StepsBack(p, x, r, d)
  {
    if p < 2 {
      ItemBackFrom0(p, x, r, d);
    } else if p < 5 {
      ItemBackFrom2(p, x, r, d);
    } else if p < 10 {
      ItemBackFrom5(p, x, r, d);
    } else {
      ItemBackFrom10(p, x, r, d);
    }
  }

  lemma ItemBackFrom0(p: int, x: int, r: int, d: int)
    requires 0 <= p < 2 && 0 <= x < 27 && Target(p, x) != -1 && d > 0 && Kernel(Target(p, x), r, d)
    ensures StepsBack(p, x, r, d)
  {
  }

  lemma ItemBackFrom2(p: int, x: int, r: int, d: int)
    requires 2 <= p < 5 && 0 <= x < 27 && Target(p, x) != -1 && d > 0 && Kernel(Target(p, x), r, d)
    ensures StepsBack(p, x, r, d)
  {
  }

  lemma ItemBackFrom5(p: int, x: int, r: int, d: int)
    requires 5 <= p < 10 && 0 <= x < 27 && Target(p, x) != -1 && d > 0 && Kernel(Target(p, x), r, d)
    ensures StepsBack(p, x, r, d)
  {
  }

  lemma ItemBackFrom10(p: int, x: int, r: int, d: int)
    requires 10 <= p < 29 && 0 <= x < 27 && Target(p, x) != -1 && d > 0 && Kernel(Target(p, x), r, d)
    ensures StepsBack(p, x, r, d)
  {
  }

  /** The rule that the driver reduces by with state s on top and token x next, or -1. */
  function Applies(s: int, x: int): int {
    if s >= YY_MIN_REDUCE then s - YY_MIN_REDUCE else match Auto(s, x) case Reduce(r) => r case _ => -1
  }

  lemma ReduceItem(s: int, x: int)
    requires 0 <= s < 29 && 0 <= x < 16 && Applies(s, x) != -1
    ensures var r := Applies(s, x);
      && 0 <= r < YYNRULE && Item(s, r, |Rhs(r)|)
      && (r == 0 ==> x == END) && (r == 1 ==> x != NOT) && (r == 2 ==> x != NOT && x != AND) && r != 3
      && (Rhs(r) == [] ==> Bonus(s) == 2)
  {
  }

  lemma PendingItem(p: int, x: int)
    requires 0 <= p < 29 && 0 <= x < 27 && Target(p, x) >= YY_MIN_REDUCE
    ensures var r := Target(p, x) - YY_MIN_REDUCE;
      && 3 <= r < YYNRULE && |Rhs(r)| > 0 && Item(Target(p, x), r, |Rhs(r)|)
  {
  }

  /** Moves that the proofs below need to know about in general. */
  lemma Moves(p: int, x: int)
    requires 0 <= p < 29 && 0 <= x < 27
    ensures Target(p, x) != 0 && -1 <= Target(p, x) <= YY_MAX_REDUCE && Target(p, x) != YY_MIN_REDUCE
    ensures Target(p, x) < 29 || Target(p, x) > YY_MIN_REDUCE
    ensures x == END ==> Target(p, x) == -1
    ensures Auto(p, x).Accept? ==> p == 0 && x == INPUT
    ensures x < 16 ==> !Auto(p, x).Accept? && !Auto(p, x).Absent?
    ensures x == INPUT ==> Target(p, x) == -1
    ensures x == NEARDIST_OPT || x == STAR_OPT ==> Bonus(Target(p, x)) == 0
  {
  }

  // ---- what a reduction finds on the stack ----

  function Majors(stack: seq<Entry>): (r: seq<int>)
    ensures |r| == |stack|
  {
    seq(|stack|, i requires 0 <= i < |stack| => stack[i].major)
  }

  lemma NotAtStart(r: int, d: nat)
    requires d > 0
    ensures !Item(0, r, d)
  {
  }

  /** The symbols below a dot are on the stack, and below them the rule is expected. */
  lemma {:induction false} Chain(stack: seq<Entry>, n: nat, r: int, d: nat)
    requires Path(stack) && n <= |stack| && Item(StateAt(stack, n), r, d)
    ensures d <= n && (d > 0 ==> d <= |Rhs(r)| && Majors(stack)[n - d..n] == Rhs(r)[..d])
    ensures Item(StateAt(stack, n - d), r, 0)
    decreases d
  {
    hide Auto, Kernel, Rhs, Lhs, Item, Path, Majors;
    if d > 0 {
      if n == 0 { NotAtStart(r, d); }
      StepBack(stack, n, r, d);
      Chain(stack, n - 1, r, d - 1);
      Extend(Majors(stack), n, Rhs(r), d);
    }
  }

  lemma Extend(a: seq<int>, n: nat, b: seq<int>, d: nat)
    requires 0 < d <= n <= |a| && d <= |b| && a[n - 1] == b[d - 1]
    requires d > 1 ==> a[n - d..n - 1] == b[..d - 1]
    ensures a[n - d..n] == b[..d]
  {
    assert a[n - d..n] == a[n - d..n - 1] + [a[n - 1]];
    assert b[..d] == b[..d - 1] + [b[d - 1]];
  }

  lemma StepBack(stack: seq<Entry>, i: nat, r: int, e: nat)
    requires Path(stack) && 0 < i <= |stack| && 0 < e && Item(StateAt(stack, i), r, e)
    ensures StepsBack(StateAt(stack, i - 1), Majors(stack)[i - 1], r, e)
  {
    hide Auto, Target, Kernel, Rhs, Lhs, Derives;
    assert Linked(StateAt(stack, i - 1), stack[i - 1]);
    ItemBack(StateAt(stack, i - 1), stack[i - 1].major, r, e);
  }

  /**
   Every reduction the driver asks for finds exactly the right-hand side of its rule
   on top of the stack, and the state below it has a move for the left-hand side.
   */
  lemma ReductionFindsRule(stack: seq<Entry>, x: int)
    requires Path(stack) && 0 <= x < 16 && Applies(Top(stack), x) != -1
    ensures var r := Applies(Top(stack), x);
      && 0 <= r < YYNRULE && |Rhs(r)| <= |stack| && Majors(stack)[|stack| - |Rhs(r)|..] == Rhs(r)
      && Item(StateAt(stack, |stack| - |Rhs(r)|), r, 0)
  {
    hide Auto, Kernel, Rhs, Lhs, Item;
    var s, r, n := Top(stack), Applies(Top(stack), x), |stack|;
    if s >= YY_MIN_REDUCE {
      assert Linked(StateAt(stack, n - 1), stack[n - 1]);
      PendingItem(StateAt(stack, n - 1), stack[n - 1].major);
    } else {
      TopIsState(stack);
      ReduceItem(s, x);
    }
    Chain(stack, n, r, |Rhs(r)|);
    assert Rhs(r)[..|Rhs(r)|] == Rhs(r);
    assert Majors(stack)[n - |Rhs(r)|..n] == Majors(stack)[n - |Rhs(r)|..];
  }

  lemma TopIsState(stack: seq<Entry>)
    requires Path(stack)
    ensures 0 <= Top(stack) < 29 || YY_MIN_REDUCE < Top(stack) <= YY_MAX_REDUCE
    ensures Top(stack) >= YY_MIN_REDUCE ==> stack != []
  {
    hide Auto, Target, Derives;
    if stack != [] {
      var n := |stack|;
      assert Linked(StateAt(stack, n - 1), stack[n - 1]);
      Moves(StateAt(stack, n - 1), stack[n - 1].major);
    }
  }

  /** States in which an empty rule can be applied. */
  function Bonus(s: int): nat {
    if s == 6 || s == 9 || s == 10 || s == 13 || s == 14 then 2 else 0
  }
}
