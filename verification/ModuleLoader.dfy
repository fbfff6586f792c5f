/**
 The module loader of cordova.js: `require` builds a module by running its factory, which
 requires other modules in turn; a stack of the modules being built detects cycles.
 */
module ModuleLoader {

  type Id = string

  /** For each defined module the ids its factory requires, in order; the first error ends the factory. */
  type Graph = map<Id, seq<Id>>

  /** `factories` are the modules not yet built; the last two are logs of factory calls and returns. */
  datatype State = State(
    factories: set<Id>, inProgress: map<Id, nat>, stack: seq<Id>, started: seq<Id>, finished: seq<Id>)

  datatype Outcome = Exports | NotFound(id: Id) | Cycle(path: seq<Id>)

  /** String.prototype.lastIndexOf of the separator, -1 if there is none. */
  function LastDot(s: string): (k: int)
    ensures -1 <= k < |s|
  {
    if s == "" then -1 else if s[|s| - 1] == '.' then |s| - 1 else LastDot(s[..|s| - 1])
  }

  /** String.prototype.slice(0, k) */
  function Front(s: string, k: int): string
    requires -1 <= k <= |s|
  {
    if k >= 0 then s[..k] else if s == "" then "" else s[..|s| - 1]
  }

  /** localRequire's id: one that begins with a dot is relative to the requiring module. */
  function Resolve(owner: Id, id: Id): Id {
    if id != "" && id[0] == '.' then Front(owner, LastDot(owner)) + "." + (if |id| >= 2 then id[2..] else "") else id
  }

  /** A relative id takes the place of what follows the owner's last dot; any other id stays. */
  lemma ResolveRelative(owner: Id, k: nat, name: Id)
    requires k < |owner| && owner[k] == '.' && forall i :: k < i < |owner| ==> owner[i] != '.'
    ensures Resolve(owner, "./" + name) == owner[..k] + "." + name
  {
    LastDotIs(owner, k);
    assert ("./" + name)[2..] == name;
  }

  /** In a module whose id has no dot its last letter is lopped off instead. */
  lemma ResolveUndotted(owner: Id, name: Id)
    requires owner != "" && forall i :: 0 <= i < |owner| ==> owner[i] != '.'
    ensures Resolve(owner, "./" + name) == owner[..|owner| - 1] + "." + name
  {
    NoLastDot(owner);
    assert ("./" + name)[2..] == name;
  }

  lemma ResolveAbsolute(owner: Id, id: Id)
    requires id == "" || id[0] != '.'
    ensures Resolve(owner, id) == id
  {
  }

  lemma {:induction false} LastDotIs(s: string, k: nat)
    requires k < |s| && s[k] == '.' && forall i :: k < i < |s| ==> s[i] != '.'
    ensures LastDot(s) == k
    decreases |s|
  {
    if k < |s| - 1 { LastDotIs(s[..|s| - 1], k); }
  }

  lemma {:induction false} NoLastDot(s: string)
    requires forall i :: 0 <= i < |s| ==> s[i] != '.'
    ensures LastDot(s) == -1
    decreases |s|
  {
    if s != "" { NoLastDot(s[..|s| - 1]); }
  }

  /** From the module a.b, ./x is a.x. */
  lemma ResolveExample()
    ensures Resolve("a.b", "./x") == "a.x" && Resolve("ab", "./x") == "a.x" && Resolve("a.b", "x") == "x"
  {
    assert "./x" == "./" + "x";
    ResolveRelative("a.b", 1, "x");
    ResolveUndotted("ab", "x");
    assert "a.b"[..1] + "." + "x" == "a.x" && "ab"[..1] + "." + "x" == "a.x";
  }

  /**
   The names that every object inherits from Object.prototype.  `modules` and
   `inProgressModules` are plain objects, so a look-up of one of these finds something.
   */
  predicate Inherited(id: Id) {
    id in {"constructor", "hasOwnProperty", "isPrototypeOf", "propertyIsEnumerable", "toLocaleString", "toString",
           "valueOf", "__proto__", "__defineGetter__", "__defineSetter__", "__lookupGetter__", "__lookupSetter__"}
  }

  function Needs(g: Graph, id: Id): (r: seq<Id>)
    ensures id in g ==> |r| == |g[id]|
  {
    if id !in g then [] else seq(|g[id]|, i requires 0 <= i < |g[id]| => Resolve(id, g[id][i]))
  }

  /** Before the factory runs. */
  function Enter(s: State, id: Id): State {
    State(s.factories - {id}, s.inProgress[id := |s.stack|], s.stack + [id], s.started + [id], s.finished)
  }

  /** The finally clause. */
  function Leave(s: State, id: Id, out: Outcome): State {
    State(s.factories, s.inProgress - {id}, if s.stack == [] then [] else s.stack[..|s.stack| - 1], s.started,
          if out.Exports? then s.finished + [id] else s.finished)
  }

  /** The stack from the index on that the map holds, or all of it if that is no number. */
  function Reported(s: State, id: Id): seq<Id> {
    var k := if id in s.inProgress then s.inProgress[id] else 0;
    (if k <= |s.stack| then s.stack[k..] else []) + [id]
  }

  function Require(g: Graph, s: State, id: Id): (r: (State, Outcome))
    ensures r.0.factories <= s.factories
    decreases s.factories, 0, 0
  {
    if id !in g && !Inherited(id) then (s, NotFound(id))
    else if id in s.inProgress || Inherited(id) then (s, Cycle(Reported(s, id)))
    else if id in s.factories then
      var (s1, out) := RequireAll(g, Enter(s, id), Needs(g, id));
      (Leave(s1, id, out), out)
    else (s, Exports)
  }

  function RequireAll(g: Graph, s: State, ids: seq<Id>): (r: (State, Outcome))
    ensures r.0.factories <= s.factories
    decreases s.factories, 1, |ids|
  {
    if ids == [] then (s, Exports)
    else
      var (s1, out) := Require(g, s, ids[0]);
      if out.Exports? then RequireAll(g, s1, ids[1..]) else (s1, out)
  }

  // ---- paths of the require graph ----

  /** Each module on the path requires the next one. */
  ghost predicate Path(g: Graph, p: seq<Id>) {
    p != [] && forall i :: 0 < i < |p| ==> p[i] in Needs(g, p[i - 1])
  }

  ghost predicate Leads(g: Graph, p: seq<Id>, a: Id, b: Id) { Path(g, p) && p[0] == a && p[|p| - 1] == b }

  ghost predicate Reaches(g: Graph, a: Id, b: Id) { exists p :: Leads(g, p, a, b) }

  /** A module that requires itself in the end. */
  ghost predicate OnCycle(g: Graph, a: Id) { exists b :: b in Needs(g, a) && Reaches(g, b, a) }

  /** What `require` needs: everything reachable is defined and lies on no cycle. */
  ghost predicate Loadable(g: Graph, id: Id) {
    forall x :: Reaches(g, id, x) ==> x in g && !Inherited(x) && !OnCycle(g, x)
  }

  /** The graph that is left when only these modules are still to be built. */
  function Left(g: Graph, todo: set<Id>): Graph { map id | id in g :: if id in todo then g[id] else [] }

  /** Modules that are not to be built require nothing more. */
  predicate Settled(g: Graph, todo: set<Id>) { todo <= g.Keys && forall x :: x in g && x !in todo ==> g[x] == [] }

  /** Built by an earlier call, whether its factory returned or failed. */
  predicate Built(g: Graph, todo: set<Id>, x: Id) { x in g && x !in todo && !Inherited(x) }

  lemma PathAppend(g: Graph, p: seq<Id>, q: seq<Id>)
    requires Path(g, p) && Path(g, q) && q[0] in Needs(g, p[|p| - 1])
    ensures Path(g, p + q)
  {
    hide Needs;
    var r := p + q;
    forall i | 0 < i < |r| ensures r[i] in Needs(g, r[i - 1]) {
      if i < |p| {
        assert p[i] in Needs(g, p[i - 1]);
      } else if i > |p| {
        assert q[i - |p|] in Needs(g, q[i - |p| - 1]);
      }
    }
  }

  lemma ReachSelf(g: Graph, a: Id)
    ensures Reaches(g, a, a)
  {
    assert Leads(g, [a], a, a);
  }

  lemma ReachStep(g: Graph, a: Id, b: Id, c: Id)
    requires b in Needs(g, a) && Reaches(g, b, c)
    ensures Reaches(g, a, c)
  {
    hide Needs;
    var p :| Leads(g, p, b, c);
    PathAppend(g, [a], p);
    assert Leads(g, [a] + p, a, c);
  }

  // ---- the invariant ----

  ghost predicate Distinct(ids: seq<Id>) { forall i, j :: 0 <= i < j < |ids| ==> ids[i] != ids[j] }

  /** Every module is finished after all those it requires that were not built before. */
  ghost predicate Topological(g: Graph, todo: set<Id>, ids: seq<Id>) {
    forall i :: 0 <= i < |ids| ==>
      ids[i] in todo && !Inherited(ids[i]) && forall d :: d in Needs(g, ids[i]) ==> d in ids[..i] || Built(g, todo, d)
  }

  /** The stack is a path of the graph, and the map holds each entry's index. */
  ghost predicate StackInv(g: Graph, stack: seq<Id>, inProgress: map<Id, nat>) {
    && Distinct(stack) && (stack != [] ==> Path(g, stack))
    && (forall i :: 0 <= i < |stack| ==>
          stack[i] in g && !Inherited(stack[i]) && stack[i] in inProgress && inProgress[stack[i]] == i)
    && (forall x :: x in inProgress ==> x in stack)
  }

  /** No factory has failed in this call: the started modules are those on the stack and those finished. */
  ghost predicate LogInv(g: Graph, todo: set<Id>, stack: seq<Id>, s: State) {
    && Distinct(s.started) && Distinct(s.finished) && Topological(g, todo, s.finished)
    && (forall x :: x in s.started <==> x in stack || x in s.finished)
    && (forall x :: x in stack ==> x !in s.finished)
    && (forall x :: x in s.started ==> x in todo)
    && (forall x :: x in s.factories <==> x in todo && x !in s.started)
  }

  ghost predicate Inv(g: Graph, todo: set<Id>, s: State) {
    Settled(g, todo) && StackInv(g, s.stack, s.inProgress) && LogInv(g, todo, s.stack, s)
  }

  /** The next id may be required here: by the module being built, or from outside. */
  ghost predicate MayRequire(g: Graph, s: State, id: Id) { s.stack == [] || id in Needs(g, s.stack[|s.stack| - 1]) }

  lemma EnterInv(g: Graph, todo: set<Id>, s: State, id: Id)
    requires Inv(g, todo, s) && MayRequire(g, s, id) && !Inherited(id) && id !in s.inProgress && id in s.factories
    ensures Inv(g, todo, Enter(s, id))
  {
    hide Needs, Topological, Inherited;
    var t := Enter(s, id);
    assert id !in s.stack by { assert forall i :: 0 <= i < |s.stack| ==> s.stack[i] != id; }
    if s.stack != [] { PathAppend(g, s.stack, [id]); }
  }

  lemma TopologicalMore(g: Graph, todo: set<Id>, ids: seq<Id>, id: Id)
    requires Topological(g, todo, ids) && id in todo && !Inherited(id)
    requires forall d :: d in Needs(g, id) ==> d in ids || Built(g, todo, d)
    ensures Topological(g, todo, ids + [id])
  {
    hide Needs, Inherited, Built;
    var more := ids + [id];
    forall i | 0 <= i < |more|
      ensures more[i] in todo && !Inherited(more[i])
      ensures forall d :: d in Needs(g, more[i]) ==> d in more[..i] || Built(g, todo, d)
    {
      assert more[..i] == ids[..i];
      if i == |ids| { assert ids[..i] == ids; } else { assert more[i] == ids[i]; }
    }
  }

  /** The module can be used: its factory has returned, or it was built before. */
  ghost predicate Ready(g: Graph, todo: set<Id>, s: State, x: Id) { x in s.finished || Built(g, todo, x) }

  lemma LeaveInv(g: Graph, todo: set<Id>, s: State, t: State, id: Id)
    requires Inv(g, todo, Enter(s, id)) && Inv(g, todo, t) && t.stack == s.stack + [id] && id in todo && !Inherited(id)
    requires forall d :: d in Needs(g, id) ==> Ready(g, todo, t, d)
    ensures Inv(g, todo, Leave(t, id, Exports)) && Leave(t, id, Exports).stack == s.stack
  {
    hide Needs, Topological, StackInv, Inherited, Built, Settled;
    PopStack(g, s.stack, id, t.inProgress);
    assert t.stack[..|t.stack| - 1] == s.stack;
    TopologicalMore(g, todo, t.finished, id);
    assert id in t.stack && forall x :: x in t.stack <==> x in s.stack || x == id;
  }

  lemma PopStack(g: Graph, stack: seq<Id>, id: Id, inProgress: map<Id, nat>)
    requires StackInv(g, stack + [id], inProgress)
    ensures StackInv(g, stack, inProgress - {id}) && id !in stack
  {
    hide Needs, Inherited;
    var t := stack + [id];
    assert t[|stack|] == id;
    forall i | 0 <= i < |stack| ensures stack[i] == t[i] != id { }
    if stack != [] {
      forall i | 0 < i < |stack| ensures stack[i] in Needs(g, stack[i - 1]) { assert t[i] in Needs(g, t[i - 1]); }
    }
  }

  // ---- what a call keeps ----

  /** On both outcomes the stack and the map of modules in progress are as before the call. */
  lemma {:induction false} Restores(g: Graph, s: State, id: Id)
    ensures Require(g, s, id).0.stack == s.stack && Require(g, s, id).0.inProgress == s.inProgress
    decreases s.factories, 0, 0
  {
    hide Needs, Inherited;
    if id in g && !Inherited(id) && id !in s.inProgress && id in s.factories {
      RestoresAll(g, Enter(s, id), Needs(g, id));
      assert s.inProgress[id := |s.stack|] - {id} == s.inProgress;
    }
  }

  lemma {:induction false} RestoresAll(g: Graph, s: State, ids: seq<Id>)
    ensures RequireAll(g, s, ids).0.stack == s.stack && RequireAll(g, s, ids).0.inProgress == s.inProgress
    decreases s.factories, 1, |ids|
  {
    hide Require;
    if ids != [] {
      Restores(g, s, ids[0]);
      var (s1, out) := Require(g, s, ids[0]);
      if out.Exports? { RestoresAll(g, s1, ids[1..]); }
    }
  }

  /** The reported path is a cycle of the graph. */
  ghost predicate RealCycle(g: Graph, p: seq<Id>) { Path(g, p) && |p| >= 2 && p[0] == p[|p| - 1] }

  /** An error names something reachable that is missing, a reachable cycle, or an inherited name. */
  ghost predicate Justified(g: Graph, id: Id, out: Outcome) {
    match out
    case Exports => true
    case NotFound(x) => x !in g && Reaches(g, id, x)
    case Cycle(p) => p != [] && Reaches(g, id, p[|p| - 1]) && (RealCycle(g, p) || Inherited(p[|p| - 1]))
  }

  /** What a successful call adds: modules that id reaches, id among those that can be used. */
  ghost predicate Grown(g: Graph, todo: set<Id>, s: State, t: State, ids: seq<Id>) {
    && Inv(g, todo, t) && t.stack == s.stack
    && (forall x :: x in s.finished ==> x in t.finished) && (forall x :: x in ids ==> Ready(g, todo, t, x))
    && (forall x :: x in t.started ==> x in s.started || exists i :: 0 <= i < |ids| && Reaches(g, ids[i], x))
  }

  /** The path that a cycle error names is a cycle of the graph exactly if the id is not an inherited name. */
  lemma CycleExactly(g: Graph, todo: set<Id>, s: State, id: Id)
    requires Inv(g, todo, s) && MayRequire(g, s, id) && (id in s.inProgress || Inherited(id))
    ensures Reported(s, id)[|Reported(s, id)| - 1] == id
    ensures RealCycle(g, Reported(s, id)) <==> !Inherited(id)
  {
    hide Needs, LogInv, Settled, Inherited;
    if id in s.inProgress {
      assert id in s.stack;
      var k := s.inProgress[id];
      var p := s.stack[k..];
      forall i | 0 < i < |p| ensures p[i] in Needs(g, p[i - 1]) { assert s.stack[k + i] in Needs(g, s.stack[k + i - 1]); }
      PathAppend(g, p, [id]);
      assert !Inherited(s.stack[k]);
    } else {
      assert s.stack != [] ==> s.stack[0] != id;
    }
  }

  lemma {:induction false} RequireGrows(g: Graph, todo: set<Id>, s: State, id: Id)
    requires Inv(g, todo, s) && MayRequire(g, s, id)
    ensures var (t, out) := Require(g, s, id); Justified(g, id, out) && (out.Exports? ==> Grown(g, todo, s, t, [id]))
    decreases s.factories, 0, 0
  {
    hide Needs, Inv, Path, Reaches, Inherited, RealCycle;
    ReachSelf(g, id);
    if id !in g && !Inherited(id) {
    } else if id in s.inProgress || Inherited(id) {
      CycleExactly(g, todo, s, id);
    } else if id in s.factories {
      var s1 := Enter(s, id);
      EnterInv(g, todo, s, id);
      RequireAllGrows(g, todo, s1, Needs(g, id));
      var (t, out) := RequireAll(g, s1, Needs(g, id));
      ChildJustified(g, id, out);
      if out.Exports? {
        FactoryTodo(g, todo, s, id);
        LeaveInv(g, todo, s, t, id);
        LeaveGrown(g, todo, s, t, id);
      }
    } else {
      AlreadyBuilt(g, todo, s, id);
    }
  }

  lemma FactoryTodo(g: Graph, todo: set<Id>, s: State, id: Id)
    requires Inv(g, todo, s) && id in s.factories
    ensures id in todo
  {
  }

  lemma AlreadyBuilt(g: Graph, todo: set<Id>, s: State, id: Id)
    requires Inv(g, todo, s) && id in g && !Inherited(id) && id !in s.inProgress && id !in s.factories
    ensures Grown(g, todo, s, s, [id])
  {
    hide Needs, Topological, Reaches, Inherited;
    assert forall i :: 0 <= i < |s.stack| ==> s.stack[i] != id;
  }

  /** An error of one of its requires is one of the module's. */
  lemma ChildJustified(g: Graph, id: Id, out: Outcome)
    requires !out.Exports? ==> exists i :: 0 <= i < |Needs(g, id)| && Justified(g, Needs(g, id)[i], out)
    ensures Justified(g, id, out)
  {
    hide Needs, Reaches, Path, Inherited;
    if !out.Exports? {
      var i :| 0 <= i < |Needs(g, id)| && Justified(g, Needs(g, id)[i], out);
      var d := Needs(g, id)[i];
      if out.NotFound? { ReachStep(g, id, d, out.id); } else { ReachStep(g, id, d, out.path[|out.path| - 1]); }
    }
  }

  lemma LeaveGrown(g: Graph, todo: set<Id>, s: State, t: State, id: Id)
    requires Grown(g, todo, Enter(s, id), t, Needs(g, id))
    requires Inv(g, todo, Leave(t, id, Exports)) && Leave(t, id, Exports).stack == s.stack && Reaches(g, id, id)
    ensures Grown(g, todo, s, Leave(t, id, Exports), [id])
  {
    hide Needs, Inv, Reaches, Built;
    var u := Leave(t, id, Exports);
    assert id in u.finished by { assert u.finished[|t.finished|] == id; }
    forall x | x in u.started && x !in s.started ensures Reaches(g, [id][0], x) {
      if x in Enter(s, id).started {
        assert x == id;
      } else {
        var i :| 0 <= i < |Needs(g, id)| && Reaches(g, Needs(g, id)[i], x);
        ReachStep(g, id, Needs(g, id)[i], x);
      }
    }
  }

  lemma {:induction false} RequireAllGrows(g: Graph, todo: set<Id>, s: State, ids: seq<Id>)
    requires Inv(g, todo, s) && forall d :: d in ids ==> MayRequire(g, s, d)
    ensures var (t, out) := RequireAll(g, s, ids);
      && (!out.Exports? ==> exists i :: 0 <= i < |ids| && Justified(g, ids[i], out))
      && (out.Exports? ==> Grown(g, todo, s, t, ids))
    decreases s.factories, 1, |ids|
  {
    hide Needs, Inv, Reaches, Require, Justified, Built;
    if ids != [] {
      RequireGrows(g, todo, s, ids[0]);
      var (s1, out) := Require(g, s, ids[0]);
      if out.Exports? {
        forall d | d in ids[1..] ensures MayRequire(g, s1, d) { assert MayRequire(g, s, d); }
        RequireAllGrows(g, todo, s1, ids[1..]);
        var (t, last) := RequireAll(g, s1, ids[1..]);
        if last.Exports? {
          GrownTwice(g, todo, s, s1, t, ids);
        } else {
          var i :| 0 <= i < |ids[1..]| && Justified(g, ids[1..][i], last);
          assert Justified(g, ids[i + 1], last);
        }
      } else {
        assert Justified(g, ids[0], out);
      }
    }
  }

  lemma GrownTwice(g: Graph, todo: set<Id>, s: State, s1: State, t: State, ids: seq<Id>)
    requires ids != [] && Grown(g, todo, s, s1, [ids[0]]) && Grown(g, todo, s1, t, ids[1..])
    ensures Grown(g, todo, s, t, ids)
  {
    hide Inv, Reaches, Built;
    forall x | x in t.started && x !in s.started ensures exists i :: 0 <= i < |ids| && Reaches(g, ids[i], x) {
      if x in s1.started {
        assert Reaches(g, ids[0], x);
      } else {
        var i :| 0 <= i < |ids[1..]| && Reaches(g, ids[1..][i], x);
        assert Reaches(g, ids[i + 1], x);
      }
    }
    forall x | x in ids ensures Ready(g, todo, t, x) { assert x in [ids[0]] || x in ids[1..]; }
  }

  // ---- finished modules are loadable ----

  lemma {:induction false} PathInOrder(g: Graph, todo: set<Id>, ids: seq<Id>, i: nat, p: seq<Id>)
    requires Settled(g, todo) && Topological(g, todo, ids) && i < |ids| && Path(g, p) && p[0] == ids[i]
    ensures var x := p[|p| - 1]; (x in ids[..i + 1] || Built(g, todo, x)) && (|p| > 1 ==> x in ids[..i] || Built(g, todo, x))
    decreases |p|
  {
    hide Needs, Inherited;
    if |p| > 1 {
      assert p[1] in Needs(g, p[0]);
      if p[1] in ids[..i] {
        var j :| 0 <= j < i && ids[j] == p[1];
        forall k | 0 < k < |p[1..]| ensures p[1..][k] in Needs(g, p[1..][k - 1]) { assert p[k + 1] in Needs(g, p[k]); }
        PathInOrder(g, todo, ids, j, p[1..]);
      } else {
        PathEnds(g, todo, p, 1);
      }
    }
  }

  /** No path leads on from a module that was built before. */
  lemma PathEnds(g: Graph, todo: set<Id>, p: seq<Id>, i: nat)
    requires Settled(g, todo) && Path(g, p) && i < |p| && Built(g, todo, p[i])
    ensures i == |p| - 1
  {
    hide Inherited;
    var j := i + 1;
    assert j < |p| ==> p[j] in Needs(g, p[j - 1]);
  }

  lemma BuiltNeeds(g: Graph, todo: set<Id>, x: Id)
    requires Settled(g, todo) && Built(g, todo, x)
    ensures Needs(g, x) == []
  {
  }

  /** Modules that have finished, each after its own, are loadable, and so are those built before. */
  lemma ReadyLoadable(g: Graph, todo: set<Id>, ids: seq<Id>, id: Id)
    requires Settled(g, todo) && Topological(g, todo, ids) && Distinct(ids) && (id in ids || Built(g, todo, id))
    ensures Loadable(g, id) && forall x :: Reaches(g, id, x) ==> x in ids || Built(g, todo, x)
  {
    hide Needs, Inherited;
    forall x | Reaches(g, id, x) ensures (x in ids || Built(g, todo, x)) && x in g && !Inherited(x) && !OnCycle(g, x) {
      var p :| Leads(g, p, id, x);
      if id in ids {
        var i :| 0 <= i < |ids| && ids[i] == id;
        PathInOrder(g, todo, ids, i, p);
      } else {
        PathEnds(g, todo, p, 0);
      }
      NoCycle(g, todo, ids, x);
    }
  }

  lemma NoCycle(g: Graph, todo: set<Id>, ids: seq<Id>, x: Id)
    requires Settled(g, todo) && Topological(g, todo, ids) && Distinct(ids) && (x in ids || Built(g, todo, x))
    ensures !OnCycle(g, x)
  {
    hide Needs, Inherited;
    if x !in ids {
      BuiltNeeds(g, todo, x);
    } else if OnCycle(g, x) {
      var b :| b in Needs(g, x) && Reaches(g, b, x);
      var q :| Leads(g, q, b, x);
      PathAppend(g, [x], q);
      var j :| 0 <= j < |ids| && ids[j] == x;
      assert forall k :: 0 <= k < j ==> ids[k] != ids[j];
      PathInOrder(g, todo, ids, j, [x] + q);
      assert false;
    }
  }

  lemma CycleFound(g: Graph, p: seq<Id>)
    requires RealCycle(g, p)
    ensures OnCycle(g, p[0])
  {
    hide Needs;
    var q := p[1..];
    forall k | 0 < k < |q| ensures q[k] in Needs(g, q[k - 1]) { assert p[k + 1] in Needs(g, p[k]); }
    assert p[1] in Needs(g, p[0]) && Leads(g, q, p[1], p[0]);
  }

  // ---- from any state between calls ----

  /** No call is going on; earlier ones may have succeeded or failed. */
  predicate Idle(g: Graph, s: State) { s.stack == [] && s.inProgress == map[] && s.factories <= g.Keys }

  /** All modules defined, none built. */
  function Start(g: Graph): State { State(g.Keys, map[], [], [], []) }

  lemma StartIdle(g: Graph)
    ensures Idle(g, Start(g)) && Left(g, Start(g).factories) == g
  {
  }

  /** The state with the logs of another one in front of its own. */
  function Behind(base: State, u: State): State {
    u.(started := base.started + u.started, finished := base.finished + u.finished)
  }

  lemma NeedsLeft(g: Graph, todo: set<Id>, id: Id)
    requires id in todo
    ensures Needs(Left(g, todo), id) == Needs(g, id)
  {
  }

  /** A call sees only what the modules require that are still to be built, and not the logs. */
  lemma {:induction false} RequireLeft(g: Graph, todo: set<Id>, base: State, u: State, id: Id)
    requires u.factories <= todo
    ensures var (t, out) := Require(Left(g, todo), u, id); Require(g, Behind(base, u), id) == (Behind(base, t), out)
    decreases u.factories, 0, 0
  {
    hide Needs, Inherited;
    if id in g && !Inherited(id) && id !in u.inProgress && id in u.factories {
      NeedsLeft(g, todo, id);
      assert base.started + (u.started + [id]) == base.started + u.started + [id];
      assert Enter(Behind(base, u), id) == Behind(base, Enter(u, id));
      RequireAllLeft(g, todo, base, Enter(u, id), Needs(g, id));
      var (t, out) := RequireAll(Left(g, todo), Enter(u, id), Needs(g, id));
      assert base.finished + (t.finished + [id]) == base.finished + t.finished + [id];
    }
  }

  lemma {:induction false} RequireAllLeft(g: Graph, todo: set<Id>, base: State, u: State, ids: seq<Id>)
    requires u.factories <= todo
    ensures var (t, out) := RequireAll(Left(g, todo), u, ids); RequireAll(g, Behind(base, u), ids) == (Behind(base, t), out)
    decreases u.factories, 1, |ids|
  {
    hide Require, Left;
    if ids != [] {
      RequireLeft(g, todo, base, u, ids[0]);
      var (u1, out) := Require(Left(g, todo), u, ids[0]);
      if out.Exports? { RequireAllLeft(g, todo, base, u1, ids[1..]); }
    }
  }

  /** The modules that a call has started or finished. */
  function News(before: seq<Id>, after: seq<Id>): seq<Id> { if |before| <= |after| then after[|before|..] else [] }

  lemma FreshInv(g: Graph, s: State)
    requires Idle(g, s)
    ensures Inv(Left(g, s.factories), s.factories, State(s.factories, map[], [], [], []))
  {
    hide Needs, Inherited;
  }

  /**
   Between calls, whatever the earlier ones did, `require` succeeds exactly if everything
   that is reachable through modules still to be built is defined and no cycle is reachable
   that way.  Then exactly those factories have run that are reachable and were not yet
   built, each once, and each has returned after all those it requires.
   */
  lemma RequireExactly(g: Graph, s: State, id: Id)
    requires Idle(g, s)
    ensures var (t, out) := Require(g, s, id);
      var left, ran, done := Left(g, s.factories), News(s.started, t.started), News(s.finished, t.finished);
      && Idle(g, t) && Justified(left, id, out) && (out.Exports? <==> Loadable(left, id))
      && (out.Exports? ==> t.started == s.started + ran && t.finished == s.finished + done)
      && (out.Exports? ==> Distinct(ran) && Distinct(done) && Topological(left, s.factories, done))
      && (out.Exports? ==> forall x :: (x in ran <==> x in s.factories && Reaches(left, id, x)) && (x in done <==> x in ran))
  {
    hide Needs, Reaches, Path, Require, Inherited, Topological, Distinct, Left;
    var todo, u := s.factories, State(s.factories, map[], [], [], []);
    var left := Left(g, todo);
    FreshInv(g, s);
    assert Behind(s, u) == s;
    RequireLeft(g, todo, s, u, id);
    RequireGrows(left, todo, u, id);
    Restores(g, s, id);
    var (t, out) := Require(left, u, id);
    assert (s.started + t.started)[|s.started|..] == t.started && (s.finished + t.finished)[|s.finished|..] == t.finished;
    match out {
      case Exports =>
        assert id in [id];
        ReadyLoadable(left, todo, t.finished, id);
        forall x ensures (x in t.started <==> x in todo && Reaches(left, id, x)) && (x in t.finished <==> x in t.started) {
          if x in t.started { assert Reaches(left, [id][0], x); }
        }
      case NotFound(x) =>
      case Cycle(p) => if !Inherited(p[|p| - 1]) { CycleFound(left, p); }
    }
  }

  // ---- a factory that fails ----

  /** A module is finished in a call only if it was still to be built. */
  lemma {:induction false} FinishedFrom(g: Graph, s: State, id: Id, x: Id)
    requires x !in s.factories && x !in s.finished
    ensures x !in Require(g, s, id).0.finished
    decreases s.factories, 0, 0
  {
    hide Needs, Inherited;
    if id in g && !Inherited(id) && id !in s.inProgress && id in s.factories {
      FinishedFromAll(g, Enter(s, id), Needs(g, id), x);
    }
  }

  lemma {:induction false} FinishedFromAll(g: Graph, s: State, ids: seq<Id>, x: Id)
    requires x !in s.factories && x !in s.finished
    ensures x !in RequireAll(g, s, ids).0.finished
    decreases s.factories, 1, |ids|
  {
    hide Require;
    if ids != [] {
      FinishedFrom(g, s, ids[0], x);
      var (s1, out) := Require(g, s, ids[0]);
      if out.Exports? { FinishedFromAll(g, s1, ids[1..], x); }
    }
  }

  /**
   A second `require` of an id does what the first one did exactly if no factory failed:
   the id is unknown, or everything it needs can be loaded.  Otherwise it succeeds, runs
   nothing, and hands out the exports of a module whose factory never returned.
   */
  lemma FailureIsForgotten(g: Graph, s: State, id: Id)
    requires Idle(g, s)
    ensures var (t, out) := Require(g, s, id); var (t2, again) := Require(g, t, id);
      var known, loadable := id in g && !Inherited(id), Loadable(Left(g, s.factories), id);
      && (again == out <==> !known || loadable)
      && (known ==> again == Exports && t2 == t)
      && (known && id in s.factories && id !in s.finished ==> (id in t2.finished <==> loadable))
  {
    hide Needs, Loadable, Inherited, Justified, Topological, Reaches;
    RequireExactly(g, s, id);
    var (t, out) := Require(g, s, id);
    if id in g && !Inherited(id) && id in s.factories {
      assert id !in t.factories;
      if out.Exports? {
        assert t.finished[|t.finished| - 1] == id;
      } else if id !in s.finished {
        FinishedFromAll(g, Enter(s, id), Needs(g, id), id);
      }
    }
  }

  /** A module that requires an undefined one: the first call fails, the second one does not. */
  lemma ForgottenExample()
    ensures var g := map["a" := ["b"]];
      var (t, out) := Require(g, Start(g), "a"); out == NotFound("b") && Require(g, t, "a").1 == Exports
  {
    var g: Graph := map["a" := ["b"]];
    var s := Enter(Start(g), "a");
    assert Needs(g, "a") == ["b"];
    assert Require(g, s, "b") == (s, NotFound("b"));
  }

  /** A name that every object inherits is reported as a cycle although nothing requires anything. */
  lemma InheritedExample()
    ensures Require(map[], Start(map[]), "toString").1 == Cycle(["toString"]) && !RealCycle(map[], ["toString"])
  {
  }

  // ---- the loader ----

  /** `factory` is deleted when the module is built. */
  datatype Module = Module(needs: seq<Id>, factory: bool)

  class Loader {
    var modules: map<Id, Module>
    var inProgressModules: map<Id, nat>
    var requireStack: seq<Id>
    /** The factories called, and those that returned. */
    var started: seq<Id>
    var finished: seq<Id>

    function Requires(): Graph
      reads this
    {
      map id | id in modules :: modules[id].needs
    }

    function At(): State
      reads this
    {
      State((set id | id in modules && modules[id].factory), inProgressModules, requireStack, started, finished)
    }

    constructor ()
      ensures Requires() == map[] && At() == Start(map[])
    {
      modules, inProgressModules, requireStack, started, finished := map[], map[], [], [], [];
    }

    /** define; false where it throws. */
    method Define(id: Id, needs: seq<Id>) returns (ok: bool)
      modifies this`modules
      ensures ok == (id !in old(Requires()) && !Inherited(id))
      ensures Requires() == if ok then old(Requires())[id := needs] else old(Requires())
      ensures At().factories == if ok then old(At()).factories + {id} else old(At()).factories
    {
      if id in modules || Inherited(id) { return false; }
      modules := modules[id := Module(needs, true)];
      return true;
    }

    /** require */
    method RequireId(id: Id) returns (out: Outcome)
      modifies this
      ensures Requires() == old(Requires()) && (At(), out) == Require(old(Requires()), old(At()), id)
      decreases At().factories, 1
    {
      ghost var g, s := Requires(), At();
      if id !in modules && !Inherited(id) {
        return NotFound(id);
      } else if id in inProgressModules || Inherited(id) {
        var k := if id in inProgressModules then inProgressModules[id] else 0;
        return Cycle((if k <= |requireStack| then requireStack[k..] else []) + [id]);
      }
      if modules[id].factory {
        inProgressModules := inProgressModules[id := |requireStack|];
        requireStack := requireStack + [id];
        out := Build(id, s);
        inProgressModules := inProgressModules - {id};
        requireStack := if requireStack == [] then [] else requireStack[..|requireStack| - 1];
        if out.Exports? { finished := finished + [id]; }
        return;
      }
      return Exports;
    }

    /** build: the factory is deleted and run. */
    method Build(id: Id, ghost s: State) returns (out: Outcome)
      requires id in modules && modules[id].factory
      requires At() == Enter(s, id).(factories := s.factories, started := s.started) && id in s.factories
      modifies this
      ensures Requires() == old(Requires()) && (At(), out) == RequireAll(old(Requires()), Enter(s, id), Needs(old(Requires()), id))
      decreases s.factories, 0
    {
      hide Needs;
      ghost var g := Requires();
      var needs := modules[id].needs;
      modules := modules[id := Module(needs, false)];
      started := started + [id];
      assert Requires() == g;
      assert At() == Enter(s, id);
      ghost var ids := Needs(g, id);
      NeedsAt(g, id);
      ghost var whole := RequireAll(g, At(), ids);
      assert ids[0..] == ids;
      for i := 0 to |needs|
        invariant Requires() == g && At().factories <= Enter(s, id).factories
        invariant whole == RequireAll(g, At(), ids[i..])
      {
        assert ids[i..][0] == ids[i] && ids[i..][1..] == ids[i + 1..];
        out := RequireId(Resolve(id, needs[i]));
        if !out.Exports? { return; }
      }
      return Exports;
    }
  }

  lemma NeedsAt(g: Graph, id: Id)
    requires id in g
    ensures |Needs(g, id)| == |g[id]| && forall i :: 0 <= i < |g[id]| ==> Needs(g, id)[i] == Resolve(id, g[id][i])
  {
  }
}
