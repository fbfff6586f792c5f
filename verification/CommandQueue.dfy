/**
 The queue of commands from JavaScript to the native side: `exec` pokes the native side,
 which answers by fetching the queue; a timer repeats a poke that is lost.  JavaScript
 runs one event at a time, so a run is a sequence of events.
 */
module CommandQueue {

  type Command = string

  /** What an evaluated function does, in order: commands, nested evaluations, or an exception. */
  datatype Action = Exec(command: Command) | Eval(body: seq<Action>) | Throw

  /**
   `deferred` counts the timers that will call pokeNative and `timers` holds the fail-safe
   timers that are set; `timerId` is failSafeTimerId, 0 for none.  `changed` is what
   proxyChanged returns.  The last two fields record every command pushed and handed over.
   */
  datatype State = State(
    queue: seq<Command>, depth: nat, deferred: nat, timers: set<nat>, timerId: nat, lastTimer: nat,
    body: bool, changed: bool, pokes: nat, pushed: seq<Command>, delivered: seq<Command>)

  /** pokeNative */
  function Poke(s: State): State {
    if !s.body then s.(deferred := s.deferred + 1)
    else
      var id := s.lastTimer + 1;
      s.(pokes := s.pokes + 1, timers := s.timers + {id}, timerId := id, lastTimer := id)
  }

  /** The queueing part of iOSExec. */
  function Push(s: State, c: Command): State {
    var t := s.(queue := s.queue + [c], pushed := s.pushed + [c]);
    if t.depth == 0 && |t.queue| == 1 then Poke(t) else t
  }

  function Deliver(s: State): State { s.(queue := [], delivered := s.delivered + s.queue) }

  /** nativeFetchMessages */
  function Fetch(s: State): State { Deliver(if s.timerId != 0 then s.(timers := s.timers - {s.timerId}, timerId := 0) else s) }

  /** The action's effect, and whether it throws. */
  function Act(s: State, a: Action): (State, bool)
    decreases a, 0
  {
    match a
    case Exec(c) => (Push(s, c), false)
    case Throw => (s, true)
    case Eval(body) =>
      var (t, threw) := ActAll(s.(depth := s.depth + 1), body);
      var u := if threw then t else Fetch(t);
      (u.(depth := if u.depth > 0 then u.depth - 1 else 0), threw)
  }

  function ActAll(s: State, actions: seq<Action>): (State, bool)
    decreases actions, |actions|
  {
    if actions == [] then (s, false)
    else
      var (t, threw) := Act(s, actions[0]);
      if threw then (t, true) else ActAll(t, actions[1..])
  }

  /** The function that the fail-safe timer runs. */
  function FailSafe(s: State, id: nat): State {
    var t := s.(timers := s.timers - {id});
    if t.queue == [] then t else if t.changed then Deliver(t) else Poke(t)
  }

  datatype Event = Call(action: Action) | NativeFetch | DeferredPoke | FailSafeFires(id: nat) | BodyReady | BridgeChange(changed: bool)

  predicate Enabled(s: State, e: Event) {
    match e
    case DeferredPoke => s.deferred > 0
    case FailSafeFires(id) => id in s.timers
    case _ => true
  }

  function Apply(s: State, e: Event): State {
    match e
    case Call(a) => Act(s, a).0
    case NativeFetch => Fetch(s)
    case DeferredPoke => Poke(s.(deferred := if s.deferred > 0 then s.deferred - 1 else 0))
    case FailSafeFires(id) => FailSafe(s, id)
    case BodyReady => s.(body := true)
    case BridgeChange(changed) => s.(changed := changed)
  }

  const INIT := State([], 0, 0, {}, 0, 0, false, false, 0, [], [])

  // ---- what every step keeps ----

  /** Every command pushed has been handed over or is in the queue, in order and once. */
  ghost predicate Conserved(s: State) { s.pushed == s.delivered + s.queue }

  /** A command that waits is waited for. */
  ghost predicate Attended(s: State) { s.queue != [] ==> s.deferred > 0 || s.timers != {} }

  /** Every fail-safe timer ever set came with a poke. */
  ghost predicate Timed(s: State) { s.pokes == s.lastTimer && forall id :: id in s.timers ==> 0 < id <= s.lastTimer }

  ghost predicate Inv(s: State) { s.depth == 0 && Conserved(s) && Attended(s) && Timed(s) }

  lemma DeliverConserves(s: State)
    requires Conserved(s)
    ensures Conserved(Deliver(s)) && Conserved(Fetch(s))
  {
    assert s.delivered + s.queue + [] == s.delivered + s.queue;
  }

  lemma PushConserves(s: State, c: Command)
    requires Conserved(s)
    ensures Conserved(Push(s, c)) && Push(s, c).depth == s.depth
  {
    assert s.delivered + (s.queue + [c]) == s.delivered + s.queue + [c];
  }

  lemma {:induction false} ActConserves(s: State, a: Action)
    requires Conserved(s)
    ensures var (t, threw) := Act(s, a); Conserved(t) && t.depth == s.depth && (a.Eval? && !threw ==> t.queue == [])
    decreases a, 0
  {
    hide Push, Conserved;
    match a
    case Exec(c) => PushConserves(s, c);
    case Throw =>
    case Eval(body) =>
      var s1 := s.(depth := s.depth + 1);
      DepthOnly(s, s.depth + 1);
      ActAllConserves(s1, body);
      var (t, threw) := ActAll(s1, body);
      if !threw { DeliverConserves(t); }
      var u := if threw then t else Fetch(t);
      DepthOnly(u, s.depth);
  }

  lemma DepthOnly(s: State, n: nat)
    ensures Conserved(s.(depth := n)) == Conserved(s)
  {
  }

  lemma {:induction false} ActAllConserves(s: State, actions: seq<Action>)
    requires Conserved(s)
    ensures var t := ActAll(s, actions).0; Conserved(t) && t.depth == s.depth
    decreases actions, |actions|
  {
    hide Act, Conserved;
    if actions != [] {
      ActConserves(s, actions[0]);
      var (t, threw) := Act(s, actions[0]);
      if !threw { ActAllConserves(t, actions[1..]); }
    }
  }

  // ---- what an evaluated function leaves in the queue ----

  /**
   What a function does to the queue while pokes are held back: whether a nested evaluation
   has fetched it, what has been pushed since, and whether the function throws.
   */
  datatype Summary = Summary(fetched: bool, rest: seq<Command>, threw: bool)

  function Sum(a: Action): Summary
    decreases a, 0
  {
    match a
    case Exec(c) => Summary(false, [c], false)
    case Throw => Summary(false, [], true)
    case Eval(body) => var m := SumAll(body); if m.threw then m else Summary(true, [], false)
  }

  function SumAll(actions: seq<Action>): Summary
    decreases actions, |actions|
  {
    if actions == [] then Summary(false, [], false)
    else
      var m := Sum(actions[0]);
      if m.threw then m
      else
        var n := SumAll(actions[1..]);
        Summary(m.fetched || n.fetched, if n.fetched then n.rest else m.rest + n.rest, n.threw)
  }

  /** The timers that are left when the last one set is cleared. */
  function Spared(s: State): set<nat> { s.timers - {s.timerId} }

  /** The queue and the pokes after actions of this summary. */
  ghost predicate Follows(s: State, m: Summary, t: State) {
    && t.queue == (if m.fetched then [] else s.queue) + m.rest
    && t.deferred == s.deferred && t.timers == (if m.fetched then Spared(s) else s.timers)
    && t.timerId == (if m.fetched then 0 else s.timerId) && t.depth == s.depth
    && t.lastTimer == s.lastTimer && t.pokes == s.pokes && t.body == s.body && t.changed == s.changed
  }

  lemma {:induction false} ActFollows(s: State, a: Action)
    requires 0 !in s.timers && (s.depth > 0 || a.Eval? || a.Throw?)
    ensures Follows(s, Sum(a), Act(s, a).0) && Act(s, a).1 == Sum(a).threw
    decreases a, 0
  {
    match a
    case Exec(c) =>
    case Throw => assert s.queue + [] == s.queue;
    case Eval(body) =>
      hide ActAll, SumAll;
      ActAllFollows(s.(depth := s.depth + 1), body);
  }

  lemma {:induction false} ActAllFollows(s: State, actions: seq<Action>)
    requires 0 !in s.timers && s.depth > 0
    ensures Follows(s, SumAll(actions), ActAll(s, actions).0) && ActAll(s, actions).1 == SumAll(actions).threw
    decreases actions, |actions|
  {
    hide Act, Sum;
    if actions == [] {
      assert s.queue + [] == s.queue;
    } else {
      ActFollows(s, actions[0]);
      var (t, threw) := Act(s, actions[0]);
      if !threw {
        ActAllFollows(t, actions[1..]);
        var m, n := Sum(actions[0]), SumAll(actions[1..]);
        assert (if m.fetched then [] else s.queue) + m.rest + n.rest == (if m.fetched then [] else s.queue) + (m.rest + n.rest);
      }
    }
  }

  /**
   An evaluated function that throws when nothing it pushed is waiting, or when a deferred
   poke or a fail-safe timer outlives what it did.
   */
  predicate Harmless(s: State, e: Event) {
    e.Call? && e.action.Eval? ==>
      var m := SumAll(e.action.body);
      m.threw ==> m.rest == [] || s.deferred > 0 || (if m.fetched then Spared(s) else s.timers) != {}
  }

  /** Every event conserves the commands; it keeps them attended exactly if it is harmless. */
  lemma StepInv(s: State, e: Event)
    requires Inv(s) && Enabled(s, e)
    ensures var t := Apply(s, e); t.depth == 0 && Conserved(t) && Timed(t) && (Attended(t) <==> Harmless(s, e))
  {
    match e
    case Call(a) =>
      ActConserves(s, a);
      if a.Exec? { PushAttends(s, a.command); } else { ActFollows(s, a); }
    case NativeFetch => DeliverConserves(s);
    case FailSafeFires(id) => FailSafeKeeps(s, id);
    case _ =>
  }

  lemma PushAttends(s: State, c: Command)
    requires s.depth == 0 && Attended(s) && Timed(s)
    ensures Attended(Push(s, c)) && Timed(Push(s, c))
  {
    if s.queue == [] && s.body { assert s.lastTimer + 1 in Push(s, c).timers; }
  }

  lemma FailSafeKeeps(s: State, id: nat)
    requires Conserved(s) && Timed(s)
    ensures var t := FailSafe(s, id); Conserved(t) && Attended(t) && t.depth == s.depth && Timed(t)
  {
    DeliverConserves(s.(timers := s.timers - {id}));
    if s.queue != [] && !s.changed && s.body { assert s.lastTimer + 1 in FailSafe(s, id).timers; }
  }

  /**
   The events that poke: a command on an empty queue outside of an evaluation, the timer of
   a deferred poke, and a fail-safe timer that finds a queue and an unchanged bridge.
   */
  predicate Due(s: State, e: Event) {
    match e
    case Call(a) => a.Exec? && s.queue == []
    case DeferredPoke => true
    case FailSafeFires(_) => s.queue != [] && !s.changed
    case _ => false
  }

  /** The timer that an event uses up or clears; a nested fetch clears it even if the function throws. */
  function Cleared(s: State, e: Event): set<nat> {
    match e
    case Call(a) => if Sum(a).fetched then {s.timerId} else {}
    case NativeFetch => {s.timerId}
    case FailSafeFires(id) => {id}
    case _ => {}
  }

  /**
   What pokes: exactly the events that are due, once each, if there is a document body to
   load gap://ready in; that sets a new fail-safe timer.  Without a body the poke is
   deferred.  No other event pokes, defers a poke or sets a timer.
   */
  lemma PokesExactly(s: State, e: Event)
    requires s.depth == 0 && Timed(s) && Enabled(s, e)
    ensures var t, due := Apply(s, e), Due(s, e);
      && t.pokes == s.pokes + (if due && s.body then 1 else 0)
      && t.deferred == s.deferred + (if due && !s.body then 1 else 0) - (if e.DeferredPoke? then 1 else 0)
      && t.timers == s.timers - Cleared(s, e) + (if due && s.body then {t.lastTimer} else {})
      && (due && s.body ==> t.timerId == t.lastTimer && t.lastTimer !in s.timers)
  {
    match e
    case Call(a) => if !a.Exec? { ActFollows(s, a); }
    case _ =>
  }

  /** What the queue is after an event, and that a fetch clears the last timer set. */
  lemma QueueExactly(s: State, e: Event)
    requires s.depth == 0 && Timed(s) && Enabled(s, e)
    ensures Apply(s, e).queue == match e
      case Call(a) => (if Sum(a).fetched then [] else s.queue) + Sum(a).rest
      case NativeFetch => []
      case FailSafeFires(_) => if s.changed then [] else s.queue
      case _ => s.queue
    ensures e.NativeFetch? || (e.Call? && Sum(e.action).fetched) ==> Apply(s, e).timerId == 0
    ensures Apply(s, e).body == (s.body || e.BodyReady?)
    ensures Apply(s, e).changed == if e.BridgeChange? then e.changed else s.changed
  {
    match e
    case Call(a) => if !a.Exec? { ActFollows(s, a); }
    case _ =>
  }

  /** The states of a run. */
  function Run(s: State, events: seq<Event>): State
    decreases |events|
  {
    if events == [] then s else Run(Apply(s, events[0]), events[1..])
  }

  ghost predicate Possible(s: State, events: seq<Event>)
    decreases |events|
  {
    events != [] ==> Enabled(s, events[0]) && Possible(Apply(s, events[0]), events[1..])
  }

  ghost predicate AllHarmless(s: State, events: seq<Event>)
    decreases |events|
  {
    events != [] ==> Harmless(s, events[0]) && AllHarmless(Apply(s, events[0]), events[1..])
  }

  /** In every state of the run. */
  ghost predicate AlwaysAttended(s: State, events: seq<Event>)
    decreases |events|
  {
    Attended(s) && (events != [] ==> AlwaysAttended(Apply(s, events[0]), events[1..]))
  }

  /**
   In every order of events, also with functions that throw, the commands pushed are those
   handed over and then those queued.
   */
  lemma {:induction false} RunConserves(s: State, events: seq<Event>)
    requires s.depth == 0 && Conserved(s)
    ensures Conserved(Run(s, events)) && Run(s, events).depth == 0
    decreases |events|
  {
    hide Conserved, Apply;
    if events != [] {
      ApplyConserves(s, events[0]);
      RunConserves(Apply(s, events[0]), events[1..]);
    }
  }

  lemma ApplyConserves(s: State, e: Event)
    requires s.depth == 0 && Conserved(s)
    ensures Conserved(Apply(s, e)) && Apply(s, e).depth == 0
  {
    match e
    case Call(a) => ActConserves(s, a);
    case NativeFetch => DeliverConserves(s);
    case FailSafeFires(id) => DeliverConserves(s.(timers := s.timers - {id}));
    case _ =>
  }

  /**
   In every order of events a queued command has a poke or a fail-safe timer pending all
   the time, exactly if all events are harmless.
   */
  lemma {:induction false} RunInv(s: State, events: seq<Event>)
    requires Inv(s) && Possible(s, events)
    ensures AlwaysAttended(s, events) <==> AllHarmless(s, events)
    ensures AllHarmless(s, events) ==> Inv(Run(s, events))
    decreases |events|
  {
    hide Conserved, Attended, Apply, Harmless, Enabled;
    if events != [] {
      StepInv(s, events[0]);
      var t := Apply(s, events[0]);
      if Attended(t) {
        RunInv(t, events[1..]);
      } else {
        Unattended(t, events[1..]);
      }
    } else {
      Unattended(s, events);
    }
  }

  lemma Unattended(s: State, events: seq<Event>)
    ensures AlwaysAttended(s, events) ==> Attended(s)
    ensures events == [] ==> AlwaysAttended(s, events) == Attended(s)
  {
  }

  /** How many events of a run poke. */
  function PokesDue(s: State, events: seq<Event>): nat
    decreases |events|
  {
    if events == [] then 0
    else (if Due(s, events[0]) && s.body then 1 else 0) + PokesDue(Apply(s, events[0]), events[1..])
  }

  /** In every order of events, also with functions that throw, each poke that is due is made, and no other. */
  lemma {:induction false} RunPokes(s: State, events: seq<Event>)
    requires s.depth == 0 && Conserved(s) && Timed(s) && Possible(s, events)
    ensures var t := Run(s, events); t.pokes == s.pokes + PokesDue(s, events) && Timed(t)
    decreases |events|
  {
    hide Conserved, Timed, Apply, Due;
    if events != [] {
      ApplyConserves(s, events[0]);
      ApplyTimed(s, events[0]);
      PokesExactly(s, events[0]);
      RunPokes(Apply(s, events[0]), events[1..]);
    }
  }

  lemma ApplyTimed(s: State, e: Event)
    requires s.depth == 0 && Timed(s)
    ensures Timed(Apply(s, e))
  {
    match e
    case Call(a) => if !a.Exec? { ActFollows(s, a); }
    case _ =>
  }

  // ---- a function that throws ----

  function Execs(commands: seq<Command>): (r: seq<Event>)
    ensures |r| == |commands|
  {
    seq(|commands|, i requires 0 <= i < |commands| => Call(Exec(commands[i])))
  }

  /** While a command waits unattended, further commands do not poke either. */
  lemma {:induction false} ExecsDoNotPoke(s: State, commands: seq<Command>)
    requires s.depth == 0 && !Attended(s)
    ensures var t := Run(s, Execs(commands)); !Attended(t) && t.pokes == s.pokes
    decreases |commands|
  {
    if commands != [] {
      assert Execs(commands)[1..] == Execs(commands[1..]);
      ExecsDoNotPoke(Push(s, commands[0]), commands[1..]);
    }
  }

  /**
   A call that is not harmless strands commands: no poke or timer is pending, and however
   many commands follow, none of them pokes.
   */
  lemma ThrowStrands(s: State, e: Event, commands: seq<Command>)
    requires Inv(s) && Enabled(s, e) && !Harmless(s, e)
    ensures var t := Apply(s, e);
      !Attended(t) && !Attended(Run(t, Execs(commands))) && Run(t, Execs(commands)).pokes == t.pokes
  {
    StepInv(s, e);
    ExecsDoNotPoke(Apply(s, e), commands);
  }

  /** At the start, a function that pushes a command and throws is enough. */
  lemma ThrowExample(c: Command)
    ensures Inv(INIT) && !Harmless(INIT, Call(Eval([Exec(c), Throw])))
    ensures Harmless(INIT, Call(Eval([Exec(c), Eval([]), Throw])))
  {
    var body, later := [Exec(c), Throw], [Exec(c), Eval([]), Throw];
    assert body[1..] == [Throw] && later[1..] == [Eval([]), Throw] && later[1..][1..] == [Throw];
    assert SumAll([Throw]) == Summary(false, [], true);
    assert SumAll(body) == Summary(false, [c] + [], true);
    assert Sum(Eval([])) == Summary(true, [], false);
    assert SumAll(later[1..]) == Summary(true, [], true);
  }

  // ---- the variables of the exec module ----

  class IosExec {
    var commandQueue: seq<Command>
    var isInContextOfEvalJs: nat
    var failSafeTimerId: nat
    var hasBody: bool
    var changed: bool
    // The timers of the browser, and the commands that have come and gone.
    var deferred: nat
    var timers: set<nat>
    var lastTimer: nat
    var pokes: nat
    var pushed: seq<Command>
    var delivered: seq<Command>

    function At(): State
      reads this
    {
      State(commandQueue, isInContextOfEvalJs, deferred, timers, failSafeTimerId, lastTimer, hasBody, changed, pokes, pushed, delivered)
    }

    constructor ()
      ensures At() == INIT
    {
      commandQueue, isInContextOfEvalJs, failSafeTimerId, hasBody, changed := [], 0, 0, false, false;
      deferred, timers, lastTimer, pokes, pushed, delivered := 0, {}, 0, 0, [], [];
    }

    /** pokeNative */
    method PokeNative()
      modifies this
      ensures At() == Poke(old(At()))
      ensures old(hasBody) ==>
        && pokes == old(pokes) + 1 && lastTimer == old(lastTimer) + 1
        && failSafeTimerId == lastTimer && timers == old(timers) + {lastTimer} && deferred == old(deferred)
      ensures !old(hasBody) ==> deferred == old(deferred) + 1 && timers == old(timers) && pokes == old(pokes)
    {
      if !hasBody {
        deferred := deferred + 1;
        return;
      }
      pokes := pokes + 1;
      lastTimer := lastTimer + 1;
      timers := timers + {lastTimer};
      failSafeTimerId := lastTimer;
    }

    /** iOSExec */
    method ExecCommand(command: Command)
      modifies this
      ensures At() == Push(old(At()), command)
    {
      commandQueue := commandQueue + [command];
      pushed := pushed + [command];
      if isInContextOfEvalJs == 0 && |commandQueue| == 1 { PokeNative(); }
    }

    /** handleBridgeChange: a changed bridge takes the queue, command by command. */
    method HandleBridgeChange() returns (handled: bool)
      modifies this
      ensures handled == old(changed) && At() == if handled then Deliver(old(At())) else old(At())
    {
      if !changed { return false; }
      ghost var s := At();
      assert s.delivered + [] == s.delivered;
      while commandQueue != []
        invariant At() == s.(queue := commandQueue, delivered := delivered)
        invariant delivered + commandQueue == s.delivered + s.queue
        decreases |commandQueue|
      {
        var command := commandQueue[0];
        assert delivered + commandQueue == delivered + [command] + commandQueue[1..];
        commandQueue := commandQueue[1..];
        delivered := delivered + [command];
      }
      assert delivered + [] == delivered;
      return true;
    }

    /** The body of the fail-safe timer, which has fired. */
    method OnFailSafe(id: nat)
      modifies this
      ensures At() == FailSafe(old(At()), id)
    {
      timers := timers - {id};
      if commandQueue != [] {
        var handled := HandleBridgeChange();
        if !handled { PokeNative(); }
      }
    }

    /** nativeFetchMessages */
    method NativeFetchMessages() returns (messages: seq<Command>)
      modifies this
      ensures At() == Fetch(old(At())) && messages == old(commandQueue)
    {
      if failSafeTimerId != 0 {
        timers := timers - {failSafeTimerId};
        failSafeTimerId := 0;
      }
      messages := commandQueue;
      delivered := delivered + commandQueue;
      commandQueue := [];
    }

    /** nativeEvalAndFetch: the function runs, and its commands are returned unless it throws. */
    method NativeEvalAndFetch(func: seq<Action>) returns (threw: bool)
      modifies this
      ensures (At(), threw) == Act(old(At()), Eval(func))
      decreases func, |func| + 1
    {
      isInContextOfEvalJs := isInContextOfEvalJs + 1;
      threw := Evaluate(func);
      if !threw { var _ := NativeFetchMessages(); }
      isInContextOfEvalJs := if isInContextOfEvalJs > 0 then isInContextOfEvalJs - 1 else 0;
    }

    method Evaluate(func: seq<Action>) returns (threw: bool)
      modifies this
      ensures (At(), threw) == ActAll(old(At()), func)
      decreases func, |func|
    {
      if func == [] { return false; }
      match func[0] {
        case Exec(c) => ExecCommand(c);
        case Throw => return true;
        case Eval(body) =>
          threw := NativeEvalAndFetch(body);
          if threw { return; }
      }
      threw := Evaluate(func[1..]);
    }
  }
}
