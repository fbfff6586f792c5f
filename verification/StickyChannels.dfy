/**
 Event channels of cordova.js: handlers by guid, sticky channels that stay fired, and
 `join`, which runs a callback when all of some sticky channels have fired.
 */
module StickyChannels {

  type Guid = nat

  /** A handler of user code, or the counting handler that the k-th join subscribes. */
  datatype Handler = Plain(id: nat) | JoinF(k: nat)

  /** `state`: 0 not sticky, 1 sticky and not fired, 2 fired. */
  datatype Channel = Channel(state: int, handlers: map<Guid, Handler>, numHandlers: nat)

  /**
   `guids` are the observer_guids given so far.  For each join `left` is its counter and
   `runs` says how often its callback has run.
   */
  datatype State = State(channels: seq<Channel>, guids: map<Handler, Guid>, nextGuid: Guid, left: seq<int>, runs: seq<nat>)

  // ---- calling handlers ----

  function RunHandler(s: State, h: Handler): (r: State)
    ensures r.channels == s.channels && r.guids == s.guids && r.nextGuid == s.nextGuid
    ensures |r.left| == |s.left| && |r.runs| == |s.runs|
  {
    match h
    case Plain(_) => s
    case JoinF(k) =>
      if k >= |s.left| || k >= |s.runs| then s
      else
        var i := s.left[k] - 1;
        State(s.channels, s.guids, s.nextGuid, s.left[k := i], if i == 0 then s.runs[k := s.runs[k] + 1] else s.runs)
  }

  function RunAll(s: State, hs: seq<Handler>): (r: State)
    ensures r.channels == s.channels && r.guids == s.guids && r.nextGuid == s.nextGuid
    ensures |r.left| == |s.left| && |r.runs| == |s.runs|
    decreases |hs|
  {
    if hs == [] then s else RunAll(RunHandler(s, hs[0]), hs[1..])
  }

  /** The handlers by ascending guid below n, as for-in visits integer keys. */
  function InOrder(handlers: map<Guid, Handler>, n: nat): seq<Handler> {
    if n == 0 then []
    else InOrder(handlers, n - 1) + if n - 1 in handlers then [handlers[n - 1]] else []
  }

  // ---- the operations ----

  /** A handler is given its guid when it is first subscribed anywhere. */
  function WithGuid(s: State, h: Handler): State {
    if h in s.guids then s else s.(guids := s.guids[h := s.nextGuid], nextGuid := s.nextGuid + 1)
  }

  function AddHandler(s: State, c: nat, h: Handler): State
    requires c < |s.channels| && h in s.guids
  {
    var ch, guid := s.channels[c], s.guids[h];
    if guid in ch.handlers then s
    else s.(channels := s.channels[c := Channel(ch.state, ch.handlers[guid := h], ch.numHandlers + 1)])
  }

  /** Channel.prototype.subscribe: a fired channel calls the handler at once. */
  function Subscribe(s: State, c: nat, h: Handler): State
    requires c < |s.channels|
  {
    if s.channels[c].state == 2 then RunHandler(s, h) else AddHandler(WithGuid(s, h), c, h)
  }

  /** Channel.prototype.unsubscribe */
  function Unsubscribe(s: State, c: nat, h: Handler): State
    requires c < |s.channels|
  {
    var ch := s.channels[c];
    if h in s.guids && s.guids[h] in ch.handlers then
      var n := if ch.numHandlers > 0 then ch.numHandlers - 1 else 0;
      s.(channels := s.channels[c := Channel(ch.state, ch.handlers - {s.guids[h]}, n)])
    else s
  }

  /** Channel.prototype.fire: every handler once; a sticky channel then forgets them. */
  function Fire(s: State, c: nat): State
    requires c < |s.channels|
  {
    var ch := s.channels[c];
    var state := if ch.state == 1 then 2 else ch.state;
    var t := s.(channels := s.channels[c := ch.(state := state)]);
    if ch.numHandlers == 0 then t
    else
      var u := RunAll(t, InOrder(ch.handlers, s.nextGuid));
      if state == 2 then u.(channels := u.channels[c := Channel(2, map[], 0)]) else u
  }

  /** The loop of join over the channels from index j on; it throws at one that is not sticky. */
  function JoinFrom(s: State, k: nat, list: seq<nat>, j: nat): (State, bool)
    requires j <= |list| && forall c :: c in list ==> c < |s.channels|
    decreases |list| - j
  {
    if j == |list| then (s, true)
    else if assert list[j] in list; s.channels[list[j]].state == 0 then (s, false)
    else
      SubscribeChannels(s, list[j], JoinF(k));
      JoinFrom(Subscribe(s, list[j], JoinF(k)), k, list, j + 1)
  }

  lemma SubscribeChannels(s: State, c: nat, h: Handler)
    requires c < |s.channels|
    ensures |Subscribe(s, c, h).channels| == |s.channels|
  {
  }

  /** join: a new counter, a subscription to each channel, and the callback at once if there is none. */
  function Join(s: State, list: seq<nat>): (State, bool)
    requires forall c :: c in list ==> c < |s.channels|
  {
    var k := |s.left|;
    var t := s.(left := s.left + [|list|], runs := s.runs + [if list == [] then 1 else 0]);
    JoinFrom(t, k, list, 0)
  }

  datatype Event = SubscribePlain(c: nat, id: nat) | UnsubscribePlain(c: nat, id: nat) | FireChannel(c: nat) | JoinChannels(list: seq<nat>)

  predicate Enabled(s: State, e: Event) {
    match e
    case SubscribePlain(c, _) => c < |s.channels|
    case UnsubscribePlain(c, _) => c < |s.channels|
    case FireChannel(c) => c < |s.channels|
    case JoinChannels(list) => forall c :: c in list ==> c < |s.channels|
  }

  function Apply(s: State, e: Event): State
    requires Enabled(s, e)
  {
    match e
    case SubscribePlain(c, id) => Subscribe(s, c, Plain(id))
    case UnsubscribePlain(c, id) => Unsubscribe(s, c, Plain(id))
    case FireChannel(c) => Fire(s, c)
    case JoinChannels(list) => Join(s, list).0
  }

  // ---- what every operation keeps ----

  /** numHandlers is the number of handlers, each under its own guid; a fired channel has none. */
  ghost predicate ChannelOk(s: State, ch: Channel) {
    && 0 <= ch.state <= 2 && ch.numHandlers == |ch.handlers| && (ch.state == 2 ==> ch.handlers == map[])
    && forall g :: g in ch.handlers ==> g < s.nextGuid && ch.handlers[g] in s.guids && s.guids[ch.handlers[g]] == g
  }

  ghost predicate Inv(s: State) {
    && |s.left| == |s.runs|
    && (forall c :: 0 <= c < |s.channels| ==> ChannelOk(s, s.channels[c]))
    && (forall h :: h in s.guids ==> s.guids[h] < s.nextGuid && (h.JoinF? ==> h.k < |s.left|))
    && (forall h, i :: h in s.guids && i in s.guids && s.guids[h] == s.guids[i] ==> h == i)
  }

  /** The handler is subscribed to the channel. */
  predicate Has(s: State, c: nat, h: Handler)
    requires c < |s.channels|
  {
    h in s.guids && s.guids[h] in s.channels[c].handlers
  }

  lemma SubscribeInv(s: State, c: nat, h: Handler)
    requires Inv(s) && c < |s.channels| && (h.JoinF? ==> h.k < |s.left|)
    ensures Inv(Subscribe(s, c, h))
  {
    if s.channels[c].state == 2 {
      RunHandlerInv(s, h);
    } else {
      GuidInv(s, h);
      var t := WithGuid(s, h);
      AddInv(t, c, h);
    }
  }

  lemma RunHandlerInv(s: State, h: Handler)
    requires Inv(s)
    ensures Inv(RunHandler(s, h))
  {
    var t := RunHandler(s, h);
    forall d | 0 <= d < |t.channels| ensures ChannelOk(t, t.channels[d]) { assert ChannelOk(s, s.channels[d]); }
  }

  lemma GuidInv(s: State, h: Handler)
    requires Inv(s) && (h.JoinF? ==> h.k < |s.left|)
    ensures Inv(WithGuid(s, h)) && h in WithGuid(s, h).guids
  {
    var t := WithGuid(s, h);
    forall d | 0 <= d < |t.channels| ensures ChannelOk(t, t.channels[d]) { assert ChannelOk(s, s.channels[d]); }
  }

  lemma AddInv(s: State, c: nat, h: Handler)
    requires Inv(s) && c < |s.channels| && s.channels[c].state != 2 && h in s.guids
    ensures Inv(AddHandler(s, c, h))
  {
    var t := AddHandler(s, c, h);
    forall d | 0 <= d < |t.channels| ensures ChannelOk(t, t.channels[d]) { assert ChannelOk(s, s.channels[d]); }
  }

  lemma UnsubscribeInv(s: State, c: nat, h: Handler)
    requires Inv(s) && c < |s.channels|
    ensures Inv(Unsubscribe(s, c, h))
  {
    var t, ch := Unsubscribe(s, c, h), s.channels[c];
    assert ChannelOk(s, ch);
    if Has(s, c, h) {
      var g := s.guids[h];
      assert (ch.handlers - {g}).Keys == ch.handlers.Keys - {g};
      forall d | 0 <= d < |t.channels| ensures ChannelOk(t, t.channels[d]) { assert ChannelOk(s, s.channels[d]); }
    }
  }

  lemma FireInv(s: State, c: nat)
    requires Inv(s) && c < |s.channels|
    ensures Inv(Fire(s, c))
  {
    var t, ch := Fire(s, c), s.channels[c];
    assert ChannelOk(s, ch);
    assert ch.numHandlers == 0 ==> ch.handlers == map[];
    forall d | 0 <= d < |t.channels| ensures ChannelOk(t, t.channels[d]) { assert ChannelOk(s, s.channels[d]); }
  }

  lemma {:induction false} JoinFromInv(s: State, k: nat, list: seq<nat>, j: nat)
    requires Inv(s) && k < |s.left| && j <= |list| && forall c :: c in list ==> c < |s.channels|
    ensures Inv(JoinFrom(s, k, list, j).0)
    decreases |list| - j
  {
    hide Inv;
    assert j < |list| ==> list[j] in list;
    if j < |list| && s.channels[list[j]].state != 0 {
      SubscribeInv(s, list[j], JoinF(k));
      SubscribeChannels(s, list[j], JoinF(k));
      SubscribeLeft(s, list[j], JoinF(k));
      JoinFromInv(Subscribe(s, list[j], JoinF(k)), k, list, j + 1);
    }
  }

  lemma SubscribeLeft(s: State, c: nat, h: Handler)
    requires c < |s.channels|
    ensures |Subscribe(s, c, h).left| == |s.left| && |Subscribe(s, c, h).runs| == |s.runs|
  {
  }

  /** Between calls numHandlers equals the number of handlers on every channel, whatever happens. */
  lemma StepInv(s: State, e: Event)
    requires Inv(s) && Enabled(s, e)
    ensures Inv(Apply(s, e))
  {
    match e
    case SubscribePlain(c, id) => SubscribeInv(s, c, Plain(id));
    case UnsubscribePlain(c, id) => UnsubscribeInv(s, c, Plain(id));
    case FireChannel(c) => FireInv(s, c);
    case JoinChannels(list) =>
      var t := s.(left := s.left + [|list|], runs := s.runs + [if list == [] then 1 else 0]);
      forall d | 0 <= d < |t.channels| ensures ChannelOk(t, t.channels[d]) { assert ChannelOk(s, s.channels[d]); }
      JoinFromInv(t, |s.left|, list, 0);
  }

  // ---- join ----

  /** The channels of a join that have not fired. */
  function Unfired(s: State, cs: set<nat>): set<nat> { set c | c in cs && c < |s.channels| && s.channels[c].state == 1 }

  /**
   The k-th join waits for the channels cs: its handler is on exactly those that have not
   fired, its counter is their number plus `extra`, and its callback has run once if the
   counter is zero and not at all otherwise.
   */
  ghost predicate Joined(s: State, k: nat, cs: set<nat>, extra: nat) {
    && k < |s.left| == |s.runs|
    && (forall c :: c in cs ==> c < |s.channels| && s.channels[c].state != 0)
    && (forall c: nat :: c < |s.channels| ==> (Has(s, c, JoinF(k)) <==> c in Unfired(s, cs)))
    && s.left[k] == |Unfired(s, cs)| + extra
    && s.runs[k] == if s.left[k] == 0 then 1 else 0
  }

  function Count(hs: seq<Handler>, h: Handler): nat {
    if hs == [] then 0 else (if hs[0] == h then 1 else 0) + Count(hs[1..], h)
  }

  lemma {:induction false} CountAppend(a: seq<Handler>, b: seq<Handler>, h: Handler)
    ensures Count(a + b, h) == Count(a, h) + Count(b, h)
  {
    if a == [] {
      assert a + b == b;
    } else {
      assert (a + b)[1..] == a[1..] + b;
      CountAppend(a[1..], b, h);
    }
  }

  /** A subscribed handler is called exactly once. */
  lemma InOrderCount(s: State, c: nat, n: nat, h: Handler)
    requires Inv(s) && c < |s.channels|
    ensures Count(InOrder(s.channels[c].handlers, n), h) == if Has(s, c, h) && s.guids[h] < n then 1 else 0
  {
    hide InOrder;
    assert ChannelOk(s, s.channels[c]);
    OneInOrder(s.channels[c].handlers, n, h, if h in s.guids then s.guids[h] else 0);
  }

  lemma GuidsMatch(s: State, c: nat)
    requires Inv(s) && c < |s.channels|
    ensures var hs := s.channels[c].handlers; forall g :: g in hs ==> hs[g] in s.guids && s.guids[hs[g]] == g
  {
    assert ChannelOk(s, s.channels[c]);
  }

  /** The guids of the handlers increase and are below n. */
  ghost predicate Ascending(s: State, hs: seq<Handler>, n: nat) {
    && (forall i :: 0 <= i < |hs| ==> hs[i] in s.guids && s.guids[hs[i]] < n)
    && (forall i, j :: 0 <= i < j < |hs| ==> s.guids[hs[i]] < s.guids[hs[j]])
  }

  /** The handlers are called by ascending guid. */
  lemma {:induction false} InOrderAscends(s: State, c: nat, n: nat)
    requires Inv(s) && c < |s.channels|
    ensures Ascending(s, InOrder(s.channels[c].handlers, n), n)
    decreases n
  {
    hide Inv;
    var handlers := s.channels[c].handlers;
    GuidsMatch(s, c);
    if n > 0 {
      InOrderAscends(s, c, n - 1);
      var front := InOrder(handlers, n - 1);
      if n - 1 in handlers { assert InOrder(handlers, n) == front + [handlers[n - 1]]; }
    }
  }

  /** A handler that has no other guid is visited there or not at all. */
  lemma {:induction false} OneInOrder(handlers: map<Guid, Handler>, n: nat, h: Handler, guid: Guid)
    requires forall i :: i in handlers && handlers[i] == h ==> i == guid
    ensures Count(InOrder(handlers, n), h) == if guid in handlers && handlers[guid] == h && guid < n then 1 else 0
    decreases n
  {
    if n > 0 {
      OneInOrder(handlers, n - 1, h, guid);
      var last := if n - 1 in handlers then [handlers[n - 1]] else [];
      CountAppend(InOrder(handlers, n - 1), last, h);
      assert last != [] ==> last[1..] == [];
    }
  }

  lemma {:induction false} RunAllOnce(s: State, hs: seq<Handler>, k: nat)
    requires k < |s.left| == |s.runs| && Count(hs, JoinF(k)) <= 1
    ensures var n, t := Count(hs, JoinF(k)), RunAll(s, hs);
      && t.left[k] == s.left[k] - n && t.runs[k] == s.runs[k] + if n == 1 && s.left[k] == 1 then 1 else 0
    decreases |hs|
  {
    if hs != [] {
      RunAllOnce(RunHandler(s, hs[0]), hs[1..], k);
    }
  }

  /** Who is subscribed where after an operation. */
  lemma FireHas(s: State, c: nat, d: nat, h: Handler)
    requires Inv(s) && c < |s.channels| && d < |s.channels|
    ensures Has(Fire(s, c), d, h) <==> Has(s, d, h) && !(d == c && s.channels[c].state != 0)
  {
    assert ChannelOk(s, s.channels[c]);
  }

  lemma SubscribeHas(s: State, c: nat, h: Handler, d: nat, f: Handler)
    requires Inv(s) && c < |s.channels| && d < |s.channels|
    ensures Has(Subscribe(s, c, h), d, f) <==> Has(s, d, f) || (f == h && d == c && s.channels[c].state != 2)
  {
    assert ChannelOk(s, s.channels[c]) && ChannelOk(s, s.channels[d]);
    if s.channels[c].state != 2 { GuidHas(s, h, d, f); }
  }

  lemma GuidHas(s: State, h: Handler, d: nat, f: Handler)
    requires Inv(s) && d < |s.channels|
    ensures Has(WithGuid(s, h), d, f) <==> Has(s, d, f)
  {
    assert ChannelOk(s, s.channels[d]);
  }

  lemma UnfiredSame(s: State, t: State, cs: set<nat>)
    requires |t.channels| == |s.channels| && forall d :: 0 <= d < |s.channels| ==> t.channels[d].state == s.channels[d].state
    ensures Unfired(t, cs) == Unfired(s, cs)
  {
  }

  lemma FireUnfired(s: State, c: nat, cs: set<nat>)
    requires c < |s.channels|
    ensures Unfired(Fire(s, c), cs) == Unfired(s, cs) - {c} && |Fire(s, c).channels| == |s.channels|
    ensures forall d :: 0 <= d < |s.channels| ==> (Fire(s, c).channels[d].state == 0 <==> s.channels[d].state == 0)
  {
  }

  /** Firing calls the join's handler exactly if it is subscribed. */
  lemma FireCounts(s: State, c: nat, k: nat)
    requires Inv(s) && c < |s.channels| && k < |s.left| == |s.runs|
    ensures var n, t := if Has(s, c, JoinF(k)) then 1 else 0, Fire(s, c);
      && |t.left| == |s.left| == |t.runs| && t.left[k] == s.left[k] - n
      && t.runs[k] == s.runs[k] + if n == 1 && s.left[k] == 1 then 1 else 0
  {
    hide RunAll, InOrder;
    var ch := s.channels[c];
    assert ChannelOk(s, ch);
    var mid := s.(channels := s.channels[c := ch.(state := if ch.state == 1 then 2 else ch.state)]);
    InOrderCount(s, c, s.nextGuid, JoinF(k));
    if ch.numHandlers != 0 { RunAllOnce(mid, InOrder(ch.handlers, s.nextGuid), k); }
  }

  lemma FireJoined(s: State, c: nat, k: nat, cs: set<nat>, extra: nat)
    requires Inv(s) && c < |s.channels| && Joined(s, k, cs, extra)
    ensures Joined(Fire(s, c), k, cs, extra)
  {
    hide Inv, Fire, Unfired, Has;
    var t, f := Fire(s, c), JoinF(k);
    FireCounts(s, c, k);
    FireUnfired(s, c, cs);
    UnfiredBy(s, cs);
    forall d: nat | d < |t.channels| ensures Has(t, d, f) <==> d in Unfired(t, cs) {
      FireHas(s, c, d, f);
      assert Has(s, d, f) <==> d in Unfired(s, cs);
    }
    assert Has(s, c, f) <==> c in Unfired(s, cs);
    Without(Unfired(s, cs), c);
  }

  lemma Without(s: set<nat>, c: nat)
    ensures |s - {c}| == |s| - if c in s then 1 else 0
  {
    if c !in s { assert s - {c} == s; }
  }

  lemma UnfiredBy(s: State, cs: set<nat>)
    ensures forall d :: d in Unfired(s, cs) ==> d in cs && d < |s.channels| && s.channels[d].state == 1
  {
  }

  lemma SubscribeJoined(s: State, c: nat, h: Handler, k: nat, cs: set<nat>, extra: nat)
    requires Inv(s) && c < |s.channels| && Joined(s, k, cs, extra) && h != JoinF(k)
    ensures Joined(Subscribe(s, c, h), k, cs, extra)
  {
    hide Inv, Subscribe, Unfired, Has;
    var t, f := Subscribe(s, c, h), JoinF(k);
    SubscribeStates(s, c, h);
    SubscribeCounts(s, c, h, k);
    UnfiredSame(s, t, cs);
    forall d: nat | d < |t.channels| ensures Has(t, d, f) <==> d in Unfired(t, cs) {
      SubscribeHas(s, c, h, d, f);
      assert Has(s, d, f) <==> d in Unfired(s, cs);
    }
  }

  lemma SubscribeCounts(s: State, c: nat, h: Handler, k: nat)
    requires c < |s.channels| && k < |s.left| == |s.runs|
    ensures var n, t := if h == JoinF(k) && s.channels[c].state == 2 then 1 else 0, Subscribe(s, c, h);
      && |t.left| == |s.left| == |t.runs| && t.left[k] == s.left[k] - n
      && t.runs[k] == s.runs[k] + if n == 1 && s.left[k] == 1 then 1 else 0
  {
  }

  /** Unsubscribing takes this handler from this channel, and nothing else. */
  lemma UnsubscribeHas(s: State, c: nat, h: Handler, d: nat, f: Handler)
    requires Inv(s) && c < |s.channels| && d < |s.channels|
    ensures Has(Unsubscribe(s, c, h), d, f) <==> Has(s, d, f) && !(d == c && f == h)
  {
    assert ChannelOk(s, s.channels[c]);
  }

  lemma UnsubscribeStates(s: State, c: nat, h: Handler)
    requires c < |s.channels|
    ensures var t := Unsubscribe(s, c, h);
      && t.left == s.left && t.runs == s.runs && |t.channels| == |s.channels|
      && forall d :: 0 <= d < |s.channels| ==> t.channels[d].state == s.channels[d].state
  {
  }

  lemma UnsubscribeJoined(s: State, c: nat, h: Handler, k: nat, cs: set<nat>, extra: nat)
    requires Inv(s) && c < |s.channels| && Joined(s, k, cs, extra) && h != JoinF(k)
    ensures Joined(Unsubscribe(s, c, h), k, cs, extra)
  {
    hide Inv, Unsubscribe, Unfired, Has;
    var t, f := Unsubscribe(s, c, h), JoinF(k);
    UnsubscribeStates(s, c, h);
    UnfiredSame(s, t, cs);
    forall d: nat | d < |t.channels| ensures Has(t, d, f) <==> d in Unfired(t, cs) {
      UnsubscribeHas(s, c, h, d, f);
      assert Has(s, d, f) <==> d in Unfired(s, cs);
    }
  }

  lemma {:induction false} JoinFromJoined(s: State, j: nat, list: seq<nat>, i: nat, k: nat, cs: set<nat>, extra: nat)
    requires Inv(s) && j < |s.left| && i <= |list| && (forall c :: c in list ==> c < |s.channels|)
    requires Joined(s, k, cs, extra) && j != k
    ensures Joined(JoinFrom(s, j, list, i).0, k, cs, extra)
    decreases |list| - i
  {
    hide Inv, Joined;
    assert i < |list| ==> list[i] in list;
    if i < |list| && s.channels[list[i]].state != 0 {
      SubscribeInv(s, list[i], JoinF(j));
      SubscribeChannels(s, list[i], JoinF(j));
      SubscribeLeft(s, list[i], JoinF(j));
      SubscribeJoined(s, list[i], JoinF(j), k, cs, extra);
      JoinFromJoined(Subscribe(s, list[i], JoinF(j)), j, list, i + 1, k, cs, extra);
    }
  }

  /** Whatever happens afterwards, other joins included, a join keeps its account. */
  lemma StepJoined(s: State, e: Event, k: nat, cs: set<nat>, extra: nat)
    requires Inv(s) && Enabled(s, e) && Joined(s, k, cs, extra)
    ensures Joined(Apply(s, e), k, cs, extra)
  {
    match e
    case SubscribePlain(c, id) => SubscribeJoined(s, c, Plain(id), k, cs, extra);
    case UnsubscribePlain(c, id) => UnsubscribeJoined(s, c, Plain(id), k, cs, extra);
    case FireChannel(c) => FireJoined(s, c, k, cs, extra);
    case JoinChannels(list) =>
      NewJoin(s, list);
      var t := s.(left := s.left + [|list|], runs := s.runs + [if list == [] then 1 else 0]);
      assert Unfired(t, cs) == Unfired(s, cs);
      assert forall d: nat :: d < |t.channels| ==> Has(t, d, JoinF(k)) == Has(s, d, JoinF(k));
      JoinFromJoined(t, |s.left|, list, 0, k, cs, extra);
  }

  lemma NewJoin(s: State, list: seq<nat>)
    requires Inv(s)
    ensures Inv(s.(left := s.left + [|list|], runs := s.runs + [if list == [] then 1 else 0]))
    ensures JoinF(|s.left|) !in s.guids
  {
    var t := s.(left := s.left + [|list|], runs := s.runs + [if list == [] then 1 else 0]);
    forall d | 0 <= d < |t.channels| ensures ChannelOk(t, t.channels[d]) { assert ChannelOk(s, s.channels[d]); }
  }

  // ---- setting up a join ----

  predicate AllSticky(s: State, list: seq<nat>) { forall c :: c in list ==> c < |s.channels| && s.channels[c].state != 0 }

  function SetOf(list: seq<nat>): set<nat> { set c | c in list }

  /** How often the list repeats a channel that has not fired. */
  function Repeats(s: State, list: seq<nat>): nat
    decreases |list|
  {
    if list == [] then 0
    else
      var c, front := list[|list| - 1], list[..|list| - 1];
      Repeats(s, front) + if c in front && c < |s.channels| && s.channels[c].state == 1 then 1 else 0
  }

  /** The account after the first j subscriptions: the rest of the list is still counted. */
  ghost predicate Joining(s: State, k: nat, list: seq<nat>, j: nat)
    requires j <= |list|
  {
    var cs := SetOf(list[..j]);
    && k < |s.left| == |s.runs|
    && (forall c: nat :: c < |s.channels| ==> (Has(s, c, JoinF(k)) <==> c in Unfired(s, cs)))
    && s.left[k] == |Unfired(s, cs)| + Repeats(s, list[..j]) + (|list| - j)
    && s.runs[k] == if s.left[k] == 0 then 1 else 0
  }

  lemma JoiningStep(s: State, k: nat, list: seq<nat>, j: nat)
    requires Inv(s) && j < |list| && AllSticky(s, list) && Joining(s, k, list, j) && list[j] in list
    ensures var t := Subscribe(s, list[j], JoinF(k)); Joining(t, k, list, j + 1) && AllSticky(t, list)
  {
    hide Inv, Subscribe, Has, Repeats, Unfired;
    var c, f := list[j], JoinF(k);
    var t := Subscribe(s, c, f);
    var before, after := SetOf(list[..j]), SetOf(list[..j + 1]);
    SubscribeStates(s, c, f);
    SubscribeCounts(s, c, f, k);
    RepeatsSame(s, t, list[..j + 1]);
    RepeatsStep(s, list, j);
    UnfiredSame(s, t, after);
    UnfiredStep(s, list, j);
    StickyState(s, c);
    assert Has(s, c, f) <==> c in Unfired(s, before);
    forall d: nat | d < |t.channels| ensures Has(t, d, f) <==> d in Unfired(t, after) {
      SubscribeHas(s, c, f, d, f);
      assert Has(s, d, f) <==> d in Unfired(s, before);
    }
  }

  lemma StickyState(s: State, c: nat)
    requires Inv(s) && c < |s.channels|
    ensures 0 <= s.channels[c].state <= 2
  {
    assert ChannelOk(s, s.channels[c]);
  }

  lemma RepeatsStep(s: State, list: seq<nat>, j: nat)
    requires j < |list| && list[j] < |s.channels|
    ensures var c := list[j];
      Repeats(s, list[..j + 1]) == Repeats(s, list[..j]) + if c in SetOf(list[..j]) && s.channels[c].state == 1 then 1 else 0
  {
    assert list[..j + 1] == list[..j] + [list[j]] && list[..j + 1][..j] == list[..j];
  }

  lemma UnfiredStep(s: State, list: seq<nat>, j: nat)
    requires j < |list| && list[j] < |s.channels|
    ensures var c, before, after := list[j], Unfired(s, SetOf(list[..j])), Unfired(s, SetOf(list[..j + 1]));
      && after == before + (if s.channels[c].state == 1 then {c} else {})
      && (c in before <==> c in SetOf(list[..j]) && s.channels[c].state == 1)
      && |after| == |before| + if c !in before && s.channels[c].state == 1 then 1 else 0
  {
    var c := list[j];
    assert list[..j + 1] == list[..j] + [c];
    assert SetOf(list[..j + 1]) == SetOf(list[..j]) + {c};
    assert Unfired(s, SetOf(list[..j + 1])) == Unfired(s, SetOf(list[..j])) + (if s.channels[c].state == 1 then {c} else {});
  }

  lemma SubscribeStates(s: State, c: nat, h: Handler)
    requires c < |s.channels|
    ensures var t := Subscribe(s, c, h);
      |t.channels| == |s.channels| && forall d :: 0 <= d < |s.channels| ==> t.channels[d].state == s.channels[d].state
  {
  }

  lemma {:induction false} RepeatsSame(s: State, t: State, list: seq<nat>)
    requires |t.channels| == |s.channels| && forall d :: 0 <= d < |s.channels| ==> t.channels[d].state == s.channels[d].state
    ensures Repeats(t, list) == Repeats(s, list)
    decreases |list|
  {
    if list != [] { RepeatsSame(s, t, list[..|list| - 1]); }
  }

  lemma {:induction false} JoiningAll(s: State, k: nat, list: seq<nat>, j: nat)
    requires Inv(s) && j <= |list| && AllSticky(s, list) && Joining(s, k, list, j)
    ensures var (t, ok) := JoinFrom(s, k, list, j);
      ok && Joining(t, k, list, |list|) && AllSticky(t, list) && Repeats(t, list) == Repeats(s, list)
    decreases |list| - j
  {
    hide Inv, Joining, Repeats;
    if j < |list| {
      assert list[j] in list;
      var t := Subscribe(s, list[j], JoinF(k));
      JoiningLength(s, k, list, j);
      SubscribeInv(s, list[j], JoinF(k));
      SubscribeStates(s, list[j], JoinF(k));
      RepeatsSame(s, t, list);
      JoiningStep(s, k, list, j);
      JoiningAll(t, k, list, j + 1);
    }
  }

  lemma JoiningLength(s: State, k: nat, list: seq<nat>, j: nat)
    requires j <= |list| && Joining(s, k, list, j)
    ensures k < |s.left|
  {
  }

  /** A join of sticky channels starts its account, with the repeated channels as the extra. */
  lemma JoinStarts(s: State, list: seq<nat>)
    requires Inv(s) && AllSticky(s, list)
    ensures Join(s, list).1 && Joined(Join(s, list).0, |s.left|, SetOf(list), Repeats(s, list))
  {
    var k := |s.left|;
    var t := s.(left := s.left + [|list|], runs := s.runs + [if list == [] then 1 else 0]);
    NewJoin(s, list);
    assert list[..0] == [] && list[..|list|] == list;
    assert Unfired(t, SetOf(list[..0])) == {};
    RepeatsSame(s, t, list);
    JoiningAll(t, k, list, 0);
  }

  function Run(s: State, events: seq<Event>): State
    requires Possible(s, events)
    decreases |events|
  {
    if events == [] then s else Run(Apply(s, events[0]), events[1..])
  }

  predicate Possible(s: State, events: seq<Event>)
    decreases |events|
  {
    events != [] ==> Enabled(s, events[0]) && Possible(Apply(s, events[0]), events[1..])
  }

  lemma {:induction false} RunJoined(s: State, events: seq<Event>, k: nat, cs: set<nat>, extra: nat)
    requires Inv(s) && Possible(s, events) && Joined(s, k, cs, extra)
    ensures Inv(Run(s, events)) && Joined(Run(s, events), k, cs, extra)
    decreases |events|
  {
    hide Inv, Joined, Apply, Enabled;
    if events != [] {
      StepInv(s, events[0]);
      StepJoined(s, events[0], k, cs, extra);
      RunJoined(Apply(s, events[0]), events[1..], k, cs, extra);
    }
  }

  ghost predicate AllFired(s: State, list: seq<nat>) { forall c :: c in list ==> c < |s.channels| && s.channels[c].state == 2 }

  /**
   After any events that follow a join of sticky channels, its callback has run exactly once
   if all of them have fired and none that had yet to fire was listed twice, and has not run
   otherwise.
   */
  lemma JoinExactly(s: State, list: seq<nat>, events: seq<Event>)
    requires Inv(s) && AllSticky(s, list) && Possible(Join(s, list).0, events)
    ensures var t := Run(Join(s, list).0, events);
      && |s.left| < |t.runs|
      && t.runs[|s.left|] == if AllFired(t, list) && Repeats(s, list) == 0 then 1 else 0
  {
    hide Run, Join;
    JoinStarts(s, list);
    var cs := SetOf(list);
    StepInv(s, JoinChannels(list));
    RunJoined(Join(s, list).0, events, |s.left|, cs, Repeats(s, list));
    var t := Run(Join(s, list).0, events);
    assert forall c :: c in list ==> c in cs;
    assert AllFired(t, list) <==> Unfired(t, cs) == {} by {
      if Unfired(t, cs) == {} {
        forall c | c in list ensures c < |t.channels| && t.channels[c].state == 2 {
          assert c !in Unfired(t, cs);
          assert ChannelOk(t, t.channels[c]);
        }
      }
    }
  }

  /** A join that lists one channel twice: the channel fires, and the callback never runs. */
  lemma JoinTwiceExample()
    ensures var s := State([Channel(1, map[], 0)], map[], 1, [], []);
      var events := [FireChannel(0)];
      && Inv(s) && AllSticky(s, [0, 0]) && Repeats(s, [0, 0]) == 1 && Possible(Join(s, [0, 0]).0, events)
      && var t := Run(Join(s, [0, 0]).0, events); AllFired(t, [0, 0]) && |t.runs| == 1 && t.runs[0] == 0
  {
    hide Join, Run, Inv, Repeats, Fire, AllSticky, Possible;
    var s := State([Channel(1, map[], 0)], map[], 1, [], []);
    TwiceListed(s);
    TwiceJoined(s);
    TwiceFired(Join(s, [0, 0]).0);
    JoinExactly(s, [0, 0], [FireChannel(0)]);
  }

  lemma TwiceListed(s: State)
    requires s == State([Channel(1, map[], 0)], map[], 1, [], [])
    ensures Inv(s) && AllSticky(s, [0, 0]) && Repeats(s, [0, 0]) == 1
  {
    var list: seq<nat> := [0, 0];
    assert list[..1] == [0] && [0][..0] == [];
    assert Repeats(s, [0]) == 0;
  }

  lemma TwiceFired(u: State)
    requires u == State([Channel(1, map[1 := JoinF(0)], 1)], map[JoinF(0) := 1], 2, [2], [0])
    ensures Possible(u, [FireChannel(0)])
    ensures var t := Run(u, [FireChannel(0)]); AllFired(t, [0, 0]) && |t.runs| == 1
  {
    hide RunAll, InOrder;
    var events := [FireChannel(0)];
    assert events[1..] == [] && Possible(Apply(u, events[0]), []);
    assert Run(u, events) == Run(Fire(u, 0), []) == Fire(u, 0);
  }

  lemma TwiceJoined(s: State)
    requires s == State([Channel(1, map[], 0)], map[], 1, [], [])
    ensures forall c :: c in [0, 0] ==> c < |s.channels|
    ensures Join(s, [0, 0]).0 == State([Channel(1, map[1 := JoinF(0)], 1)], map[JoinF(0) := 1], 2, [2], [0])
  {
    var list: seq<nat> := [0, 0];
    var t := State(s.channels, map[], 1, [2], [0]);
    var u := State([Channel(1, map[1 := JoinF(0)], 1)], map[JoinF(0) := 1], 2, [2], [0]);
    assert s.left + [|list|] == [2] && s.runs + [0] == [0];
    assert Subscribe(t, 0, JoinF(0)) == u && Subscribe(u, 0, JoinF(0)) == u;
    assert JoinFrom(u, 0, list, 1) == JoinFrom(u, 0, list, 2) == (u, true);
    assert JoinFrom(t, 0, list, 0) == JoinFrom(u, 0, list, 1);
  }

  // ---- the channels of a page ----

  class Channels {
    var channels: seq<Channel>
    var guids: map<Handler, Guid>
    var nextGuid: Guid
    var left: seq<int>
    var runs: seq<nat>

    function At(): State
      reads this
    {
      State(channels, guids, nextGuid, left, runs)
    }

    /** Sticky and plain channels, none fired. */
    constructor (sticky: seq<bool>)
      ensures Inv(At()) && |channels| == |sticky| && left == []
    {
      channels := seq(|sticky|, i requires 0 <= i < |sticky| => Channel(if sticky[i] then 1 else 0, map[], 0));
      guids, nextGuid, left, runs := map[], 1, [], [];
    }

    /** A call of a handler function. */
    method CallHandler(h: Handler)
      modifies this`left, this`runs
      ensures At() == RunHandler(old(At()), h)
    {
      match h
      case Plain(_) =>
      case JoinF(k) =>
        if k < |left| && k < |runs| {
          left := left[k := left[k] - 1];
          if left[k] == 0 { runs := runs[k := runs[k] + 1]; }
        }
    }

    method SubscribeTo(c: nat, h: Handler)
      requires c < |channels|
      modifies this
      ensures At() == Subscribe(old(At()), c, h)
    {
      if channels[c].state == 2 {
        CallHandler(h);
        return;
      }
      if h !in guids {
        guids := guids[h := nextGuid];
        nextGuid := nextGuid + 1;
      }
      var guid, ch := guids[h], channels[c];
      if guid !in ch.handlers {
        channels := channels[c := Channel(ch.state, ch.handlers[guid := h], ch.numHandlers + 1)];
      }
    }

    method UnsubscribeFrom(c: nat, h: Handler)
      requires c < |channels|
      modifies this`channels
      ensures At() == Unsubscribe(old(At()), c, h)
    {
      if h !in guids { return; }
      var guid, ch := guids[h], channels[c];
      if guid in ch.handlers {
        channels := channels[c := Channel(ch.state, ch.handlers - {guid}, if ch.numHandlers > 0 then ch.numHandlers - 1 else 0)];
      }
    }

    /** The handlers are copied before any of them is called. */
    method FireChannelAt(c: nat)
      requires c < |channels|
      modifies this
      ensures At() == Fire(old(At()), c)
    {
      if channels[c].state == 1 { channels := channels[c := channels[c].(state := 2)]; }
      assert channels == old(channels)[c := old(channels)[c].(state := channels[c].state)];
      if channels[c].numHandlers != 0 {
        var toCall := InOrder(channels[c].handlers, nextGuid);
        ghost var s := At();
        assert toCall[0..] == toCall;
        for i := 0 to |toCall|
          invariant channels == s.channels && guids == s.guids && nextGuid == s.nextGuid
          invariant RunAll(s, toCall) == RunAll(At(), toCall[i..])
        {
          assert toCall[i..][0] == toCall[i] && toCall[i..][1..] == toCall[i + 1..];
          CallHandler(toCall[i]);
        }
        assert toCall[|toCall|..] == [];
        if channels[c].state == 2 { channels := channels[c := Channel(2, map[], 0)]; }
      }
    }

    /** join; false where it throws. */
    method JoinChannels(list: seq<nat>) returns (ok: bool)
      requires forall c :: c in list ==> c < |channels|
      modifies this
      ensures (At(), ok) == Join(old(At()), list)
    {
      var k := |left|;
      left := left + [|list|];
      runs := runs + [if list == [] then 1 else 0];
      ghost var s := At();
      for j := 0 to |list|
        invariant |channels| == |s.channels|
        invariant JoinFrom(s, k, list, 0) == JoinFrom(At(), k, list, j)
      {
        assert list[j] in list;
        if channels[list[j]].state == 0 { return false; }
        SubscribeChannels(At(), list[j], JoinF(k));
        SubscribeTo(list[j], JoinF(k));
      }
      return true;
    }
  }
}
