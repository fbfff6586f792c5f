/**
 The producer (SQL dump) and the writer (deflate and fwrite) of one backup, as a
 step system.

 A step is what a thread does without another thread being able to tell the
 difference: taking `buf_lock`, one pass of the copy loop under the lock, parking
 on `buf_cond`, a signal, one `deflate` call with the `fwrite` of its output.
 Signals that the code sends after unlocking are steps of their own.  Runs in
 which the user cancels are not part of this model.
 */
module BackupProtocol {
  import opened Bytes
  import opened BackupBuffers

  datatype Owner = Free | ByProducer | ByWriter

  /** Where the producer is; `PFailed` and `PDone` are its ends. */
  datatype Producer =
    | PPlace        // before the section placeholder is written
    | PIdle         // between two calls of dump_write_stream
    | PWant         // at pthread_mutex_lock, or woken and re-acquiring
    | PLocked       // in the copy loop, holding the lock
    | PParked       // in pthread_cond_wait
    | PEndWant      // dump_write_end, at pthread_mutex_lock
    | PEndLocked    // dump_write_end, holding the lock
    | PEndSignal(error: bool)
    | PJoin         // in pthread_join
    | PDone
    | PFailed

  datatype Writer =
    | WWant | WLocked | WParked
    | WSignal       // lock released, signal not yet sent
    | WDeflate      // between two deflate calls on the taken slot
    | WErrWant | WErrLocked
    | WDead         // returned through `bail`
    | WExit         // returned after Z_STREAM_END

  /**
   `fed` are the bytes deflate has consumed, `accepted` those the producer has
   copied; both are history.  `taken`, `nextIn` and `availIn` say where the
   stream's input pointer points: into a slot, not into a copy of it.
   */
  datatype State = State(
    shared: Shared, owner: Owner,
    producer: Producer, data: seq<byte>, calls: seq<seq<byte>>, placed: bool,
    writer: Writer, taken: bool, nextIn: nat, availIn: nat, finish: bool, rounds: nat,
    accepted: seq<byte>, fed: seq<byte>, body: seq<byte>, secSize: nat)

  /**
   `TakeSlot(rounds)`: deflate will be called `rounds` times on this slot.
   `Deflate(k, out)`: one call consumes `k` bytes and `out` reaches the file.
   */
  datatype Step =
    | Place | Call | Finish | Lock | Return | Wait | Abort | CopyIn
    | EndLock | EndBody | EndNotify | Joined
    | WriterLock | WriterWait | TakeSlot(n: nat) | Notify
    | Deflate(k: nat, out: seq<byte>) | Fail | FailLock | FailBody
    | WakeProducer | WakeWriter   // pthread_cond_wait returning without a signal

  /** `taken` points at the slot that is not current, once the writer has taken one. */
  function Unread(s: State): (r: seq<byte>) {
    var d := s.shared.At(s.taken).data;
    if s.nextIn + s.availIn <= |d| then d[s.nextIn..s.nextIn + s.availIn] else []
  }

  /** pthread_cond_signal: at most one thread is ever parked, see NeverBothParked. */
  function Signal(s: State): State {
    s.(writer := if s.writer.WParked? then WWant else s.writer,
    producer := if s.producer.PParked? && !s.writer.WParked? then PWant else s.producer)
  }

  predicate Enabled(s: State, a: Step) {
    match a
    case Place => s.producer.PPlace?
    case Call => s.producer.PIdle? && s.calls != []
    case Finish => s.producer.PIdle? && s.calls == []
    case Lock => s.producer.PWant? && s.owner.Free?
    case Return => s.producer.PLocked? && s.data == []
    case Wait => s.producer.PLocked? && s.data != [] && s.shared.inFull && !s.shared.writeError
    case Abort => s.producer.PLocked? && s.data != [] && s.shared.writeError
    case CopyIn =>
      s.producer.PLocked? && s.data != [] && !s.shared.inFull && !s.shared.writeError && s.shared.Valid()
    case EndLock => s.producer.PEndWant? && s.owner.Free?
    case EndBody => s.producer.PEndLocked?
    case EndNotify => s.producer.PEndSignal?
    case Joined => s.producer.PJoin? && (s.writer.WExit? || s.writer.WDead?)
    case WriterLock => s.writer.WWant? && s.owner.Free?
    case WriterWait => s.writer.WLocked? && !s.shared.inAvail && !s.shared.inFinish
    case TakeSlot(n) =>
      s.writer.WLocked? && (s.shared.inAvail || s.shared.inFinish) && n > 0 && s.shared.Valid()
    case Notify => s.writer.WSignal?
    // deflate consumes all of its input by the last of the calls it needs
    case Deflate(k, out) =>
      s.writer.WDeflate? && s.rounds > 0 && k <= s.availIn && |Unread(s)| == s.availIn && (s.rounds == 1 ==> k == s.availIn)
    case Fail => s.writer.WDeflate?
    case FailLock => s.writer.WErrWant? && s.owner.Free?
    case FailBody => s.writer.WErrLocked?
    case WakeProducer => s.producer.PParked?
    case WakeWriter => s.writer.WParked?
  }

  function Apply(s: State, a: Step): State
    requires Enabled(s, a)
  {
    match a
    case Place => s.(producer := PIdle, placed := true)
    case Call => s.(producer := PWant, data := s.calls[0], calls := s.calls[1..])
    case Finish => s.(producer := PEndWant)
    case Lock => s.(producer := PLocked, owner := ByProducer)
    case Return => s.(producer := PIdle, owner := Free)
    case Wait => s.(producer := PParked, owner := Free)
    case Abort => s.(producer := PFailed, owner := Free)
    case CopyIn =>
      var n := Room(s.shared.At(s.shared.second).avail, |s.data|);
      var t := s.(shared := Copied(s.shared, s.data), data := s.data[n..], accepted := s.accepted + s.data[..n]);
      if t.shared.inAvail || t.shared.inFull then Signal(t) else t
    case EndLock => s.(producer := PEndLocked, owner := ByProducer)
    case EndBody =>
      s.(shared := s.shared.(inFinish := true), producer := PEndSignal(s.shared.writeError), owner := Free)
    case EndNotify => Signal(s.(producer := if s.producer.error then PFailed else PJoin))
    case Joined => s.(producer := PDone)
    case WriterLock => s.(writer := WLocked, owner := ByWriter)
    case WriterWait => s.(writer := WParked, owner := Free)
    case TakeSlot(n) =>
      s.(shared := Swapped(s.shared), owner := Free, writer := WSignal, taken := s.shared.second, nextIn := 0,
      availIn := s.shared.At(s.shared.second).avail, finish := s.shared.inFinish, rounds := n)
    case Notify => Signal(s.(writer := WDeflate))
    case Deflate(k, out) =>
      s.(fed := s.fed + Unread(s)[..k], nextIn := s.nextIn + k, availIn := s.availIn - k,
      body := s.body + out, secSize := (s.secSize + |out|) % 0x1_0000_0000, rounds := s.rounds - 1,
      writer := if s.rounds > 1 then WDeflate else if s.finish then WExit else WWant)
    case Fail => s.(writer := WErrWant)
    case FailLock => s.(writer := WErrLocked, owner := ByWriter)
    case FailBody => Signal(s.(shared := s.shared.(writeError := true), writer := WDead, owner := Free))
    case WakeProducer => s.(producer := PWant)
    case WakeWriter => s.(writer := WWant)
  }

  predicate Spurious(a: Step) { a.WakeProducer? || a.WakeWriter? }

  /** mm_backup_init, then mm_backup_run up to the creation of the writer thread. */
  predicate Init(s: State) {
    && s.shared.Valid() && s.shared.Filled() == [] && !s.shared.second
    && !s.shared.inFinish && !s.shared.writeError && s.owner.Free?
    && s.producer.PPlace? && s.data == [] && !s.placed
    && s.writer.WWant? && s.nextIn == 0 && s.availIn == 0 && !s.finish
    && s.accepted == [] && s.fed == [] && s.body == [] && s.secSize == 0
  }

  // ---- what every step keeps ----

  /** The writer is working on a slot it has taken. */
  predicate Busy(w: Writer) { w.WSignal? || w.WDeflate? || w.WErrWant? || w.WErrLocked? || w.WDead? }

  ghost predicate Locks(s: State) {
    && (s.owner.ByProducer? <==> s.producer.PLocked? || s.producer.PEndLocked?)
    && (s.owner.ByWriter? <==> s.writer.WLocked? || s.writer.WErrLocked?)
  }

  /** No byte is lost, repeated or reordered, and no slot is shared. */
  ghost predicate Stream(input: seq<byte>, s: State) {
    && s.shared.Valid()
    && (Busy(s.writer) ==> s.taken != s.shared.second)
    && (!Busy(s.writer) ==> s.availIn == 0)
    && s.nextIn + s.availIn <= INPUT_BUFFER_SIZE
    && s.accepted == s.fed + Unread(s) + s.shared.Filled()
    && input == s.accepted + (s.data + Flatten(s.calls))
  }

  /** The section placeholder comes first, and the size counter follows the body. */
  ghost predicate Placement(s: State) {
    && (s.placed <==> !s.producer.PPlace?)
    && (s.producer.PPlace? ==> !s.shared.inAvail && !s.shared.inFinish && s.accepted == [])
    && (s.body != [] || Busy(s.writer) ==> s.placed)
    && s.secSize == |s.body| % 0x1_0000_0000
  }

  /** After the end of the input nothing is left to copy. */
  ghost predicate Flow(s: State) {
    && (s.producer.PIdle? || s.producer.PPlace? ==> s.data == [])
    && (s.producer.PEndWant? || s.producer.PEndLocked? ==> s.data == [] && s.calls == [] && !s.shared.inFinish)
    && (s.producer.PEndSignal? || s.producer.PJoin? || s.producer.PDone? ==> s.shared.inFinish)
    && (s.shared.inFinish ==>
          && s.data == [] && s.calls == []
          && (s.producer.PEndSignal? || s.producer.PJoin? || s.producer.PDone? || s.producer.PFailed?))
    && (s.producer.PEndSignal? && s.producer.error ==> s.shared.writeError)
    && (s.producer.PFailed? ==> s.shared.writeError)
    && (s.producer.PDone? ==> s.writer.WExit? || s.writer.WDead?)
  }

  ghost predicate Finishing(s: State) {
    && (s.finish ==> s.shared.inFinish && s.shared.At(s.shared.second).avail == 0 && (Busy(s.writer) || s.writer.WExit?))
    && (s.writer.WExit? ==> s.finish)
    && (s.writer.WDead? <==> s.shared.writeError)
    && (s.writer.WSignal? || s.writer.WDeflate? ==> s.rounds > 0)
  }

  /** A parked thread either still has to wait or has a signal coming. */
  ghost predicate Wakeups(s: State) {
    && (s.shared.inFull ==> s.shared.inAvail)
    && (s.producer.PParked? ==> (s.shared.inFull && !s.shared.writeError) || s.writer.WSignal?)
    && (s.producer.PParked? ==> s.data != [])
    && (s.writer.WParked? ==> (!s.shared.inAvail && !s.shared.inFinish) || s.producer.PEndSignal?)
  }

  ghost predicate Inv(input: seq<byte>, s: State) {
    Locks(s) && Stream(input, s) && Placement(s) && Flow(s) && Finishing(s) && Wakeups(s)
  }

  lemma InitInv(s: State)
    requires Init(s)
    ensures Inv(Flatten(s.calls), s)
  {
  }

  lemma CopyInStream(input: seq<byte>, s: State)
    requires Inv(input, s) && Enabled(s, CopyIn)
    ensures Stream(input, Apply(s, CopyIn)) && |Apply(s, CopyIn).data| < |s.data|
  {
    hide Copied;
    var n := Room(s.shared.At(s.shared.second).avail, |s.data|);
    var t := Apply(s, CopyIn);
    assert t.shared == Copied(s.shared, s.data);
    assert Unread(t) == Unread(s);
    Regroup(s.fed + Unread(s), s.shared.Filled(), s.data, n, Flatten(s.calls));
  }

  lemma Regroup(a: seq<byte>, b: seq<byte>, d: seq<byte>, n: nat, c: seq<byte>)
    requires n <= |d|
    ensures a + b + d[..n] == a + (b + d[..n])
    ensures a + b + (d + c) == a + b + d[..n] + (d[n..] + c)
  {
  }

  lemma TakeSlotStream(input: seq<byte>, s: State, n: nat)
    requires Inv(input, s) && Enabled(s, TakeSlot(n))
    ensures Stream(input, Apply(s, TakeSlot(n)))
  {
    var t := Apply(s, TakeSlot(n));
    assert t.shared == Swapped(s.shared);
    assert Unread(s) == [] && Unread(t) == s.shared.Filled() && t.shared.Filled() == [];
  }

  lemma DeflateStream(input: seq<byte>, s: State, k: nat, out: seq<byte>)
    requires Stream(input, s) && Enabled(s, Deflate(k, out))
    ensures Stream(input, Apply(s, Deflate(k, out)))
  {
    var t := Apply(s, Deflate(k, out));
    assert Busy(s.writer);
    assert Unread(t) == Unread(s)[k..];
    Consume(s.fed, Unread(s), k);
  }

  lemma Consume(fed: seq<byte>, unread: seq<byte>, k: nat)
    requires k <= |unread|
    ensures fed + unread == fed + unread[..k] + unread[k..]
  {
  }

  /** The other steps leave the slots and the pointers into them alone. */
  lemma OtherSlots(s: State, a: Step)
    requires Enabled(s, a) && !a.CopyIn? && !a.TakeSlot? && !a.Deflate?
    ensures var t := Apply(s, a);
      && t.shared.(inFinish := s.shared.inFinish, writeError := s.shared.writeError) == s.shared
      && t.shared.writeError == (s.shared.writeError || a.FailBody?)
      && t.taken == s.taken && t.nextIn == s.nextIn && t.availIn == s.availIn
      && t.accepted == s.accepted && t.fed == s.fed
      && Busy(t.writer) == Busy(s.writer)
      && (a.Call? || (t.data == s.data && t.calls == s.calls))
  {
    hide Copied, Swapped;
    match a {
      case Place =>
      case Call =>
      case Finish =>
      case Lock =>
      case Return =>
      case Wait =>
      case Abort =>
      case EndLock =>
      case EndBody =>
      case EndNotify =>
      case Joined =>
      case WriterLock =>
      case WriterWait =>
      case Notify =>
      case Fail =>
      case FailLock =>
      case FailBody =>
      case WakeProducer =>
      case WakeWriter =>
    }
  }

  lemma OtherStream(input: seq<byte>, s: State, a: Step)
    requires Stream(input, s) && Flow(s) && Enabled(s, a) && !a.CopyIn? && !a.TakeSlot? && !a.Deflate?
    ensures Stream(input, Apply(s, a))
  {
    OtherSlots(s, a);
    var t := Apply(s, a);
    assert Unread(t) == Unread(s) && t.shared.Valid() && t.shared.Filled() == s.shared.Filled();
    assert t.data + Flatten(t.calls) == s.data + Flatten(s.calls) by {
      if a.Call? {
        assert s.data + Flatten(s.calls) == Flatten(s.calls);
      }
    }
  }

  lemma StepStream(input: seq<byte>, s: State, a: Step)
    requires Inv(input, s) && Enabled(s, a)
    ensures Stream(input, Apply(s, a))
  {
    match a {
      case CopyIn => CopyInStream(input, s);
      case TakeSlot(n) => TakeSlotStream(input, s, n);
      case Deflate(k, out) => DeflateStream(input, s, k, out);
      case _ => OtherStream(input, s, a);
    }
  }

  lemma StepLocks(s: State, a: Step)
    requires Locks(s) && Enabled(s, a)
    ensures Locks(Apply(s, a))
  {
    hide Copied, Swapped;
  }

  lemma StepPlacement(s: State, a: Step)
    requires s.shared.Valid() && Placement(s) && Locks(s) && Enabled(s, a)
    ensures Placement(Apply(s, a))
  {
    hide Copied, Swapped;
  }

  lemma StepFlow(s: State, a: Step)
    requires s.shared.Valid() && Flow(s) && Finishing(s) && Enabled(s, a)
    ensures Flow(Apply(s, a))
  {
    hide Copied, Swapped;
  }

  lemma StepFinishing(s: State, a: Step)
    requires s.shared.Valid() && Finishing(s) && Flow(s) && Enabled(s, a)
    ensures Finishing(Apply(s, a))
  {
    hide Copied, Swapped;
  }

  lemma StepWakeups(s: State, a: Step)
    requires s.shared.Valid() && Wakeups(s) && Flow(s) && Finishing(s) && Enabled(s, a)
    ensures Wakeups(Apply(s, a))
  {
    hide Copied, Swapped;
  }

  /** Every step of every thread keeps the invariant. */
  lemma StepInv(input: seq<byte>, s: State, a: Step)
    requires Inv(input, s) && Enabled(s, a)
    ensures Inv(input, Apply(s, a))
  {
    StepStream(input, s, a);
    StepLocks(s, a);
    StepPlacement(s, a);
    StepFlow(s, a);
    StepFinishing(s, a);
    StepWakeups(s, a);
  }

  // ---- whole runs ----

  /** `acts[i]` leads from `run[i]` to `run[i + 1]`. */
  ghost predicate IsRun(run: seq<State>, acts: seq<Step>) {
    && |run| == |acts| + 1
    && Init(run[0])
    && forall i :: 0 <= i < |acts| ==> Enabled(run[i], acts[i]) && run[i + 1] == Apply(run[i], acts[i])
  }

  lemma {:induction false} RunInv(run: seq<State>, acts: seq<Step>)
    requires IsRun(run, acts)
    ensures Inv(Flatten(run[0].calls), run[|acts|])
  {
    if acts == [] {
      InitInv(run[0]);
    } else {
      var n := |acts| - 1;
      RunInv(run[..n + 1], acts[..n]);
      StepInv(Flatten(run[0].calls), run[n], acts[n]);
    }
  }

  /**
   In every reachable state of every interleaving: accepted bytes are the bytes
   already deflated, then the rest of the slot the writer reads, then the current
   slot; the writer never reads the slot the producer copies into; the file holds
   no body byte before the section placeholder.
   */
  lemma NoByteIsLost(run: seq<State>, acts: seq<Step>)
    requires IsRun(run, acts)
    ensures var s := run[|acts|];
      && s.shared.Valid()
      && s.accepted == s.fed + Unread(s) + s.shared.Filled()
      && s.accepted <= Flatten(run[0].calls)
      && (s.availIn > 0 ==> s.taken != s.shared.second)
      && (s.body != [] ==> s.placed)
      && s.secSize == |s.body| % 0x1_0000_0000
  {
    RunInv(run, acts);
  }

  /** Once the writer has seen the finish flag, what it holds is all that is left. */
  lemma FinishCoversEverything(run: seq<State>, acts: seq<Step>)
    requires IsRun(run, acts)
    ensures var s := run[|acts|];
      && (s.finish ==> Flatten(run[0].calls) == s.fed + Unread(s))
      && (s.writer.WExit? ==> s.fed == Flatten(run[0].calls))
      && (s.producer.PDone? && !s.shared.writeError ==> s.fed == Flatten(run[0].calls))
  {
    RunInv(run, acts);
    var s := run[|acts|];
    if s.finish {
      assert s.data == [] && s.calls == [] && s.shared.Filled() == [];
      assert s.accepted + (s.data + Flatten(s.calls)) == s.accepted;
    }
  }

  /** The bytes under the writer's input pointer are the same after any step of the producer. */
  lemma ProducerLeavesTakenSlot(run: seq<State>, acts: seq<Step>)
    requires IsRun(run, acts) && |acts| > 0
    requires acts[|acts| - 1].CopyIn? && Busy(run[|acts| - 1].writer)
    ensures run[|acts|].shared.At(run[|acts|].taken) == run[|acts| - 1].shared.At(run[|acts| - 1].taken)
    ensures Unread(run[|acts|]) == Unread(run[|acts| - 1])
  {
    var n := |acts| - 1;
    RunInv(run[..n + 1], acts[..n]);
    var s := run[n];
    assert Apply(s, CopyIn).shared == Copied(s.shared, s.data);
    assert Copied(s.shared, s.data).At(!s.shared.second) == s.shared.At(!s.shared.second);
  }

  // ---- progress ----

  lemma NeverBothParked(run: seq<State>, acts: seq<Step>)
    requires IsRun(run, acts)
    ensures !(run[|acts|].producer.PParked? && run[|acts|].writer.WParked?)
  {
    RunInv(run, acts);
  }

  /** Both threads are at the end of their code. */
  predicate Ended(s: State) {
    (s.producer.PDone? || s.producer.PFailed?) && (s.writer.WExit? || s.writer.WDead?)
  }

  /** A step that is possible now and is not a spurious wakeup. */
  function Available(s: State): (a: Step) {
    match s.producer
    case PPlace => Place
    case PIdle => if s.calls != [] then Call else Finish
    case PLocked =>
      if s.data == [] then Return else if s.shared.writeError then Abort else if s.shared.inFull then Wait else CopyIn
    case PEndLocked => EndBody
    case PEndSignal(_) => EndNotify
    case _ =>
      match s.writer
      case WLocked => if s.shared.inAvail || s.shared.inFinish then TakeSlot(1) else WriterWait
      case WSignal => Notify
      case WDeflate => Deflate(if s.rounds == 1 then s.availIn else 0, [])
      case WErrLocked => FailBody
      case WWant => WriterLock
      case WErrWant => FailLock
      case _ => if s.producer.PWant? then Lock else if s.producer.PEndWant? then EndLock else Joined
  }

  /** No lost wakeup: a state in which nothing but a spurious wakeup is possible is the end. */
  lemma NoDeadlock(run: seq<State>, acts: seq<Step>)
    requires IsRun(run, acts)
    ensures Ended(run[|acts|]) ||
            (Enabled(run[|acts|], Available(run[|acts|])) && !Spurious(Available(run[|acts|])))
  {
    RunInv(run, acts);
  }

  /** Rank of a producer position within one call, and of the calls' order. */
  function Phase(p: Producer): nat {
    match p
    case PPlace => 6
    case PIdle => 5 case PWant => 5 case PLocked => 5 case PParked => 5
    case PEndWant => 4 case PEndLocked => 3 case PEndSignal(_) => 2 case PJoin => 1
    case PDone => 0 case PFailed => 0
  }

  function Spot(p: Producer): nat {
    match p
    case PWant => 3 case PLocked => 2 case PParked => 1
    case _ => 0
  }

  function Stage(w: Writer): nat {
    match w
    case WSignal => 8 case WDeflate => 7 case WWant => 5 case WLocked => 4 case WParked => 3
    case WErrWant => 2 case WErrLocked => 1 case WDead => 0 case WExit => 0
  }

  function Work(s: State): nat { |s.data| + |Flatten(s.calls)| + |s.calls| + Phase(s.producer) }

  /** How often the writer can still take a slot if the producer does nothing. */
  function Takes(s: State): nat {
    if s.finish || Stage(s.writer) <= 2 then 0 else if s.shared.inAvail || s.shared.inFinish then 1 else 0
  }

  ghost predicate Smaller(t: State, s: State) {
    if Work(t) != Work(s) then Work(t) < Work(s)
    else if Takes(t) != Takes(s) then Takes(t) < Takes(s)
    else if Stage(t.writer) != Stage(s.writer) then Stage(t.writer) < Stage(s.writer)
    else if t.rounds != s.rounds then t.rounds < s.rounds
    else Spot(t.producer) < Spot(s.producer)
  }

  predicate Advances(a: Step) {
    || a.Place? || a.Call? || a.Finish? || a.Abort? || a.CopyIn?
    || a.EndLock? || a.EndBody? || a.EndNotify? || a.Joined?
  }

  lemma CallWork(s: State)
    requires Flow(s) && Enabled(s, Call)
    ensures Work(Apply(s, Call)) < Work(s)
  {
    assert |Flatten(s.calls)| == |s.calls[0]| + |Flatten(s.calls[1..])|;
  }

  lemma AdvanceWork(input: seq<byte>, s: State, a: Step)
    requires Inv(input, s) && Enabled(s, a) && Advances(a)
    ensures Work(Apply(s, a)) < Work(s)
  {
    hide Copied, Swapped, Flatten, Stream;
    match a {
      case CopyIn =>
        CopyInStream(input, s);
        assert Phase(Apply(s, a).producer) == Phase(s.producer);
      case Call => CallWork(s);
      case _ =>
    }
  }

  lemma OtherWork(input: seq<byte>, s: State, a: Step)
    requires Inv(input, s) && Enabled(s, a) && !Advances(a) && !Spurious(a)
    ensures Work(Apply(s, a)) == Work(s) && Takes(Apply(s, a)) <= Takes(s)
    ensures a.TakeSlot? ==> Takes(Apply(s, a)) < Takes(s)
  {
    hide Copied, Swapped;
    if a.TakeSlot? {
      assert !s.finish && Takes(s) == 1;
    }
  }

  /** Every step that is not a spurious wakeup brings the run closer to its end. */
  lemma StepProgress(input: seq<byte>, s: State, a: Step)
    requires Inv(input, s) && Enabled(s, a) && !Spurious(a)
    ensures Smaller(Apply(s, a), s)
  {
    if Advances(a) {
      AdvanceWork(input, s, a);
    } else {
      OtherWork(input, s, a);
    }
  }

  ghost predicate IsEndless(run: nat -> State, acts: nat -> Step) {
    Init(run(0)) && forall i: nat :: Enabled(run(i), acts(i)) && run(i + 1) == Apply(run(i), acts(i))
  }

  lemma {:induction false} EndlessInv(run: nat -> State, acts: nat -> Step, n: nat)
    requires IsEndless(run, acts)
    ensures Inv(Flatten(run(0).calls), run(n))
  {
    if n == 0 {
      InitInv(run(0));
    } else {
      EndlessInv(run, acts, n - 1);
      StepInv(Flatten(run(0).calls), run(n - 1), acts(n - 1));
    }
  }

  /**
   A run goes on for ever only by infinitely many wakeups without a signal.  With
   NoDeadlock: every other run ends, with all input deflated or an error reported.
   */
  lemma {:induction false} RunsEnd(run: nat -> State, acts: nat -> Step, n: nat) returns (m: nat)
    requires IsEndless(run, acts)
    ensures m >= n && Spurious(acts(m))
    decreases Work(run(n)), Takes(run(n)), Stage(run(n).writer), run(n).rounds, Spot(run(n).producer)
  {
    if Spurious(acts(n)) {
      m := n;
    } else {
      EndlessInv(run, acts, n);
      StepProgress(Flatten(run(0).calls), run(n), acts(n));
      m := RunsEnd(run, acts, n + 1);
    }
  }

  /** What the deflate calls of a run have put out. */
  function Outputs(acts: seq<Step>): seq<byte>
    decreases |acts|
  {
    if acts == [] then []
    else
      var n := |acts| - 1;
      Outputs(acts[..n]) + if acts[n].Deflate? then acts[n].out else []
  }

  /** All of it is in the file, once and in order. */
  lemma {:induction false} BodyIsOutput(run: seq<State>, acts: seq<Step>)
    requires IsRun(run, acts)
    ensures run[|acts|].body == Outputs(acts)
    decreases |acts|
  {
    hide Copied, Swapped;
    if acts != [] {
      var n := |acts| - 1;
      BodyIsOutput(run[..n + 1], acts[..n]);
      BodyStep(run[n], acts[n]);
    }
  }

  lemma BodyStep(s: State, a: Step)
    requires Enabled(s, a)
    ensures Apply(s, a).body == s.body + if a.Deflate? then a.out else []
  {
    hide Copied, Swapped;
    assert s.body + [] == s.body;
  }

  /** A run of the backup that returns success, at the end of the producer's code. */
  predicate Succeeded(s: State) { s.producer.PDone? }

  /** The writer has seen the end of the input, and the end of its deflate stream is in the file. */
  predicate Complete(input: seq<byte>, s: State) { s.writer.WExit? && s.fed == input }

  lemma {:induction false} ErrorIsFailure(run: seq<State>, acts: seq<Step>)
    requires IsRun(run, acts)
    ensures run[|acts|].shared.writeError <==> exists i :: 0 <= i < |acts| && acts[i].FailBody?
    decreases |acts|
  {
    hide Copied, Swapped;
    if acts != [] {
      var n := |acts| - 1;
      ErrorIsFailure(run[..n + 1], acts[..n]);
      ErrorStep(run[n], acts[n]);
      if run[n].shared.writeError {
        var i :| 0 <= i < |acts[..n]| && acts[..n][i].FailBody?;
        assert acts[i].FailBody?;
      }
      forall i | 0 <= i < n && acts[i].FailBody? ensures run[n].shared.writeError { assert acts[..n][i].FailBody?; }
    }
  }

  lemma ErrorStep(s: State, a: Step)
    requires Enabled(s, a)
    ensures Apply(s, a).shared.writeError == (s.shared.writeError || a.FailBody?)
  {
    hide Copied, Swapped;
    match a {
      case CopyIn => assert Apply(s, a).shared == Copied(s.shared, s.data);
      case TakeSlot(_) => assert Apply(s, a).shared == Swapped(s.shared);
      case Deflate(_, _) =>
      case _ => OtherSlots(s, a);
    }
  }

  /** Past dump_write_end without an error. */
  predicate PastEnd(p: Producer) { (p.PEndSignal? && !p.error) || p.PJoin? || p.PDone? }

  lemma {:induction false} EndFound(run: seq<State>, acts: seq<Step>) returns (e: nat)
    requires IsRun(run, acts) && PastEnd(run[|acts|].producer)
    ensures e < |acts| && acts[e].EndBody? && !run[e].shared.writeError
    decreases |acts|
  {
    hide Copied, Swapped;
    e := 0;
    if acts != [] {
      var n := |acts| - 1;
      if PastEnd(run[n].producer) {
        e := EndFound(run[..n + 1], acts[..n]);
      } else {
        PastStep(run[n], acts[n]);
        e := n;
      }
    }
  }

  lemma PastStep(s: State, a: Step)
    requires Enabled(s, a) && PastEnd(Apply(s, a).producer) && !PastEnd(s.producer)
    ensures a.EndBody? && !s.shared.writeError
  {
    hide Copied, Swapped;
  }

  predicate NoFailure(acts: seq<Step>, from: nat, to: nat)
    requires to <= |acts|
  {
    forall i :: from <= i < to ==> !acts[i].FailBody?
  }

  /** The finish flag is set here, and the writer has not failed before. */
  predicate EndsAt(acts: seq<Step>, e: nat)
    requires e < |acts|
  {
    acts[e].EndBody? && NoFailure(acts, 0, e)
  }

  /**
   A run that returns success has set the finish flag at some point where the writer had not
   failed, and its file is complete exactly if the writer has not failed after it either.
   */
  lemma SuccessExactly(run: seq<State>, acts: seq<Step>)
    requires IsRun(run, acts) && Succeeded(run[|acts|])
    ensures exists e :: 0 <= e < |acts| && EndsAt(acts, e)
                        && (Complete(Flatten(run[0].calls), run[|acts|]) <==> NoFailure(acts, e, |acts|))
  {
    var e := EndFound(run, acts);
    RunInv(run, acts);
    FinishCoversEverything(run, acts);
    ErrorIsFailure(run, acts);
    ErrorIsFailure(run[..e + 1], acts[..e]);
    forall i | 0 <= i < e ensures !acts[i].FailBody? { assert acts[..e][i] == acts[i]; }
    assert EndsAt(acts, e);
  }

  /** A run without input whose writer fails at its first deflate call: success, and an empty body. */
  lemma LateFailure(s: State) returns (run: seq<State>, acts: seq<Step>)
    requires Init(s) && s.calls == []
    ensures IsRun(run, acts) && run[0] == s && Succeeded(run[|acts|])
    ensures run[|acts|].body == [] && !Complete([], run[|acts|])
  {
    run, acts := ToEnd(s);
    run, acts := Fails(run, acts);
  }

  /** The run with one more step. */
  lemma Then(run: seq<State>, acts: seq<Step>, a: Step) returns (r: seq<State>, more: seq<Step>)
    requires IsRun(run, acts) && Enabled(run[|acts|], a)
    ensures IsRun(r, more) && r[0] == run[0] && r[|more|] == Apply(run[|acts|], a)
  {
    hide Enabled, Apply, Init;
    r, more := run + [Apply(run[|acts|], a)], acts + [a];
  }

  /** The producer has nothing to write and waits in pthread_join. */
  lemma ToEnd(s: State) returns (run: seq<State>, acts: seq<Step>)
    requires Init(s) && s.calls == []
    ensures IsRun(run, acts) && run[0] == s
    ensures run[|acts|] == s.(producer := PJoin, placed := true, shared := s.shared.(inFinish := true))
  {
    hide Copied, Swapped, IsRun;
    StartRun(s);
    run, acts := Then([s], [], Place);
    run, acts := Then(run, acts, Finish);
    run, acts := Then(run, acts, EndLock);
    run, acts := Then(run, acts, EndBody);
    run, acts := Then(run, acts, EndNotify);
  }

  lemma StartRun(s: State)
    requires Init(s)
    ensures IsRun([s], [])
  {
  }

  /** The writer takes the empty slot and fails. */
  lemma Fails(run: seq<State>, acts: seq<Step>) returns (r: seq<State>, more: seq<Step>)
    requires IsRun(run, acts) && var s := run[|acts|];
      s.producer.PJoin? && s.writer.WWant? && s.owner.Free? && s.shared.inFinish && s.shared.Valid() && s.body == []
    ensures IsRun(r, more) && r[0] == run[0] && Succeeded(r[|more|])
    ensures r[|more|].writer.WDead? && r[|more|].body == []
  {
    hide Copied, Swapped, IsRun;
    r, more := Then(run, acts, WriterLock);
    r, more := Then(r, more, TakeSlot(1));
    r, more := Then(r, more, Notify);
    r, more := Then(r, more, Fail);
    r, more := Dies(r, more);
  }

  lemma Dies(run: seq<State>, acts: seq<Step>) returns (r: seq<State>, more: seq<Step>)
    requires IsRun(run, acts) && var s := run[|acts|];
      s.producer.PJoin? && s.writer.WErrWant? && s.owner.Free? && s.body == []
    ensures IsRun(r, more) && r[0] == run[0] && Succeeded(r[|more|])
    ensures r[|more|].writer.WDead? && r[|more|].body == []
  {
    hide IsRun;
    r, more := Then(run, acts, FailLock);
    r, more := Then(r, more, FailBody);
    r, more := Then(r, more, Joined);
  }

  /**
   Where a run that cannot go on stands: the file's body is what deflate has put out; an
   error that is reported is one of the writer; and where success is returned, all input has
   been deflated exactly if the writer has not failed.
   */
  lemma EndMeansDone(run: seq<State>, acts: seq<Step>)
    requires IsRun(run, acts)
    requires forall a :: Enabled(run[|acts|], a) ==> Spurious(a)
    ensures var s := run[|acts|];
      && Ended(s) && s.body == Outputs(acts) && (s.producer.PFailed? || Succeeded(s))
      && (s.producer.PFailed? ==> s.shared.writeError)
      && (Succeeded(s) ==> (Complete(Flatten(run[0].calls), s) <==> !s.shared.writeError))
  {
    NoDeadlock(run, acts);
    BodyIsOutput(run, acts);
    RunInv(run, acts);
    FinishCoversEverything(run, acts);
  }
}
