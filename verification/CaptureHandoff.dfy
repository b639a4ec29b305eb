/** The handoff between the native capture thread and the Go reader of a video
    stream, with the operations of KvmVision that pause, start and retire it.

    Every atomic access, eventfd access and lock section of the two sources is
    one labelled step. The memory is sequentially consistent, as the atomics of
    both sides are. A section under the worker's lock that touches only guarded
    fields is one step; the capture thread's sections also touch the atomics, so
    they are several steps, during which nobody else enters the lock. */
module CaptureHandoff {
  import opened Shared

  /** An access unit, tagged with the stream it was read for. */
  datatype Frame = Frame(stream: nat, payload: int)

  /** The bytes of a slot: complete, or being written. */
  datatype Data = Torn | Whole(frame: Frame)

  datatype Slot = Slot(ready: bool, data: Data)

  /** A slot given back by the reader `reader`: delivered to it, or dropped. */
  datatype Release = Release(frame: Frame, reader: nat, delivered: bool)

  /** Where the capture thread is (capture_main). */
  datatype ProducerPc =
    | PAbsent                // no thread yet
    | PLock                  // about to take the lock and start over
    | PTop                   // lock held: loop condition
    | PCheck                 // lock held: first load of the slot state
    | PArm                   // lock held: publish producer_waiting
    | PRecheck               // lock held: second load of the slot state
    | PRelock                // woken while waiting for the slot
    | PDisarm                // lock held: clear producer_waiting
    | PPace                  // lock held: slot free, compare the clock
    | PWaitIdle              // blocked: not running or paused
    | PWaitSlot              // blocked: slot not free
    | PWaitDeadline          // blocked until the deadline or a ring
    | PRead                  // native read in flight
    | PFill                  // native read in flight, slot bytes changing
    | PPublish               // slot filled, state not yet stored
    | PExchange              // slot READY, produce and consumer_waiting not yet updated
    | PRing                  // about to ring ready_fd
    | PFinish                // about to clear in_flight
    | PExited

  /** Where the stream's reader is (VideoCapture.Next and Close). */
  datatype ConsumerPc =
    | CNone                  // no stream
    | CIdle                  // between calls
    | CCheck                 // wait: load the slot state
    | CArm                   // wait: publish consumer_waiting
    | CRecheck               // wait: load the slot state again
    | CSleep                 // wait: blocked on ready_fd
    | CDisarm                // wait: slot became ready, clear the flag
    | CAbort                 // wait: interrupted or broken, clear the flag
    | CTake                  // take: copy the slot
    | CFree                  // take: store FREE
    | CPeek                  // take: flip next, load producer_waiting
    | CRing                  // take: ring the doorbell
    | CStop                  // Close: about to clear running
    | CStopAsleep            // Close: waiting for the read in flight
    | CStopAwake             // Close: woken, about to look again
    | CDiscard               // Close: load the slot state
    | CDropFree              // Close: store FREE
    | CDropPeek              // Close: flip next, load producer_waiting
    | CDropRing              // Close: ring the doorbell
    | CClear                 // Close: clear consumer_waiting
    | CRelease               // Close: about to take the vision mutex
    | CDestroy               // vision mutex held: retire the broken worker
    | CDestroyRing
    | CJoin

  /** Where another goroutine calling KvmVision is. */
  datatype ClientPc =
    | Entered                // vision mutex held, pauseCaptureLocked next
    | Pausing                // about to count its pause
    | PauseAsleep            // counted, waiting for the read in flight
    | PauseAwake             // counted, woken, about to look again
    | Native(counted: bool)  // the native operation that must be alone
    | Resuming               // about to uncount its pause
    | ResumeRing             // about to ring the doorbell
    | Leaving                // about to release the vision mutex
    | Starting               // about to set running
    | StartRing              // running set, about to ring
    | StartDone              // about to record the stream and return
    | CloseWait(stream: Option<nat>)  // vision closed, waiting for the stream
    | CloseDestroy           // vision mutex held again: about to set stopping
    | CloseRing
    | CloseJoin

  /** A goroutine inside KvmVision; `exclusive` is a write lock of the mutex. */
  datatype Client = Client(pc: ClientPc, exclusive: bool)

  datatype Writer = NoWriter | Reader | Thread(t: nat)

  datatype Worker = Absent | Live | Gone

  /** The two slots, and the index each side uses next (a bool). */
  datatype Buffers = Buffers(zero: Slot, one: Slot, produce: bool, next: bool)

  /** The shared flags and the counters of the two eventfds. */
  datatype Signals = Signals(consumerWaiting: bool, producerWaiting: bool, ready: nat, doorbell: nat)

  /** The stream being read and the history of both sides. */
  datatype Log = Log(stream: nat, produced: seq<Frame>, released: seq<Release>)

  /** Everything the two sides share, and where they are. */
  datatype Link = Link(buf: Buffers, sig: Signals, log: Log, ppc: ProducerPc, cpc: ConsumerPc)

  /** The fields guarded by the worker's lock. */
  datatype Control = Control(stopping: bool, running: bool, paused: nat, inFlight: bool)

  /** KvmVision, guarded by its mutex, and the streams whose Close is past the
      mutex (`finishing`) or past closing its done channel (`done`). */
  datatype Vision = Vision(
    worker: Worker, enabled: bool, closed: bool, capture: Option<nat>, failed: bool,
    writer: Writer, clients: map<nat, Client>, finishing: set<nat>, done: set<nat>)

  datatype State = State(link: Link, ctl: Control, vision: Vision)

  // ---------------------------------------------------------------- steps

  function At(b: Buffers, i: bool): Slot {
    if i then b.one else b.zero
  }

  function Put(b: Buffers, i: bool, slot: Slot): Buffers {
    if i then b.(one := slot) else b.(zero := slot)
  }

  /** The frame whose bytes a slot holds; a slot being written holds none. */
  function FrameIn(slot: Slot): Frame {
    if slot.data.Whole? then slot.data.frame else Frame(0, 0)
  }

  /** The capture thread holds the worker's lock. */
  predicate LockHeld(pc: ProducerPc) {
    pc.PTop? || pc.PCheck? || pc.PArm? || pc.PRecheck? || pc.PDisarm? || pc.PPace?
  }

  /** What the environment decides in a step: the clock or an interrupted
      system call (`flag`), and the bytes of a native read. */
  datatype Choice = Choice(flag: bool, payload: int)

  /** What the loop condition of capture_main finds under the lock. */
  datatype Command = Exit | Rest | Work

  function CommandOf(ctl: Control): Command {
    if ctl.stopping then Exit else if !ctl.running || ctl.paused > 0 then Rest else Work
  }

  /** The waiting half of capture_main: until a slot is free and the read is due. */
  predicate CaptureWait(k: Link, c: Choice, command: Command, k': Link) {
    var full := At(k.buf, k.buf.produce).ready;
    && k' == k.(sig := k'.sig, ppc := k'.ppc)
    && match k.ppc
       case PLock => k'.ppc == PTop && k'.sig == k.sig
       case PTop =>
         k'.sig == k.sig && k'.ppc == if command.Exit? then PExited else if command.Rest? then PWaitIdle else PCheck
       case PCheck => k'.sig == k.sig && k'.ppc == if full then PArm else PPace
       case PArm => k'.sig == k.sig.(producerWaiting := true) && k'.ppc == PRecheck
       case PRecheck => k'.sig == k.sig && k'.ppc == if full then PWaitSlot else PDisarm
       case PWaitIdle => k'.ppc == PLock && WaitDoorbell(k.sig, c.flag, k'.sig)
       case PWaitSlot => k'.ppc == PRelock && WaitDoorbell(k.sig, c.flag, k'.sig)
       case PWaitDeadline => k'.ppc == PLock && WaitDoorbell(k.sig, c.flag, k'.sig)
       case PRelock => k'.sig == k.sig && k'.ppc == PDisarm
       case PDisarm => k'.sig == k.sig.(producerWaiting := false) && k'.ppc == PTop
       case PPace => k'.sig == k.sig && k'.ppc == if c.flag then PWaitDeadline else PRead
       case _ => false
  }

  /** Returns when the doorbell rang, which it resets, or early, when the call
      was interrupted or timed out; then the doorbell keeps what it holds. */
  predicate WaitDoorbell(sig: Signals, early: bool, sig': Signals) {
    (sig.doorbell > 0 && sig' == sig.(doorbell := 0)) || (early && sig' == sig)
  }

  predicate Reading(pc: ProducerPc) {
    pc.PRead? || pc.PFill? || pc.PPublish? || pc.PExchange? || pc.PRing? || pc.PFinish?
  }

  /** The reading half of capture_main: fill the slot, publish it, signal. */
  predicate CaptureRead(k: Link, c: Choice, k': Link) {
    var slot := At(k.buf, k.buf.produce);
    match k.ppc
    case PRead => k' == k.(buf := Put(k.buf, k.buf.produce, slot.(data := Torn)), ppc := PFill)
    case PFill =>
      k' == k.(buf := Put(k.buf, k.buf.produce, slot.(data := Whole(Frame(k.log.stream, c.payload)))), ppc := PPublish)
    case PPublish =>
      k' == k.(buf := Put(k.buf, k.buf.produce, slot.(ready := true)),
               log := k.log.(produced := k.log.produced + [FrameIn(slot)]), ppc := PExchange)
    case PExchange =>
      k' == k.(buf := k.buf.(produce := !k.buf.produce), sig := k.sig.(consumerWaiting := false),
               ppc := if k.sig.consumerWaiting then PRing else PFinish)
    case PRing => k' == k.(sig := k.sig.(ready := k.sig.ready + 1), ppc := PFinish)
    case PFinish => k' == k.(cpc := if k.cpc.CStopAsleep? then CStopAwake else k.cpc, ppc := PTop)
    case _ => false
  }

  /** Wakes everybody waiting on the worker's condition variable. */
  function WakeClients(clients: map<nat, Client>): map<nat, Client> {
    map t | t in clients :: if clients[t].pc.PauseAsleep? then Client(PauseAwake, clients[t].exclusive) else clients[t]
  }

  /** One step of the capture thread. */
  predicate Producer(s: State, c: Choice, s': State) {
    if Reading(s.link.ppc) then
      && CaptureRead(s.link, c, s'.link)
      && s'.ctl == (if s.link.ppc.PFinish? then s.ctl.(inFlight := false) else s.ctl)
      && s'.vision == (if s.link.ppc.PFinish? then s.vision.(clients := WakeClients(s.vision.clients)) else s.vision)
    else
      && CaptureWait(s.link, c, CommandOf(s.ctl), s'.link)
      && s'.ctl == (if s'.link.ppc.PRead? then s.ctl.(inFlight := true) else s.ctl)
      && s'.vision == s.vision
  }

  /** VideoCapture.Next: wait for the next slot, copy it, give it back. `flag`
      stands for an interrupted or broken wait. */
  predicate StreamNext(k: Link, c: Choice, k': Link) {
    var full := At(k.buf, k.buf.next).ready;
    && k' == k.(buf := k'.buf, sig := k'.sig, log := k'.log, cpc := k'.cpc)
    && (if k.cpc.CFree? then FreeSlot(k, true, k')
        else k'.log == k.log && k'.buf == if k.cpc.CPeek? then k.buf.(next := !k.buf.next) else k.buf)
    && match k.cpc
       case CCheck => k'.sig == k.sig && k'.cpc == if full then CTake else CArm
       case CArm => k'.sig == k.sig.(consumerWaiting := true) && k'.cpc == CRecheck
       case CRecheck => k'.sig == k.sig && k'.cpc == if full then CDisarm else CSleep
       case CSleep =>
         if c.flag then k'.sig == k.sig && k'.cpc == if c.payload == 0 then CCheck else CAbort
         else k.sig.ready > 0 && k'.sig == k.sig.(ready := 0) && k'.cpc == CCheck
       case CDisarm => k'.sig == k.sig.(consumerWaiting := false) && k'.cpc == CTake
       case CAbort => k'.sig == k.sig.(consumerWaiting := false) && k'.cpc == CIdle
       case CTake => k'.sig == k.sig && k'.cpc == CFree
       case CFree => k'.sig == k.sig && k'.cpc == CPeek
       case CPeek => k'.sig == k.sig && k'.cpc == if k.sig.producerWaiting then CRing else CIdle
       case CRing => k'.sig == k.sig.(doorbell := k.sig.doorbell + 1) && k'.cpc == CIdle
       case _ => false
  }

  /** Gives slot `next` back to the capture thread. */
  predicate FreeSlot(k: Link, delivered: bool, k': Link) {
    var slot := At(k.buf, k.buf.next);
    && k'.buf == Put(k.buf, k.buf.next, slot.(ready := false))
    && k'.log == k.log.(released := k.log.released + [Release(FrameIn(slot), k.log.stream, delivered)])
  }

  /** VideoCapture.Close up to the vision mutex. */
  predicate StreamClose(k: Link, inFlight: bool, k': Link) {
    && k' == k.(buf := k'.buf, sig := k'.sig, log := k'.log, cpc := k'.cpc)
    && (if k.cpc.CDropFree? then FreeSlot(k, false, k')
        else k'.log == k.log && k'.buf == if k.cpc.CDropPeek? then k.buf.(next := !k.buf.next) else k.buf)
    && match k.cpc
       case CStop => !LockHeld(k.ppc) && k'.sig == k.sig && k'.cpc == if inFlight then CStopAsleep else CDiscard
       case CStopAwake => !LockHeld(k.ppc) && k'.sig == k.sig && k'.cpc == if inFlight then CStopAsleep else CDiscard
       case CDiscard => k'.sig == k.sig && k'.cpc == if At(k.buf, k.buf.next).ready then CDropFree else CClear
       case CDropFree => k'.sig == k.sig && k'.cpc == CDropPeek
       case CDropPeek => k'.sig == k.sig && k'.cpc == if k.sig.producerWaiting then CDropRing else CDiscard
       case CDropRing => k'.sig == k.sig.(doorbell := k.sig.doorbell + 1) && k'.cpc == CDiscard
       case CClear => k'.sig == k.sig.(consumerWaiting := false) && k'.cpc == CRelease
       case _ => false
  }

  /** Holds the vision mutex, in either mode. */
  predicate Holds(c: Client) {
    !c.pc.CloseWait?
  }

  predicate MutexFree(v: Vision) {
    v.writer.NoWriter? && forall t :: t in v.clients ==> !Holds(v.clients[t])
  }

  /** releaseCapture: forget the stream, and retire the worker if it failed. */
  predicate StreamRelease(s: State, s': State) {
    var k, v := s.link, s.vision;
    match k.cpc
    case CRelease =>
      && MutexFree(v)
      && s' == if v.failed then s.(link := k.(cpc := CDestroy), vision := v.(capture := None, writer := Reader))
               else s.(link := k.(cpc := CNone),
                       vision := v.(capture := None, finishing := v.finishing + {k.log.stream}))
    case CDestroy => !LockHeld(k.ppc) && s' == s.(link := k.(cpc := CDestroyRing), ctl := s.ctl.(stopping := true))
    case CDestroyRing => s' == s.(link := Ring(k).(cpc := CJoin))
    case CJoin =>
      && k.ppc.PExited?
      && s' == s.(link := k.(cpc := CNone),
                  vision := v.(worker := Gone, enabled := false, writer := NoWriter,
                               finishing := v.finishing + {k.log.stream}))
    case _ => false
  }

  function Ring(k: Link): Link {
    k.(sig := k.sig.(doorbell := k.sig.doorbell + 1))
  }

  predicate InNext(pc: ConsumerPc) {
    pc.CCheck? || pc.CArm? || pc.CRecheck? || pc.CSleep? || pc.CDisarm? || pc.CAbort? || pc.CTake? || pc.CFree?
    || pc.CPeek? || pc.CRing?
  }

  predicate InClose(pc: ConsumerPc) {
    pc.CStop? || pc.CStopAsleep? || pc.CStopAwake? || pc.CDiscard? || pc.CDropFree? || pc.CDropPeek? || pc.CDropRing?
    || pc.CClear?
  }

  /** One step of the stream's reader. */
  predicate Consumer(s: State, c: Choice, s': State) {
    var k := s.link;
    if k.cpc.CIdle? then
      s' == s.(link := k.(cpc := if c.flag || s.vision.failed then CStop else CCheck))
    else if InNext(k.cpc) then
      && StreamNext(k, c, s'.link) && s'.ctl == s.ctl
      && s'.vision == s.vision.(failed := if k.cpc.CAbort? then c.flag else s.vision.failed)
    else if InClose(k.cpc) then
      && StreamClose(k, s.ctl.inFlight, s'.link) && s'.vision == s.vision
      && s'.ctl == s.ctl.(running := s.ctl.running && !k.cpc.CStop?)
    else StreamRelease(s, s')
  }

  /** What a goroutine outside KvmVision may call. */
  datatype Call = Operate(exclusive: bool) | StartCapture | CloseVision

  /** The mutex section a call of goroutine `t` begins with. `created` is
      whether the native worker could be created. */
  predicate Enter(s: State, t: nat, call: Call, created: bool, s': State) {
    var v := s.vision;
    && t !in v.clients
    && match call
       case Operate(exclusive) =>
         && (if exclusive then MutexFree(v) else v.writer.NoWriter?)
         && s' == if v.closed then s
                  else s.(vision := v.(clients := v.clients[t := Client(Entered, exclusive)],
                                       writer := if exclusive then Thread(t) else v.writer))
       case StartCapture =>
         && MutexFree(v)
         && s' == if v.closed || v.capture.Some? || !v.enabled || v.worker.Gone? then s
                  else if v.worker.Absent? && !created then s.(vision := v.(enabled := false))
                  else s.(vision := v.(clients := v.clients[t := Client(Starting, true)], writer := Thread(t),
                                       worker := Live),
                          link := if v.worker.Absent? then s.link.(ppc := PLock) else s.link)
       case CloseVision =>
         && MutexFree(v)
         && s' == if v.closed then s
                  else s.(vision := v.(closed := true, clients := v.clients[t := Client(CloseWait(v.capture), true)]))
  }

  /** Client `t` moves on to `pc`. */
  function Goto(v: Vision, t: nat, pc: ClientPc): Vision
    requires t in v.clients
  {
    v.(clients := v.clients[t := Client(pc, v.clients[t].exclusive)])
  }

  /** Client `t` releases the vision mutex and returns. */
  function Leave(v: Vision, t: nat): Vision
    requires t in v.clients
  {
    v.(clients := v.clients - {t}, writer := if v.clients[t].exclusive then NoWriter else v.writer)
  }

  /** An operation under pauseCaptureLocked, from its mutex to its return. */
  predicate Operating(s: State, t: nat, s': State)
    requires t in s.vision.clients
  {
    var k, v, ctl := s.link, s.vision, s.ctl;
    match v.clients[t].pc
    case Entered => s' == s.(vision := Goto(v, t, if v.capture.None? then Native(false) else Pausing))
    case Pausing =>
      && !LockHeld(k.ppc)
      && s' == s.(vision := Goto(v, t, if ctl.inFlight then PauseAsleep else Native(true)),
                  ctl := ctl.(paused := ctl.paused + 1))
    case PauseAwake =>
      !LockHeld(k.ppc) && s' == s.(vision := Goto(v, t, if ctl.inFlight then PauseAsleep else Native(true)))
    case Native(counted) => s' == s.(vision := Goto(v, t, if counted then Resuming else Leaving))
    case Resuming =>
      && !LockHeld(k.ppc)
      && s' == s.(vision := Goto(v, t, ResumeRing), ctl := ctl.(paused := if ctl.paused > 0 then ctl.paused - 1 else 0))
    case ResumeRing => s' == s.(vision := Goto(v, t, Leaving), link := Ring(k))
    case Leaving => s' == s.(vision := Leave(v, t))
    case _ => false
  }

  /** StartVideoCapture after it has a worker. */
  predicate Begin(s: State, t: nat, s': State)
    requires t in s.vision.clients
  {
    var k, v, ctl := s.link, s.vision, s.ctl;
    match v.clients[t].pc
    case Starting =>
      && !LockHeld(k.ppc)
      && s' == State(k.(log := k.log.(stream := k.log.stream + 1)), ctl.(running := true), Goto(v, t, StartRing))
    case StartRing => s' == s.(vision := Goto(v, t, StartDone), link := Ring(k))
    case StartDone =>
      s' == s.(vision := Leave(v, t).(capture := Some(k.log.stream), failed := false), link := k.(cpc := CIdle))
    case _ => false
  }

  /** KvmVision.Close after its first mutex section. */
  predicate Finish(s: State, t: nat, s': State)
    requires t in s.vision.clients
  {
    var k, v, ctl := s.link, s.vision, s.ctl;
    match v.clients[t].pc
    case CloseWait(stream) =>
      && (stream.Some? ==> stream.value in v.done) && MutexFree(v)
      && s' == s.(vision := if v.worker.Live? then Goto(v, t, CloseDestroy).(writer := Thread(t))
                            else v.(clients := v.clients - {t}))
    case CloseDestroy => !LockHeld(k.ppc) && s' == s.(vision := Goto(v, t, CloseRing), ctl := ctl.(stopping := true))
    case CloseRing => s' == s.(vision := Goto(v, t, CloseJoin), link := Ring(k))
    case CloseJoin => k.ppc.PExited? && s' == s.(vision := Leave(v, t).(worker := Gone))
    case _ => false
  }

  predicate IsStart(pc: ClientPc) {
    pc.Starting? || pc.StartRing? || pc.StartDone?
  }

  predicate IsFinish(pc: ClientPc) {
    pc.CloseWait? || pc.CloseDestroy? || pc.CloseRing? || pc.CloseJoin?
  }

  /** One step of a goroutine inside KvmVision. */
  predicate Inside(s: State, t: nat, s': State) {
    && t in s.vision.clients
    && var pc := s.vision.clients[t].pc;
       if IsStart(pc) then Begin(s, t, s') else if IsFinish(pc) then Finish(s, t, s') else Operating(s, t, s')
  }

  datatype Label =
    | Capture(choice: Choice)
    | Stream(choice: Choice)
    | Call(t: nat, call: Call, created: bool)
    | Run(t: nat)
    | CloseDone(stream: nat)

  /** `s` becomes `s'` by the step `l`. */
  predicate Step(s: State, l: Label, s': State) {
    match l
    case Capture(c) => Producer(s, c, s')
    case Stream(c) => Consumer(s, c, s')
    case Call(t, call, created) => Enter(s, t, call, created, s')
    case Run(t) => Inside(s, t, s')
    case CloseDone(i) =>
      && i in s.vision.finishing
      && s' == s.(vision := s.vision.(finishing := s.vision.finishing - {i}, done := s.vision.done + {i}))
  }

  predicate Init(s: State) {
    var free := Slot(false, Torn);
    && s.link == Link(Buffers(free, free, false, false), Signals(false, false, 0, 0), Log(0, [], []), PAbsent, CNone)
    && s.ctl == Control(false, false, 0, false)
    && s.vision == Vision(Absent, s.vision.enabled, false, None, false, NoWriter, map[], {}, {})
  }

  // ----------------------------------------------------------- invariants

  predicate Odd(n: nat) {
    n % 2 == 1
  }

  /** The two slots hold exactly the frames produced and not yet released, in
      order, at the positions both sides count to. `behind` is a side that has
      changed a slot's state and not yet its index. */
  ghost predicate SlotInv(b: Buffers, l: Log, producerBehind: bool, consumerBehind: bool) {
    var np, nr := |l.produced|, |l.released|;
    && nr <= np <= nr + 2
    && b.produce == (Odd(np) != producerBehind)
    && b.next == (Odd(nr) != consumerBehind)
    && (At(b, Odd(nr)).ready <==> np > nr)
    && (At(b, !Odd(nr)).ready <==> np == nr + 2)
    && (np > nr ==> At(b, Odd(nr)).data == Whole(l.produced[nr]) && l.produced[nr].stream == l.stream)
    && (np == nr + 2 ==> At(b, !Odd(nr)).data == Whole(l.produced[nr + 1]) && l.produced[nr + 1].stream == l.stream)
  }

  /** What was released is what was produced, by the reader it was made for. */
  ghost predicate OrderInv(l: Log) {
    && |l.released| <= |l.produced|
    && forall j :: 0 <= j < |l.released| ==>
         l.released[j].frame == l.produced[j] && l.released[j].reader == l.produced[j].stream
  }

  /** A slot is written only while FREE and read only while READY. */
  ghost predicate OwnerInv(k: Link) {
    var mine, yours := At(k.buf, k.buf.produce), At(k.buf, k.buf.next);
    && (k.ppc.PPace? || k.ppc.PRead? || k.ppc.PFill? || k.ppc.PPublish? ==> !mine.ready)
    && (k.ppc.PPublish? ==> mine.data.Whole? && mine.data.frame.stream == k.log.stream)
    && (k.cpc.CDisarm? || k.cpc.CTake? || k.cpc.CFree? || k.cpc.CDropFree? ==> yours.ready)
  }

  /** Neither side sleeps through what the other publishes. */
  ghost predicate SignalInv(k: Link) {
    && (k.sig.producerWaiting <==> k.ppc.PRecheck? || k.ppc.PWaitSlot? || k.ppc.PRelock? || k.ppc.PDisarm?)
    && (k.cpc.CRecheck? || k.cpc.CSleep? ==> k.sig.consumerWaiting || k.sig.ready > 0 || k.ppc.PRing?)
    && (k.cpc.CSleep? && At(k.buf, k.buf.next).ready ==>
          k.sig.ready > 0 || k.ppc.PRing? || (k.sig.consumerWaiting && k.ppc.PExchange?))
    && (k.ppc.PWaitSlot? && !At(k.buf, k.buf.produce).ready ==>
          k.sig.doorbell > 0 || k.cpc.CPeek? || k.cpc.CRing? || k.cpc.CDropPeek? || k.cpc.CDropRing?)
  }

  ghost predicate LinkInv(k: Link) {
    && SlotInv(k.buf, k.log, k.ppc.PExchange?, k.cpc.CPeek? || k.cpc.CDropPeek?)
    && OrderInv(k.log) && OwnerInv(k) && SignalInv(k)
  }

  predicate Streaming(pc: ConsumerPc) {
    pc.CIdle? || pc.CStop? || InNext(pc)
  }

  predicate Retiring(pc: ConsumerPc) {
    pc.CDestroy? || pc.CDestroyRing? || pc.CJoin?
  }

  /** A goroutine has set `running` and not yet recorded its stream. */
  predicate StartPending(v: Vision) {
    && v.writer.Thread? && v.writer.t in v.clients
    && (v.clients[v.writer.t].pc.StartRing? || v.clients[v.writer.t].pc.StartDone?)
  }

  /** A goroutine has set `stopping` and not yet joined the thread. */
  predicate StopPending(v: Vision) {
    && v.writer.Thread? && v.writer.t in v.clients
    && (v.clients[v.writer.t].pc.CloseRing? || v.clients[v.writer.t].pc.CloseJoin?)
  }

  /** The worker's guarded fields against the positions of both sides. */
  ghost predicate ControlInv(k: Link, ctl: Control, v: Vision) {
    && (ctl.inFlight <==> Reading(k.ppc))
    && (k.ppc.PCheck? || k.ppc.PArm? || k.ppc.PRecheck? || k.ppc.PPace? ==> CommandOf(ctl).Work?)
    && (ctl.running ==> Streaming(k.cpc) || StartPending(v))
    && (ctl.inFlight ==> ctl.running || k.cpc.CStopAsleep? || k.cpc.CStopAwake?)
    && (k.cpc.CStopAsleep? ==> ctl.inFlight)
    && (k.cpc.CNone? || k.cpc.CClear? || k.cpc.CRelease? || Retiring(k.cpc) ==>
          StartPending(v) || |k.log.produced| == |k.log.released|)
    && (k.ppc.PExited? ==> ctl.stopping)
    && (ctl.stopping ==> v.worker.Gone? || k.cpc.CDestroyRing? || k.cpc.CJoin? || StopPending(v))
  }

  /** The stream recorded in KvmVision, its worker and its mutex. */
  ghost predicate VisionInv(k: Link, ctl: Control, v: Vision) {
    && (v.worker.Absent? <==> k.ppc.PAbsent?)
    && (v.worker.Gone? ==> k.ppc.PExited?)
    && (v.capture.Some? <==> !k.cpc.CNone? && !Retiring(k.cpc))
    && (v.capture.Some? ==> v.capture.value == k.log.stream)
    && (v.capture.Some? || Retiring(k.cpc) ==>
        v.worker.Live? && k.log.stream !in v.finishing && k.log.stream !in v.done)
    && (v.writer.Reader? <==> Retiring(k.cpc))
    && (k.cpc.CDestroyRing? || k.cpc.CJoin? ==> ctl.stopping)
    && (forall i :: i in v.finishing || i in v.done ==> i <= k.log.stream)
    && (v.writer.Thread? ==>
          v.writer.t in v.clients && v.clients[v.writer.t].exclusive && Holds(v.clients[v.writer.t]))
  }

  /** The client's pause is counted. */
  predicate Counts(pc: ClientPc) {
    pc.PauseAsleep? || pc.PauseAwake? || pc == Native(true) || pc.Resuming?
  }

  /** Where a single client may be. */
  ghost predicate ClientOk(k: Link, ctl: Control, v: Vision, t: nat, c: Client) {
    && (c.exclusive && Holds(c) ==> v.writer == Thread(t))
    && (!c.exclusive ==> v.writer.NoWriter?)
    && (c.pc.Pausing? || Counts(c.pc) || c.pc.ResumeRing? ==> v.capture.Some?)
    && (c.pc == Native(false) ==> v.capture.None?)
    && (c.pc.PauseAsleep? ==> ctl.inFlight)
    && (c.pc == Native(true) || c.pc.Resuming? ==> !ctl.inFlight)
    && (IsStart(c.pc) ==> c.exclusive && v.worker.Live? && v.capture.None? && !v.closed)
    && (c.pc.StartRing? || c.pc.StartDone? ==> k.log.stream !in v.finishing && k.log.stream !in v.done)
    && (IsFinish(c.pc) ==> c.exclusive && v.closed)
    && (c.pc.CloseWait? ==> if c.pc.stream.Some? then c.pc.stream.value == k.log.stream else v.capture.None?)
    && (c.pc.CloseDestroy? || c.pc.CloseRing? || c.pc.CloseJoin? ==> v.capture.None? && v.worker.Live?)
    && (c.pc.CloseRing? || c.pc.CloseJoin? ==> ctl.stopping)
  }

  /** Clients whose pause is counted. */
  function Counted(clients: map<nat, Client>): set<nat> {
    set t | t in clients && Counts(clients[t].pc)
  }

  ghost predicate ClientInv(k: Link, ctl: Control, v: Vision) {
    && ctl.paused == |Counted(v.clients)|
    && forall t :: t in v.clients ==> ClientOk(k, ctl, v, t, v.clients[t])
  }

  predicate Rings(pc: ClientPc) {
    pc.ResumeRing? || pc.StartRing? || pc.CloseRing?
  }

  predicate Ringing(v: Vision) {
    exists t :: t in v.clients && Rings(v.clients[t].pc)
  }

  predicate Blocked(pc: ProducerPc) {
    pc.PWaitIdle? || pc.PWaitSlot? || pc.PWaitDeadline?
  }

  /** The capture thread does not sleep through start, resume or destroy. */
  ghost predicate WakeInv(k: Link, ctl: Control, v: Vision) {
    && (k.ppc.PWaitIdle? && !CommandOf(ctl).Rest? ==> k.sig.doorbell > 0 || k.cpc.CDestroyRing? || Ringing(v))
    && (Blocked(k.ppc) && ctl.stopping ==> k.sig.doorbell > 0 || k.cpc.CDestroyRing? || Ringing(v))
  }

  ghost predicate HostInv(s: State) {
    && ControlInv(s.link, s.ctl, s.vision) && VisionInv(s.link, s.ctl, s.vision)
    && ClientInv(s.link, s.ctl, s.vision) && WakeInv(s.link, s.ctl, s.vision)
  }

  ghost predicate Inv(s: State) {
    LinkInv(s.link) && HostInv(s)
  }

  // ---------------------------------------------------- every step keeps them

  lemma CaptureWaitKeeps(k: Link, c: Choice, command: Command, k': Link)
    requires LinkInv(k) && CaptureWait(k, c, command, k')
    ensures LinkInv(k')
  {
  }

  lemma CaptureReadKeeps(k: Link, c: Choice, k': Link)
    requires LinkInv(k) && CaptureRead(k, c, k')
    ensures LinkInv(k')
  {
  }

  lemma StreamNextKeeps(k: Link, c: Choice, k': Link)
    requires LinkInv(k) && StreamNext(k, c, k')
    ensures LinkInv(k')
  {
  }

  lemma StreamCloseKeeps(k: Link, inFlight: bool, k': Link)
    requires LinkInv(k) && StreamClose(k, inFlight, k')
    ensures LinkInv(k')
  {
  }

  lemma NoneCounted(clients: map<nat, Client>)
    requires |Counted(clients)| == 0
    ensures forall t :: t in clients ==> !Counts(clients[t].pc)
  {
    forall t | t in clients ensures !Counts(clients[t].pc) {
      assert t !in Counted(clients);
    }
  }

  lemma ReadingKeeps(s: State, c: Choice, s': State)
    requires HostInv(s) && Reading(s.link.ppc) && !s.link.ppc.PFinish? && Producer(s, c, s')
    ensures HostInv(s')
  {
    assert Reading(s'.link.ppc) && s'.link.cpc == s.link.cpc && s'.link.log.stream == s.link.log.stream;
    assert s.ctl.running || s.link.cpc.CStopAsleep? || s.link.cpc.CStopAwake?;
  }

  lemma ReadDoneKeeps(s: State, c: Choice, s': State)
    requires HostInv(s) && s.link.ppc.PFinish? && Producer(s, c, s')
    ensures HostInv(s')
  {
    var clients := s.vision.clients;
    assert Counted(WakeClients(clients)) == Counted(clients);
    forall t | t in clients && Rings(clients[t].pc) ensures Rings(WakeClients(clients)[t].pc) {
    }
  }

  lemma WaitingKeeps(s: State, c: Choice, s': State)
    requires HostInv(s) && !Reading(s.link.ppc) && Producer(s, c, s')
    ensures HostInv(s')
  {
    if s.ctl.paused == 0 {
      NoneCounted(s.vision.clients);
    }
  }

  lemma NextKeeps(s: State, c: Choice, s': State)
    requires HostInv(s) && InNext(s.link.cpc) && Consumer(s, c, s')
    ensures HostInv(s')
  {
  }

  lemma CloseKeeps(s: State, c: Choice, s': State)
    requires SlotInv(s.link.buf, s.link.log, s.link.ppc.PExchange?, s.link.cpc.CPeek? || s.link.cpc.CDropPeek?)
    requires HostInv(s) && InClose(s.link.cpc) && Consumer(s, c, s')
    ensures HostInv(s')
  {
  }

  lemma ReleaseKeeps(s: State, s': State)
    requires HostInv(s) && StreamRelease(s, s')
    ensures HostInv(s')
  {
  }

  /** A ring still pending after other clients moved is still pending. */
  lemma RingKept(v: Vision, v': Vision)
    requires Ringing(v)
    requires forall t :: t in v.clients && Rings(v.clients[t].pc) ==> t in v'.clients && v'.clients[t] == v.clients[t]
    ensures Ringing(v')
  {
    var t :| t in v.clients && Rings(v.clients[t].pc);
    assert Rings(v'.clients[t].pc);
  }

  lemma OperateKeeps(s: State, t: nat, exclusive: bool, s': State)
    requires HostInv(s) && Enter(s, t, Operate(exclusive), false, s')
    ensures HostInv(s')
  {
    assert Counted(s'.vision.clients) == Counted(s.vision.clients);
    if Ringing(s.vision) {
      RingKept(s.vision, s'.vision);
    }
  }

  lemma StartKeeps(s: State, t: nat, created: bool, s': State)
    requires HostInv(s) && Enter(s, t, StartCapture, created, s')
    ensures HostInv(s')
  {
    assert Counted(s'.vision.clients) == Counted(s.vision.clients);
    if Ringing(s.vision) {
      RingKept(s.vision, s'.vision);
    }
  }

  lemma CloseVisionKeeps(s: State, t: nat, s': State)
    requires HostInv(s) && Enter(s, t, CloseVision, false, s')
    ensures HostInv(s')
  {
    assert Counted(s'.vision.clients) == Counted(s.vision.clients);
    if Ringing(s.vision) {
      RingKept(s.vision, s'.vision);
    }
  }

  /** Moving one client changes the count by whether it is counted. */
  lemma CountMove(clients: map<nat, Client>, t: nat, c: Client)
    requires t in clients
    ensures |Counted(clients[t := c])| ==
            |Counted(clients)| + (if Counts(c.pc) then 1 else 0) - (if Counts(clients[t].pc) then 1 else 0)
  {
    var rest := Counted(clients) - {t};
    assert Counted(clients) == rest + (if Counts(clients[t].pc) then {t} else {});
    assert Counted(clients[t := c]) == rest + (if Counts(c.pc) then {t} else {});
  }

  lemma CountLeave(clients: map<nat, Client>, t: nat)
    requires t in clients && !Counts(clients[t].pc)
    ensures Counted(clients - {t}) == Counted(clients)
  {
  }

  lemma PauseKeeps(s: State, t: nat, s': State)
    requires HostInv(s) && t in s.vision.clients && s.vision.clients[t].pc.Pausing? && Operating(s, t, s')
    ensures HostInv(s')
  {
    CountMove(s.vision.clients, t, s'.vision.clients[t]);
    assert StartPending(s'.vision) == StartPending(s.vision) && StopPending(s'.vision) == StopPending(s.vision);
    if Ringing(s.vision) {
      RingKept(s.vision, s'.vision);
    }
  }

  /** Where a client inside its pause or its native operation goes is allowed. */
  lemma MoveOk(s: State, t: nat, s': State)
    requires HostInv(s) && t in s.vision.clients && Operating(s, t, s')
    requires var pc := s.vision.clients[t].pc; pc.Entered? || pc.PauseAwake? || pc.Native?
    ensures t in s'.vision.clients
    ensures var from, to := s.vision.clients[t].pc, s'.vision.clients[t].pc;
      && s' == s.(vision := Goto(s.vision, t, to))
      && Counts(from) == Counts(to) && !IsStart(to) && !IsFinish(to) && !Rings(to)
    ensures ClientOk(s.link, s.ctl, s.vision, t, s'.vision.clients[t])
  {
    assert ClientOk(s.link, s.ctl, s.vision, t, s.vision.clients[t]);
  }

  lemma MoveKeeps(s: State, t: nat, to: ClientPc, s': State)
    requires HostInv(s) && t in s.vision.clients && s' == s.(vision := Goto(s.vision, t, to))
    requires var from := s.vision.clients[t].pc;
      && Counts(from) == Counts(to)
      && !IsStart(to) && !IsFinish(to) && !Rings(to) && !IsStart(from) && !IsFinish(from) && !Rings(from)
    requires ClientOk(s.link, s.ctl, s.vision, t, Client(to, s.vision.clients[t].exclusive))
    ensures HostInv(s')
  {
    var v, v' := s.vision, s'.vision;
    CountMove(v.clients, t, v'.clients[t]);
    assert StartPending(v') == StartPending(v) && StopPending(v') == StopPending(v);
    if Ringing(v) {
      RingKept(v, v');
    }
  }

  lemma ResumeKeeps(s: State, t: nat, s': State)
    requires HostInv(s) && t in s.vision.clients && Operating(s, t, s')
    requires var pc := s.vision.clients[t].pc; pc.Resuming? || pc.ResumeRing?
    ensures HostInv(s')
  {
    CountMove(s.vision.clients, t, s'.vision.clients[t]);
    assert Rings(s'.vision.clients[t].pc) || s'.link.sig.doorbell > 0;
  }

  lemma LeaveKeeps(s: State, t: nat, s': State)
    requires HostInv(s) && t in s.vision.clients && Operating(s, t, s')
    requires var pc := s.vision.clients[t].pc; pc.Leaving?
    ensures HostInv(s')
  {
    CountLeave(s.vision.clients, t);
    if Ringing(s.vision) {
      RingKept(s.vision, s'.vision);
    }
  }

  lemma BeginKeeps(s: State, t: nat, s': State)
    requires HostInv(s) && t in s.vision.clients && Begin(s, t, s')
    ensures HostInv(s')
  {
    if t in s'.vision.clients {
      CountMove(s.vision.clients, t, s'.vision.clients[t]);
    } else {
      CountLeave(s.vision.clients, t);
    }
    if Ringing(s.vision) && !Rings(s.vision.clients[t].pc) {
      RingKept(s.vision, s'.vision);
    }
  }

  lemma CloseJoinKeeps(s: State, t: nat, s': State)
    requires HostInv(s) && t in s.vision.clients && Finish(s, t, s') && !s.vision.clients[t].pc.CloseWait?
    ensures HostInv(s')
  {
    if t in s'.vision.clients {
      CountMove(s.vision.clients, t, s'.vision.clients[t]);
      assert Rings(s'.vision.clients[t].pc) || s'.link.sig.doorbell > 0;
    } else {
      CountLeave(s.vision.clients, t);
    }
  }

  lemma CloseWaitKeeps(s: State, t: nat, s': State)
    requires HostInv(s) && t in s.vision.clients && Finish(s, t, s') && s.vision.clients[t].pc.CloseWait?
    ensures HostInv(s')
  {
    if t in s'.vision.clients {
      CountMove(s.vision.clients, t, s'.vision.clients[t]);
    } else {
      CountLeave(s.vision.clients, t);
    }
    if Ringing(s.vision) {
      RingKept(s.vision, s'.vision);
    }
  }

  /** Every step keeps the invariant. */
  lemma StepKeeps(s: State, l: Label, s': State)
    requires Inv(s) && Step(s, l, s')
    ensures Inv(s')
  {
    match l
    case Capture(c) =>
      if s.link.ppc.PFinish? {
        CaptureReadKeeps(s.link, c, s'.link);
        ReadDoneKeeps(s, c, s');
      } else if Reading(s.link.ppc) {
        CaptureReadKeeps(s.link, c, s'.link);
        ReadingKeeps(s, c, s');
      } else {
        CaptureWaitKeeps(s.link, c, CommandOf(s.ctl), s'.link);
        WaitingKeeps(s, c, s');
      }
    case Stream(c) => ConsumerKeeps(s, c, s');
    case Call(t, call, created) => EnterKeeps(s, t, call, created, s');
    case Run(t) => InsideKeeps(s, t, s');
    case CloseDone(i) =>
      assert s'.link == s.link;
  }
  
  lemma ConsumerKeeps(s: State, c: Choice, s': State)
    requires Inv(s) && Consumer(s, c, s')
    ensures Inv(s')
  {
    if InNext(s.link.cpc) {
      StreamNextKeeps(s.link, c, s'.link);
      NextKeeps(s, c, s');
    } else if InClose(s.link.cpc) {
      StreamCloseKeeps(s.link, s.ctl.inFlight, s'.link);
      CloseKeeps(s, c, s');
    } else if !s.link.cpc.CIdle? {
      ReleaseKeeps(s, s');
    }
  }

  lemma EnterKeeps(s: State, t: nat, call: Call, created: bool, s': State)
    requires Inv(s) && Enter(s, t, call, created, s')
    ensures Inv(s')
  {
    match call
    case Operate(exclusive) => OperateKeeps(s, t, exclusive, s');
    case StartCapture => StartKeeps(s, t, created, s');
    case CloseVision => CloseVisionKeeps(s, t, s');
  }

  lemma RingKeepsLink(k: Link)
    requires LinkInv(k)
    ensures LinkInv(Ring(k))
  {
  }

  lemma InsideKeeps(s: State, t: nat, s': State)
    requires Inv(s) && Inside(s, t, s')
    ensures Inv(s')
  {
    var pc := s.vision.clients[t].pc;
    RingKeepsLink(s.link);
    if IsStart(pc) {
      BeginKeeps(s, t, s');
    } else if pc.CloseWait? {
      CloseWaitKeeps(s, t, s');
    } else if IsFinish(pc) {
      CloseJoinKeeps(s, t, s');
    } else if pc.Leaving? {
      LeaveKeeps(s, t, s');
    } else if pc.Resuming? || pc.ResumeRing? {
      ResumeKeeps(s, t, s');
    } else if pc.Pausing? {
      PauseKeeps(s, t, s');
    } else {
      MoveOk(s, t, s');
      MoveKeeps(s, t, s'.vision.clients[t].pc, s');
    }
  }

  /** A stream is being read, or has been started and not yet handed out. */
  predicate Open(s: State) {
    Streaming(s.link.cpc) || StartPending(s.vision)
  }

  /** Of the frames of one stream, those delivered come before those dropped,
      and nothing is dropped while the stream is read. */
  ghost predicate DropInv(s: State) {
    var l := s.link.log;
    && (forall j :: 0 <= j < |l.released| ==> l.released[j].reader <= l.stream)
    && (forall i, j :: 0 <= i < j < |l.released| && l.released[i].reader == l.released[j].reader ==>
          l.released[j].delivered ==> l.released[i].delivered)
    && (Open(s) ==> forall j :: 0 <= j < |l.released| && l.released[j].reader == l.stream ==> l.released[j].delivered)
  }

  /** What a step may do to the log of released slots: nothing, start a new
      stream, or add one slot, delivered only while the stream is read. */
  ghost predicate LogStep(s: State, s': State) {
    var a, b := s.link.log, s'.link.log;
    || (b.released == a.released && b.stream == a.stream && (Open(s') ==> Open(s)))
    || (b.released == a.released && b.stream == a.stream + 1)
    || (&& b.stream == a.stream && |b.released| == |a.released| + 1 && b.released[..|a.released|] == a.released
        && var last := b.released[|a.released|];
           last.reader == a.stream && (if last.delivered then Open(s) else !Open(s')))
  }

  lemma CaptureLog(s: State, c: Choice, s': State)
    requires HostInv(s) && Producer(s, c, s')
    ensures LogStep(s, s')
  {
  }

  lemma StreamLog(s: State, c: Choice, s': State)
    requires HostInv(s) && Consumer(s, c, s')
    ensures LogStep(s, s')
  {
  }

  lemma EnterLog(s: State, t: nat, call: Call, created: bool, s': State)
    requires HostInv(s) && Enter(s, t, call, created, s')
    ensures LogStep(s, s')
  {
  }

  lemma InsideLog(s: State, t: nat, s': State)
    requires HostInv(s) && Inside(s, t, s')
    ensures LogStep(s, s')
  {
    assert ClientOk(s.link, s.ctl, s.vision, t, s.vision.clients[t]);
  }

  lemma LogStepKeepsDrops(s: State, s': State)
    requires DropInv(s) && LogStep(s, s')
    ensures DropInv(s')
  {
  }

  lemma StepKeepsDrops(s: State, l: Label, s': State)
    requires Inv(s) && DropInv(s) && Step(s, l, s')
    ensures DropInv(s')
  {
    match l {
      case Capture(c) => CaptureLog(s, c, s');
      case Stream(c) => StreamLog(s, c, s');
      case Call(t, call, created) => EnterLog(s, t, call, created, s');
      case Run(t) => InsideLog(s, t, s');
      case CloseDone(i) =>
    }
    LogStepKeepsDrops(s, s');
  }

  // ------------------------------------------------------------ every run

  /** `run` is a run of the system from its initial state, by the steps `labels`. */
  ghost predicate IsRun(run: seq<State>, labels: seq<Label>) {
    && |run| == |labels| + 1 && Init(run[0])
    && forall i :: 0 <= i < |labels| ==> Step(run[i], labels[i], run[i + 1])
  }

  lemma {:induction false} RunInv(run: seq<State>, labels: seq<Label>, i: nat)
    requires IsRun(run, labels) && i < |run|
    ensures Inv(run[i]) && DropInv(run[i])
  {
    if i == 0 {
      assert Counted(run[0].vision.clients) == {};
    } else {
      RunInv(run, labels, i - 1);
      StepKeeps(run[i - 1], labels[i - 1], run[i]);
      StepKeepsDrops(run[i - 1], labels[i - 1], run[i]);
    }
  }

  /** Somebody is at a step whose next action rings the doorbell: the reader
      after it freed a slot, or start, resume or destroy after they changed a
      guarded field. */
  ghost predicate DoorbellComing(s: State) {
    || (s.link.sig.producerWaiting && (s.link.cpc.CPeek? || s.link.cpc.CDropPeek?))
    || s.link.cpc.CRing? || s.link.cpc.CDropRing? || s.link.cpc.CDestroyRing? || Ringing(s.vision)
  }

  /** The capture thread is at a step whose next action rings ready_fd. */
  predicate ReadyComing(s: State) {
    s.link.ppc.PRing? || (s.link.ppc.PExchange? && s.link.sig.consumerWaiting)
  }

  /** In every state of every run: a reader asleep although its slot is READY
      has a signal or a ring on the way; so has a capture thread asleep although
      its slot is FREE, although it may run, or although it must exit; and
      whoever waits for the read in flight waits for one. */
  lemma NoLostWakeup(run: seq<State>, labels: seq<Label>, i: nat)
    requires IsRun(run, labels) && i < |run|
    ensures var s := run[i]; var k := s.link;
      && (k.cpc.CSleep? && At(k.buf, k.buf.next).ready ==> k.sig.ready > 0 || ReadyComing(s))
      && (k.ppc.PWaitSlot? && !At(k.buf, k.buf.produce).ready ==> k.sig.doorbell > 0 || DoorbellComing(s))
      && (k.ppc.PWaitIdle? && s.ctl.running && s.ctl.paused == 0 ==> k.sig.doorbell > 0 || DoorbellComing(s))
      && (Blocked(k.ppc) && s.ctl.stopping ==> k.sig.doorbell > 0 || DoorbellComing(s))
      && (k.cpc.CStopAsleep? ==> Reading(k.ppc))
      && (forall t :: t in s.vision.clients && s.vision.clients[t].pc.PauseAsleep? ==> Reading(k.ppc))
  {
    RunInv(run, labels, i);
    forall t | t in run[i].vision.clients && run[i].vision.clients[t].pc.PauseAsleep? ensures Reading(run[i].link.ppc) {
      assert ClientOk(run[i].link, run[i].ctl, run[i].vision, t, run[i].vision.clients[t]);
    }
  }

  /** The two sides never sleep on each other: with the reader asleep and the
      capture thread waiting for a slot, one of them can be woken now or the
      other side's ring is on the way. */
  lemma NoMutualSleep(run: seq<State>, labels: seq<Label>, i: nat)
    requires IsRun(run, labels) && i < |run|
    requires run[i].link.cpc.CSleep? && run[i].link.ppc.PWaitSlot?
    ensures run[i].link.sig.ready > 0 || run[i].link.sig.doorbell > 0
  {
    RunInv(run, labels, i);
  }

  /** In every state of every run the slots are the queue of frames produced
      and not released: each side's index is its count modulo two, releases
      repeat the frames produced, in order, to the stream they were read for,
      and a stream's dropped frames come after all it delivered. */
  lemma ExactFifo(run: seq<State>, labels: seq<Label>, i: nat)
    requires IsRun(run, labels) && i < |run|
    ensures var k := run[i].link; var np, nr := |k.log.produced|, |k.log.released|;
      && nr <= np <= nr + 2
      && (!k.ppc.PExchange? ==> k.buf.produce == Odd(np))
      && (!k.cpc.CPeek? && !k.cpc.CDropPeek? ==> k.buf.next == Odd(nr))
      && (forall j :: nr <= j < np ==> At(k.buf, Odd(j)) == Slot(true, Whole(k.log.produced[j])))
      && (forall j :: 0 <= j < nr ==>
            k.log.released[j].frame == k.log.produced[j] && k.log.released[j].reader == k.log.produced[j].stream)
      && (forall a, b :: 0 <= a < b < nr && k.log.released[a].reader == k.log.released[b].reader ==>
            k.log.released[b].delivered ==> k.log.released[a].delivered)
  {
    RunInv(run, labels, i);
  }

  /** No step writes the bytes of a READY slot, and the reader copies a slot
      only while it is READY and holds the oldest frame not yet released. */
  lemma SlotExclusive(run: seq<State>, labels: seq<Label>, i: nat, at: bool)
    requires IsRun(run, labels) && i < |labels|
    ensures var b, b' := run[i].link.buf, run[i + 1].link.buf;
      At(b, at).data != At(b', at).data ==> !At(b, at).ready && !At(b', at).ready
    ensures var k := run[i].link; k.cpc.CTake? || k.cpc.CFree? ==>
      |k.log.released| < |k.log.produced|
          && At(k.buf, k.buf.next) == Slot(true, Whole(k.log.produced[|k.log.released|]))
  {
    RunInv(run, labels, i);
    WritesFree(run[i], labels[i], run[i + 1], at);
  }

  lemma WritesFree(s: State, l: Label, s': State, at: bool)
    requires LinkInv(s.link) && Step(s, l, s')
    ensures At(s.link.buf, at).data != At(s'.link.buf, at).data ==>
      !At(s.link.buf, at).ready && !At(s'.link.buf, at).ready
  {
  }

  /** While a goroutine runs the native operation that pauseCaptureLocked
      protects, the capture thread is not inside a native read, whoever else
      pauses, resumes, starts, stops or closes meanwhile. */
  lemma Exclusion(run: seq<State>, labels: seq<Label>, i: nat, t: nat)
    requires IsRun(run, labels) && i < |run|
    requires t in run[i].vision.clients && run[i].vision.clients[t].pc.Native?
    ensures !Reading(run[i].link.ppc)
  {
    RunInv(run, labels, i);
    var s := run[i];
    assert ClientOk(s.link, s.ctl, s.vision, t, s.vision.clients[t]);
  }

  /** When Close forgets its stream, both slots are FREE, every frame produced
      was released, both indices agree and the thread neither runs nor reads. */
  lemma CloseLeavesClean(run: seq<State>, labels: seq<Label>, i: nat)
    requires IsRun(run, labels) && i < |labels|
    requires run[i].vision.capture.Some? && run[i + 1].vision.capture.None?
    ensures var k := run[i + 1].link;
      && !k.buf.zero.ready && !k.buf.one.ready && k.buf.produce == k.buf.next
      && |k.log.produced| == |k.log.released| && !Reading(k.ppc) && !run[i + 1].ctl.running
  {
    RunInv(run, labels, i);
    RunInv(run, labels, i + 1);
    ReleasedByReader(run[i], labels[i], run[i + 1]);
  }

  /** Only the reader, at its release, forgets a stream. */
  lemma ReleasedByReader(s: State, l: Label, s': State)
    requires HostInv(s) && Step(s, l, s') && s.vision.capture.Some? && s'.vision.capture.None?
    ensures s.link.cpc.CRelease? && l.Stream?
  {
  }

  /** The worker's memory outlives its users: once it is gone the thread has
      exited, no stream is open and no goroutine is inside it. */
  lemma WorkerOutlivesUsers(run: seq<State>, labels: seq<Label>, i: nat, t: nat)
    requires IsRun(run, labels) && i < |run| && run[i].vision.worker.Gone?
    ensures run[i].link.ppc.PExited? && run[i].link.cpc.CNone?
    ensures t in run[i].vision.clients ==>
      var pc := run[i].vision.clients[t].pc; !pc.Pausing? && !Counts(pc) && !pc.ResumeRing? && !IsStart(pc)
  {
    RunInv(run, labels, i);
    var s := run[i];
    if t in s.vision.clients {
      assert ClientOk(s.link, s.ctl, s.vision, t, s.vision.clients[t]);
    }
  }

  // ------------------------------------------------- the life of the worker

  /** The step forgets a stream that recorded a failure. */
  predicate FailedRelease(s: State, s': State) {
    s.vision.capture.Some? && s'.vision.capture.None? && s.vision.failed
  }

  /** The step calls StartVideoCapture when no worker could be created yet, and
      fails to create one. */
  predicate FailedCreation(s: State, l: Label) {
    l.Call? && l.call.StartCapture? && !l.created && !s.vision.closed && s.vision.worker.Absent?
  }

  /** What decides whether the worker may be used. */
  datatype Life = Life(worker: Worker, enabled: bool, closed: bool, retiring: bool)

  function LifeOf(s: State): Life {
    Life(s.vision.worker, s.vision.enabled, s.vision.closed, Retiring(s.link.cpc))
  }

  /** What a step can do to that: only a release after a failure begins to
      retire the worker, and only such a release or CloseVision ends it. */
  ghost predicate LifeStep(s: State, l: Label, s': State) {
    var a, b := LifeOf(s), LifeOf(s');
    if FailedRelease(s, s') then a.worker.Live? && !a.retiring && b == a.(retiring := true)
    else if FailedCreation(s, l) then b == a.(enabled := false)
    else
      || b == a
      || b == a.(closed := true)
      || (a.worker.Absent? && a.enabled && !a.closed && b == a.(worker := Live))
      || (a.retiring && b == a.(worker := Gone, enabled := false, retiring := false))
      || (a.worker.Live? && !a.retiring && a.closed && b == a.(worker := Gone))
  }

  lemma LifeSteps(s: State, l: Label, s': State)
    requires HostInv(s) && Step(s, l, s')
    ensures LifeStep(s, l, s')
  {
    match l {
      case Capture(c) => CaptureLife(s, c, s');
      case Stream(c) => StreamLife(s, c, s');
      case Call(t, call, created) =>
      case Run(t) => InsideLife(s, t, s');
      case CloseDone(i) =>
    }
  }

  lemma CaptureLife(s: State, c: Choice, s': State)
    requires HostInv(s) && Producer(s, c, s')
    ensures LifeOf(s') == LifeOf(s) && s'.vision.capture == s.vision.capture
  {
  }

  lemma StreamLife(s: State, c: Choice, s': State)
    requires HostInv(s) && Consumer(s, c, s')
    ensures LifeStep(s, Stream(c), s')
  {
  }

  lemma InsideLife(s: State, t: nat, s': State)
    requires HostInv(s) && Inside(s, t, s')
    ensures LifeStep(s, Run(t), s')
  {
    assert ClientOk(s.link, s.ctl, s.vision, t, s.vision.clients[t]);
  }

  /** A stream recorded a failure and was closed before state `i`. */
  predicate FailedBefore(run: seq<State>, i: nat)
    requires i < |run|
  {
    i > 0 && (FailedBefore(run, i - 1) || FailedRelease(run[i - 1], run[i]))
  }

  predicate UncreatedBefore(run: seq<State>, labels: seq<Label>, i: nat)
    requires i < |run| && i <= |labels|
  {
    i > 0 && (UncreatedBefore(run, labels, i - 1) || FailedCreation(run[i - 1], labels[i - 1]))
  }

  lemma {:induction false} LifeInv(run: seq<State>, labels: seq<Label>, i: nat)
    requires IsRun(run, labels) && i < |run|
    ensures var a := LifeOf(run[i]);
      && (FailedBefore(run, i) <==> a.retiring || (a.worker.Gone? && !a.enabled))
      && (UncreatedBefore(run, labels, i) ==> a.worker.Absent? && !a.enabled)
      && (a.enabled <==> run[0].vision.enabled && !UncreatedBefore(run, labels, i)
                         && (FailedBefore(run, i) ==> a.retiring))
      && (a.worker.Live? ==> a.enabled)
      && (a.worker.Gone? ==> a.closed || FailedBefore(run, i))
      && (a.retiring ==> a.worker.Live?)
  {
    if i > 0 {
      LifeInv(run, labels, i - 1);
      RunInv(run, labels, i - 1);
      assert Step(run[i - 1], labels[i - 1], run[i - 1 + 1]);
      LifeSteps(run[i - 1], labels[i - 1], run[i]);
    }
  }

  /** Over every run: StartVideoCapture gets the native worker if and only if
      vision is open, the previous stream was closed, and neither a stream
      recorded a failure nor the creation of the worker failed, earlier or now. */
  lemma StartExactly(run: seq<State>, labels: seq<Label>, i: nat)
    requires IsRun(run, labels) && i < |labels| && labels[i].Call? && labels[i].call.StartCapture?
    ensures labels[i].t in run[i + 1].vision.clients <==>
      && !run[i].vision.closed && run[i].vision.capture.None? && run[0].vision.enabled
      && !FailedBefore(run, i) && !UncreatedBefore(run, labels, i) && !FailedCreation(run[i], labels[i])
    ensures labels[i].t in run[i + 1].vision.clients ==>
      run[i + 1].vision.worker.Live? && run[i + 1].vision.clients[labels[i].t].pc.Starting?
  {
    RunInv(run, labels, i);
    LifeInv(run, labels, i);
    assert Step(run[i], labels[i], run[i + 1]);
  }

  /** An ordinary Close keeps the worker for the next stream; a Close after a
      failure goes on to retire it. */
  lemma ReleaseExactly(run: seq<State>, labels: seq<Label>, i: nat)
    requires IsRun(run, labels) && i < |labels|
    requires run[i].vision.capture.Some? && run[i + 1].vision.capture.None?
    ensures run[i].vision.worker.Live? && run[i + 1].vision.worker.Live? && run[i + 1].vision.enabled
    ensures run[i + 1].ctl == run[i].ctl && !run[i].ctl.stopping
    ensures run[i + 1].link.cpc == if run[i].vision.failed then CDestroy else CNone
  {
    RunInv(run, labels, i);
    LifeInv(run, labels, i);
    LifeInv(run, labels, i + 1);
    ReleasedByReader(run[i], labels[i], run[i + 1]);
  }

  /** The retirement ends only with the thread joined and the worker disabled,
      and until then nobody else is inside KvmVision. */
  lemma RetiredExactly(run: seq<State>, labels: seq<Label>, i: nat)
    requires IsRun(run, labels) && i < |labels| && Retiring(run[i].link.cpc)
    ensures run[i].vision.worker.Live? && forall t :: t in run[i].vision.clients ==> !Holds(run[i].vision.clients[t])
    ensures Retiring(run[i + 1].link.cpc) ||
            (run[i + 1].link.cpc.CNone? && run[i + 1].link.ppc.PExited? && run[i + 1].vision.worker.Gone?
             && !run[i + 1].vision.enabled)
  {
    RunInv(run, labels, i);
    RunInv(run, labels, i + 1);
    LifeInv(run, labels, i);
    LifeInv(run, labels, i + 1);
    assert Step(run[i], labels[i], run[i + 1]);
    var s := run[i];
    forall t | t in s.vision.clients ensures !Holds(s.vision.clients[t]) {
      assert ClientOk(s.link, s.ctl, s.vision, t, s.vision.clients[t]);
    }
  }

  /** The worker is gone only after a recorded failure or CloseVision, and a
      goroutine returns from CloseVision only when there is none. */
  lemma GoneExactly(run: seq<State>, labels: seq<Label>, i: nat, t: nat)
    requires IsRun(run, labels) && i < |run|
    ensures run[i].vision.worker.Gone? ==> run[i].vision.closed || FailedBefore(run, i)
    ensures i < |labels| && Returns(run[i], run[i + 1], t) && IsFinish(run[i].vision.clients[t].pc) ==>
      run[i + 1].vision.closed && !run[i + 1].vision.worker.Live?
  {
    LifeInv(run, labels, i);
    RunInv(run, labels, i);
    if i < |labels| && Returns(run[i], run[i + 1], t) {
      var s := run[i];
      assert Step(s, labels[i], run[i + 1]) && ClientOk(s.link, s.ctl, s.vision, t, s.vision.clients[t]);
      ReturnsItself(s, labels[i], run[i + 1], t);
    }
  }

  predicate Returns(s: State, s': State, t: nat) {
    t in s.vision.clients && t !in s'.vision.clients
  }

  /** Nobody but itself takes a goroutine out of KvmVision. */
  lemma ReturnsItself(s: State, l: Label, s': State, t: nat)
    requires Step(s, l, s') && Returns(s, s', t)
    ensures l == Run(t)
  {
    match l {
      case Capture(c) =>
      case Stream(c) => StreamClients(s, c, s');
      case Call(u, call, created) =>
      case Run(u) => InsideClients(s, u, s');
      case CloseDone(j) =>
    }
  }

  lemma InsideClients(s: State, t: nat, s': State)
    requires Inside(s, t, s')
    ensures s.vision.clients.Keys - {t} <= s'.vision.clients.Keys
  {
  }

  lemma StreamClients(s: State, c: Choice, s': State)
    requires Consumer(s, c, s')
    ensures s'.vision.clients == s.vision.clients
  {
  }

  /** A failure is recorded exactly by a wait that broke for another reason than
      Stop, and forgotten only by the next stream. */
  lemma RecordedExactly(run: seq<State>, labels: seq<Label>, i: nat)
    requires IsRun(run, labels) && i < |labels|
    ensures run[i].link.cpc.CAbort? && labels[i].Stream? ==> run[i + 1].vision.failed == labels[i].choice.flag
    ensures !(run[i].link.cpc.CAbort? && labels[i].Stream?) && run[i + 1].vision.failed != run[i].vision.failed ==>
      run[i].vision.failed && run[i].vision.capture.None? && run[i + 1].vision.capture.Some?
  {
    RunInv(run, labels, i);
    if !(run[i].link.cpc.CAbort? && labels[i].Stream?) {
      RecordedStep(run[i], labels[i], run[i + 1]);
    }
  }

  lemma RecordedStep(s: State, l: Label, s': State)
    requires HostInv(s) && Step(s, l, s') && !(s.link.cpc.CAbort? && l.Stream?)
    ensures s'.vision.failed != s.vision.failed ==> s.vision.failed && s.vision.capture.None? && s'.vision.capture.Some?
  {
    if l.Run? {
      assert ClientOk(s.link, s.ctl, s.vision, l.t, s.vision.clients[l.t]);
    }
  }

  /** An operation runs, and the first CloseVision closes, exactly while vision
      is open; nothing opens it again. */
  lemma CallsExactly(run: seq<State>, labels: seq<Label>, i: nat)
    requires IsRun(run, labels) && i < |labels|
    ensures labels[i].Call? && !labels[i].call.StartCapture? ==>
      (labels[i].t in run[i + 1].vision.clients <==> !run[i].vision.closed)
    ensures run[i + 1].vision.closed <==> run[i].vision.closed || (labels[i].Call? && labels[i].call.CloseVision?)
  {
    RunInv(run, labels, i);
    LifeSteps(run[i], labels[i], run[i + 1]);
    ClosedStep(run[i], labels[i], run[i + 1]);
  }

  lemma ClosedStep(s: State, l: Label, s': State)
    requires Step(s, l, s')
    ensures s'.vision.closed <==> s.vision.closed || (l.Call? && l.call.CloseVision?)
  {
  }

  /** A stream that recorded a failure takes no more frames. */
  lemma {:induction false} FailedStops(run: seq<State>, labels: seq<Label>, i: nat)
    requires IsRun(run, labels) && i < |run|
    ensures run[i].vision.failed ==> !InNext(run[i].link.cpc)
    ensures i < |labels| && run[i].vision.failed ==> !Delivers(run[i], run[i + 1])
  {
    if i > 0 {
      FailedStops(run, labels, i - 1);
      FailedStep(run[i - 1], labels[i - 1], run[i]);
    }
    if i < |labels| && run[i].vision.failed && Delivers(run[i], run[i + 1]) {
      OnlyTakeDelivers(run[i], labels[i], run[i + 1]);
    }
  }

  /** The step gives a frame to the reader. */
  predicate Delivers(s: State, s': State) {
    var a, b := s.link.log.released, s'.link.log.released;
    |b| > |a| && b[|b| - 1].delivered
  }

  lemma FailedStep(s: State, l: Label, s': State)
    requires Step(s, l, s') && (s.vision.failed ==> !InNext(s.link.cpc))
    ensures s'.vision.failed ==> !InNext(s'.link.cpc)
  {
  }

  lemma OnlyTakeDelivers(s: State, l: Label, s': State)
    requires Step(s, l, s') && Delivers(s, s')
    ensures InNext(s.link.cpc)
  {
  }

  // ------------------------------------------------------------- nobody is stuck

  /** The capture thread can take a step, alone. */
  ghost predicate ThreadMoves(s: State) {
    exists c, s' :: Producer(s, c, s')
  }

  ghost predicate ReaderMoves(s: State) {
    exists c, s' :: Consumer(s, c, s')
  }

  ghost predicate ClientMoves(s: State, t: nat) {
    exists s' :: Inside(s, t, s')
  }

  /** What a reader inside a call waits for: the worker's lock, the read in
      flight, the vision mutex, or the end of the thread. */
  predicate ReaderWaits(s: State) {
    var k := s.link;
    || k.cpc.CNone? || k.cpc.CStopAsleep?
    || ((k.cpc.CStop? || k.cpc.CStopAwake? || k.cpc.CDestroy?) && LockHeld(k.ppc))
    || (k.cpc.CRelease? && !MutexFree(s.vision))
    || (k.cpc.CJoin? && !k.ppc.PExited?)
  }

  /** And what a goroutine inside KvmVision waits for: also the end of a stream. */
  predicate ClientWaits(s: State, t: nat)
    requires t in s.vision.clients
  {
    var k, pc := s.link, s.vision.clients[t].pc;
    || pc.PauseAsleep?
    || ((pc.Pausing? || pc.PauseAwake? || pc.Resuming? || pc.Starting? || pc.CloseDestroy?) && LockHeld(k.ppc))
    || (pc.CloseWait? && !(MutexFree(s.vision) && (pc.stream.Some? ==> pc.stream.value in s.vision.done)))
    || (pc.CloseJoin? && !k.ppc.PExited?)
  }

  /** The thread can always go on, until it has exited. */
  lemma ThreadGoesOn(s: State)
    ensures ThreadMoves(s) <==> !s.link.ppc.PAbsent? && !s.link.ppc.PExited?
  {
    var k := s.link;
    var slot := At(k.buf, k.buf.produce);
    if Reading(k.ppc) {
      ThreadReads(s);
    } else if !k.ppc.PAbsent? && !k.ppc.PExited? {
      var c, full, command := Choice(true, 0), slot.ready, CommandOf(s.ctl);
      var pc := match k.ppc
        case PTop => if command.Exit? then PExited else if command.Rest? then PWaitIdle else PCheck
        case PCheck => if full then PArm else PPace
        case PArm => PRecheck
        case PRecheck => if full then PWaitSlot else PDisarm
        case PDisarm => PTop
        case PWaitSlot => PRelock
        case PRelock => PDisarm
        case PPace => PWaitDeadline
        case PLock => PTop
        case _ => PLock;
      var waiting := if k.ppc.PArm? then true else if k.ppc.PDisarm? then false else k.sig.producerWaiting;
      var k' := k.(ppc := pc, sig := k.sig.(producerWaiting := waiting));
      assert CaptureWait(k, c, command, k');
      assert Producer(s, c, s.(link := k'));
    }
  }

  lemma ThreadReads(s: State)
    requires Reading(s.link.ppc)
    ensures ThreadMoves(s)
  {
    var k, c := s.link, Choice(true, 0);
    var slot := At(k.buf, k.buf.produce);
    match k.ppc
    case PRead => assert Producer(s, c, s.(link :=
                                           k.(buf := Put(k.buf, k.buf.produce, slot.(data := Torn)), ppc := PFill)));
    case PFill =>
      var full := slot.(data := Whole(Frame(k.log.stream, 0)));
      assert Producer(s, c, s.(link := k.(buf := Put(k.buf, k.buf.produce, full), ppc := PPublish)));
    case PPublish =>
      assert Producer(s, c, s.(link := k.(buf := Put(k.buf, k.buf.produce, slot.(ready := true)),
        log := k.log.(produced := k.log.produced + [FrameIn(slot)]), ppc := PExchange)));
    case PExchange =>
      assert Producer(s, c, s.(link := k.(buf := k.buf.(produce := !k.buf.produce),
        sig := k.sig.(consumerWaiting := false), ppc := if k.sig.consumerWaiting then PRing else PFinish)));
    case PRing =>
      assert Producer(s, c, s.(link := k.(sig := k.sig.(ready := k.sig.ready + 1), ppc := PFinish)));
    case PFinish =>
      assert Producer(s, c, State(k.(cpc := if k.cpc.CStopAsleep? then CStopAwake else k.cpc, ppc := PTop),
        s.ctl.(inFlight := false), s.vision.(clients := WakeClients(s.vision.clients))));
  }

  /** A reader inside a call moves, or waits for one of these. */
  lemma ReaderGoesOn(s: State)
    ensures ReaderMoves(s) <==> !ReaderWaits(s)
  {
    var k, v, c := s.link, s.vision, Choice(true, 0);
    if k.cpc.CIdle? {
      assert Consumer(s, c, s.(link := k.(cpc := CStop)));
    } else if InNext(k.cpc) {
      NextGoesOn(s);
    } else if InClose(k.cpc) {
      CloseGoesOn(s);
    } else if !ReaderWaits(s) {
      match k.cpc
      case CRelease =>
        assert StreamRelease(s, s.(link := k.(cpc := CDestroy), vision := v.(capture := None, writer := Reader)))
            || StreamRelease(s, s.(link := k.(cpc := CNone),
                                   vision := v.(capture := None, finishing := v.finishing + {k.log.stream})));
        assert exists s' :: StreamRelease(s, s') && Consumer(s, c, s');
      case CDestroy => assert Consumer(s, c, s.(link := k.(cpc := CDestroyRing), ctl := s.ctl.(stopping := true)));
      case CDestroyRing => assert Consumer(s, c, s.(link := Ring(k).(cpc := CJoin)));
      case CJoin =>
        assert Consumer(s, c, s.(link := k.(cpc := CNone),
          vision := v.(worker := Gone, enabled := false, writer := NoWriter,
                       finishing := v.finishing + {k.log.stream})));
    }
  }

  lemma NextGoesOn(s: State)
    requires InNext(s.link.cpc)
    ensures ReaderMoves(s)
  {
    var k, v, c := s.link, s.vision, Choice(true, 0);
    var full := At(k.buf, k.buf.next).ready;
    var k' := match k.cpc
      case CCheck => k.(cpc := if full then CTake else CArm)
      case CArm => k.(sig := k.sig.(consumerWaiting := true), cpc := CRecheck)
      case CRecheck => k.(cpc := if full then CDisarm else CSleep)
      case CSleep => k.(cpc := CCheck)
      case CDisarm => k.(sig := k.sig.(consumerWaiting := false), cpc := CTake)
      case CAbort => k.(sig := k.sig.(consumerWaiting := false), cpc := CIdle)
      case CTake => k.(cpc := CFree)
      case CFree => Freed(k, true).(cpc := CPeek)
      case CPeek => k.(buf := k.buf.(next := !k.buf.next), cpc := if k.sig.producerWaiting then CRing else CIdle)
      case _ => Ring(k).(cpc := CIdle);
    assert StreamNext(k, c, k');
    assert Consumer(s, c, s.(link := k', vision := v.(failed := if k.cpc.CAbort? then true else v.failed)));
  }

  function Freed(k: Link, delivered: bool): Link {
    var slot := At(k.buf, k.buf.next);
    k.(buf := Put(k.buf, k.buf.next, slot.(ready := false)),
       log := k.log.(released := k.log.released + [Release(FrameIn(slot), k.log.stream, delivered)]))
  }

  lemma CloseGoesOn(s: State)
    requires InClose(s.link.cpc)
    ensures ReaderMoves(s) <==> !ReaderWaits(s)
  {
    var k, c := s.link, Choice(true, 0);
    if !ReaderWaits(s) {
      var full := At(k.buf, k.buf.next).ready;
      var k' := match k.cpc
        case CDiscard => k.(cpc := if full then CDropFree else CClear)
        case CDropFree => Freed(k, false).(cpc := CDropPeek)
        case CDropPeek =>
          k.(buf := k.buf.(next := !k.buf.next), cpc := if k.sig.producerWaiting then CDropRing else CDiscard)
        case CDropRing => Ring(k).(cpc := CDiscard)
        case CClear => k.(sig := k.sig.(consumerWaiting := false), cpc := CRelease)
        case _ => k.(cpc := if s.ctl.inFlight then CStopAsleep else CDiscard);
      assert StreamClose(k, s.ctl.inFlight, k');
      assert Consumer(s, c, s.(link := k', ctl := s.ctl.(running := s.ctl.running && !k.cpc.CStop?)));
    }
  }

  /** A goroutine inside KvmVision moves, or waits for one of these. */
  lemma ClientGoesOn(s: State, t: nat)
    requires t in s.vision.clients
    ensures ClientMoves(s, t) <==> !ClientWaits(s, t)
  {
    var k, v, ctl := s.link, s.vision, s.ctl;
    var pc := v.clients[t].pc;
    if !ClientWaits(s, t) {
      if IsStart(pc) {
        BeginGoesOn(s, t);
      } else if IsFinish(pc) {
        FinishGoesOn(s, t);
      } else {
        var paused := if pc.Pausing? then ctl.paused + 1 else if pc.Resuming? && ctl.paused > 0 then ctl.paused - 1
                      else ctl.paused;
        var to := match pc
          case Entered => if v.capture.None? then Native(false) else Pausing
          case Native(counted) => if counted then Resuming else Leaving
          case Resuming => ResumeRing
          case ResumeRing => Leaving
          case _ => if ctl.inFlight then PauseAsleep else Native(true);
        var s' := State(if pc.ResumeRing? then Ring(k) else k, ctl.(paused := paused),
                        if pc.Leaving? then Leave(v, t) else Goto(v, t, to));
        assert Operating(s, t, s') && Inside(s, t, s');
      }
    }
  }

  lemma BeginGoesOn(s: State, t: nat)
    requires t in s.vision.clients && IsStart(s.vision.clients[t].pc) && !ClientWaits(s, t)
    ensures ClientMoves(s, t)
  {
    var k, v, ctl := s.link, s.vision, s.ctl;
    match v.clients[t].pc
    case Starting =>
      assert Inside(s, t, State(k.(log := k.log.(stream := k.log.stream + 1)), ctl.(running := true),
                                Goto(v, t, StartRing)));
    case StartRing => assert Inside(s, t, s.(vision := Goto(v, t, StartDone), link := Ring(k)));
    case StartDone =>
      assert Inside(s, t, s.(vision := Leave(v, t).(capture := Some(k.log.stream), failed := false),
                             link := k.(cpc := CIdle)));
  }

  lemma FinishGoesOn(s: State, t: nat)
    requires t in s.vision.clients && IsFinish(s.vision.clients[t].pc) && !ClientWaits(s, t)
    ensures ClientMoves(s, t)
  {
    var k, v, ctl := s.link, s.vision, s.ctl;
    match v.clients[t].pc
    case CloseWait(_) =>
      var v' := if v.worker.Live? then Goto(v, t, CloseDestroy).(writer := Thread(t))
          else v.(clients := v.clients - {t});
      assert Inside(s, t, s.(vision := v'));
    case CloseDestroy => assert Inside(s, t, s.(vision := Goto(v, t, CloseRing), ctl := ctl.(stopping := true)));
    case CloseRing => assert Inside(s, t, s.(vision := Goto(v, t, CloseJoin), link := Ring(k)));
    case CloseJoin => assert Inside(s, t, s.(vision := Leave(v, t).(worker := Gone)));
  }

  /** A stream that was handed out is read, being closed, or closed. */
  ghost predicate HandedInv(s: State) {
    var k, v := s.link, s.vision;
    && (k.cpc.CNone? && !StartPending(v) && k.log.stream > 0 ==> k.log.stream in v.finishing || k.log.stream in v.done)
    && (!k.cpc.CNone? || StartPending(v) ==> k.log.stream > 0)
    && (forall t :: t in v.clients && v.clients[t].pc.CloseWait? && v.clients[t].pc.stream.Some? ==> k.log.stream > 0)
  }

  /** Nobody waits in vain, in any state of any run: if the reader is inside a
      call or a goroutine inside KvmVision, then one of them can move, or a Close
      can signal its end, or the capture thread is inside its lock or its read,
      or is to exit and has not yet. In the latter cases the thread can move. */
  lemma NeverStuck(run: seq<State>, labels: seq<Label>, i: nat)
    requires IsRun(run, labels) && i < |run|
    requires !run[i].link.cpc.CNone? || run[i].vision.clients != map[]
    ensures var s := run[i];
      || ReaderMoves(s) || (exists t :: t in s.vision.clients && ClientMoves(s, t)) || s.vision.finishing != {}
      || (ThreadMoves(s) && (LockHeld(s.link.ppc) || Reading(s.link.ppc) || s.ctl.stopping))
  {
    RunInv(run, labels, i);
    HandedRun(run, labels, i);
    var s := run[i];
    ThreadGoesOn(s);
    ReaderGoesOn(s);
    forall t | t in s.vision.clients ensures ClientMoves(s, t) <==> !ClientWaits(s, t) {
      ClientGoesOn(s, t);
    }
    if !LockHeld(s.link.ppc) && !Reading(s.link.ppc) && !(s.ctl.stopping && ThreadMoves(s)) {
      SomebodyMoves(s);
    }
  }

  lemma SomebodyMoves(s: State)
    requires Inv(s) && HandedInv(s) && (!s.link.cpc.CNone? || s.vision.clients != map[])
    requires !LockHeld(s.link.ppc) && !Reading(s.link.ppc)
    requires s.ctl.stopping ==> s.link.ppc.PExited?
    ensures !ReaderWaits(s) || (exists t :: t in s.vision.clients && !ClientWaits(s, t)) || s.vision.finishing != {}
  {
    var v := s.vision;
    assert forall t :: t in v.clients ==> ClientOk(s.link, s.ctl, v, t, v.clients[t]);
    if ReaderWaits(s) && forall t :: t in v.clients ==> ClientWaits(s, t) {
      assert forall t :: t in v.clients ==> v.clients[t].pc.CloseWait?;
      assert MutexFree(v);
      assert s.link.cpc.CNone?;
      var t :| t in v.clients;
    }
  }

  lemma {:induction false} HandedRun(run: seq<State>, labels: seq<Label>, i: nat)
    requires IsRun(run, labels) && i < |run|
    ensures HandedInv(run[i])
  {
    if i > 0 {
      HandedRun(run, labels, i - 1);
      RunInv(run, labels, i - 1);
      HandedStep(run[i - 1], labels[i - 1], run[i]);
    }
  }

  lemma HandedStep(s: State, l: Label, s': State)
    requires Inv(s) && HandedInv(s) && Step(s, l, s')
    ensures HandedInv(s')
  {
    match l {
      case Capture(c) => HandedCapture(s, c, s');
      case Stream(c) => HandedStream(s, c, s');
      case Call(t, call, created) => HandedEnter(s, t, call, created, s');
      case Run(t) => HandedInside(s, t, s');
      case CloseDone(i) =>
    }
  }

  lemma HandedCapture(s: State, c: Choice, s': State)
    requires Inv(s) && HandedInv(s) && Producer(s, c, s')
    ensures HandedInv(s')
  {
  }

  lemma HandedStream(s: State, c: Choice, s': State)
    requires Inv(s) && HandedInv(s) && Consumer(s, c, s')
    ensures HandedInv(s')
  {
  }

  lemma HandedEnter(s: State, t: nat, call: Call, created: bool, s': State)
    requires Inv(s) && HandedInv(s) && Enter(s, t, call, created, s')
    ensures HandedInv(s')
  {
  }

  lemma HandedInside(s: State, t: nat, s': State)
    requires Inv(s) && HandedInv(s) && Inside(s, t, s')
    ensures HandedInv(s')
  {
    assert ClientOk(s.link, s.ctl, s.vision, t, s.vision.clients[t]);
    var pc := s.vision.clients[t].pc;
    if IsStart(pc) {
      HandedBegin(s, t, s');
    } else if IsFinish(pc) {
      HandedFinish(s, t, s');
    } else {
      HandedOperating(s, t, s');
    }
  }

  lemma HandedBegin(s: State, t: nat, s': State)
    requires Inv(s) && HandedInv(s) && t in s.vision.clients && Begin(s, t, s')
    ensures HandedInv(s')
  {
    assert ClientOk(s.link, s.ctl, s.vision, t, s.vision.clients[t]);
  }

  lemma HandedFinish(s: State, t: nat, s': State)
    requires Inv(s) && HandedInv(s) && t in s.vision.clients && Finish(s, t, s')
    ensures HandedInv(s')
  {
    assert ClientOk(s.link, s.ctl, s.vision, t, s.vision.clients[t]);
  }

  lemma StartStays(s: State, t: nat, s': State)
    requires HostInv(s) && t in s.vision.clients && !IsStart(s.vision.clients[t].pc) && Operating(s, t, s')
    ensures StartPending(s'.vision) == StartPending(s.vision)
  {
    assert ClientOk(s.link, s.ctl, s.vision, t, s.vision.clients[t]);
  }

  lemma HandedOperating(s: State, t: nat, s': State)
    requires Inv(s) && HandedInv(s) && t in s.vision.clients && !IsStart(s.vision.clients[t].pc) && Operating(s, t, s')
    ensures HandedInv(s')
  {
    assert ClientOk(s.link, s.ctl, s.vision, t, s.vision.clients[t]);
    StartStays(s, t, s');
  }

  // ------------------------------------------------------------ a run exists

  /** Some run leads to `s`. */
  ghost predicate Reached(s: State) {
    exists run, labels :: IsRun(run, labels) && run[|run| - 1] == s
  }

  lemma ReachedFirst(s: State)
    requires Init(s)
    ensures Reached(s)
  {
    assert IsRun([s], []);
  }

  lemma ReachedNext(s: State, l: Label, s': State)
    requires Reached(s) && Step(s, l, s')
    ensures Reached(s')
  {
    var run, labels :| IsRun(run, labels) && run[|run| - 1] == s;
    var longer, more := run + [s'], labels + [l];
    forall i | 0 <= i < |more| ensures Step(longer[i], more[i], longer[i + 1]) {
      if i < |labels| {
        assert longer[i] == run[i] && longer[i + 1] == run[i + 1] && more[i] == labels[i];
      }
    }
    assert IsRun(longer, more);
  }

  lemma ReachedStream(s: State, c: Choice, s': State)
    requires Reached(s) && Consumer(s, c, s')
    ensures Reached(s')
  {
    ReachedNext(s, Stream(c), s');
  }

  lemma ReachedCapture(s: State, c: Choice, s': State)
    requires Reached(s) && Producer(s, c, s')
    ensures Reached(s')
  {
    ReachedNext(s, Capture(c), s');
  }

  const FREE := Slot(false, Torn)
  const FRAME := Frame(1, 7)
  const EMPTY := Buffers(FREE, FREE, false, false)

  /** A running stream, with the thread and the reader at these places. */
  function Streaming1(buf: Buffers, sig: Signals, log: Log, ppc: ProducerPc, cpc: ConsumerPc): State {
    State(Link(buf, sig, log, ppc, cpc), Control(false, true, 0, Reading(ppc)),
          Vision(Live, true, false, Some(1), false, NoWriter, map[], {}, {}))
  }

  const IDLE := Link(EMPTY, Signals(false, false, 0, 0), Log(0, [], []), PLock, CNone)
  const STILL := Control(false, false, 0, false)

  /** One goroutine is starting a stream. */
  function Starting1(pc: ClientPc): Vision {
    Vision(Live, true, false, None, false, Thread(0), map[0 := Client(pc, true)], {}, {})
  }

  lemma ReachesEntered()
    ensures Reached(State(IDLE, STILL, Starting1(Starting)))
  {
    var s0 := State(IDLE.(ppc := PAbsent), STILL, Vision(Absent, true, false, None, false, NoWriter, map[], {}, {}));
    ReachedFirst(s0);
    assert map[][0 := Client(Starting, true)] == map[0 := Client(Starting, true)];
    ReachedNext(s0, Call(0, StartCapture, true), State(IDLE, STILL, Starting1(Starting)));
  }

  lemma ReachesRunning()
    ensures Reached(State(IDLE.(log := Log(1, [], [])), STILL.(running := true), Starting1(StartRing)))
  {
    ReachesEntered();
    assert Goto(Starting1(Starting), 0, StartRing) == Starting1(StartRing);
    ReachedNext(State(IDLE, STILL, Starting1(Starting)), Run(0),
                State(IDLE.(log := Log(1, [], [])), STILL.(running := true), Starting1(StartRing)));
  }

  lemma ReachesStarted()
    ensures Reached(Streaming1(EMPTY, Signals(false, false, 0, 1), Log(1, [], []), PLock, CIdle))
  {
    ReachesRunning();
    var link, ctl := IDLE.(log := Log(1, [], [])), STILL.(running := true);
    assert Goto(Starting1(StartRing), 0, StartDone) == Starting1(StartDone);
    ReachedNext(State(link, ctl, Starting1(StartRing)), Run(0), State(Ring(link), ctl, Starting1(StartDone)));
    assert Starting1(StartDone).clients - {0} == map[];
    ReachedNext(State(Ring(link), ctl, Starting1(StartDone)), Run(0),
                Streaming1(EMPTY, Signals(false, false, 0, 1), Log(1, [], []), PLock, CIdle));
  }

  lemma ReachesReading()
    ensures Reached(Streaming1(EMPTY, Signals(false, false, 0, 1), Log(1, [], []), PRead, CIdle))
  {
    ReachesStarted();
    var sig, log, c := Signals(false, false, 0, 1), Log(1, [], []), Choice(false, 7);
    ReachedCapture(Streaming1(EMPTY, sig, log, PLock, CIdle), c, Streaming1(EMPTY, sig, log, PTop, CIdle));
    ReachedCapture(Streaming1(EMPTY, sig, log, PTop, CIdle), c, Streaming1(EMPTY, sig, log, PCheck, CIdle));
    ReachedCapture(Streaming1(EMPTY, sig, log, PCheck, CIdle), c, Streaming1(EMPTY, sig, log, PPace, CIdle));
    ReachedCapture(Streaming1(EMPTY, sig, log, PPace, CIdle), c, Streaming1(EMPTY, sig, log, PRead, CIdle));
  }

  /** The thread is about to read while the reader sleeps. */
  lemma ReachesAsleep()
    ensures Reached(Streaming1(EMPTY, Signals(true, false, 0, 1), Log(1, [], []), PRead, CSleep))
  {
    ReachesReading();
    var sig, armed, log := Signals(false, false, 0, 1), Signals(true, false, 0, 1), Log(1, [], []);
    var c := Choice(false, 7);
    ReachedStream(Streaming1(EMPTY, sig, log, PRead, CIdle), c, Streaming1(EMPTY, sig, log, PRead, CCheck));
    ReachedStream(Streaming1(EMPTY, sig, log, PRead, CCheck), c, Streaming1(EMPTY, sig, log, PRead, CArm));
    ReachedStream(Streaming1(EMPTY, sig, log, PRead, CArm), c, Streaming1(EMPTY, armed, log, PRead, CRecheck));
    ReachedStream(Streaming1(EMPTY, armed, log, PRead, CRecheck), c, Streaming1(EMPTY, armed, log, PRead, CSleep));
  }

  const FILLED := Buffers(Slot(false, Whole(FRAME)), FREE, false, false)
  const FULL := Buffers(Slot(true, Whole(FRAME)), FREE, false, false)

  lemma ReachesFilled()
    ensures Reached(Streaming1(FULL, Signals(true, false, 0, 1), Log(1, [FRAME], []), PExchange, CSleep))
  {
    ReachesAsleep();
    var armed, log, c := Signals(true, false, 0, 1), Log(1, [], []), Choice(false, 7);
    ReachedCapture(Streaming1(EMPTY, armed, log, PRead, CSleep), c, Streaming1(EMPTY, armed, log, PFill, CSleep));
    ReachedCapture(Streaming1(EMPTY, armed, log, PFill, CSleep), c, Streaming1(FILLED, armed, log, PPublish, CSleep));
    assert [] + [FRAME] == [FRAME];
    ReachedCapture(Streaming1(FILLED, armed, log, PPublish, CSleep), c,
                   Streaming1(FULL, armed, Log(1, [FRAME], []), PExchange, CSleep));
  }

  /** The thread publishes the frame and rings the sleeping reader. */
  lemma ReachesPublished()
    ensures Reached(Streaming1(FULL.(produce := true), Signals(false, false, 1, 1), Log(1, [FRAME], []), PFinish,
                               CSleep))
  {
    ReachesFilled();
    var armed, done := Signals(true, false, 0, 1), Signals(false, false, 0, 1);
    var log, c := Log(1, [FRAME], []), Choice(false, 7);
    ReachedCapture(Streaming1(FULL, armed, log, PExchange, CSleep), c,
                   Streaming1(FULL.(produce := true), done, log, PRing, CSleep));
    ReachedCapture(Streaming1(FULL.(produce := true), done, log, PRing, CSleep), c,
                   Streaming1(FULL.(produce := true), done.(ready := 1), log, PFinish, CSleep));
  }

  lemma ReachesTaken()
    ensures Reached(Streaming1(FULL.(produce := true), Signals(false, false, 0, 1), Log(1, [FRAME], []), PFinish,
                               CFree))
  {
    ReachesPublished();
    var rung, quiet := Signals(false, false, 1, 1), Signals(false, false, 0, 1);
    var log, c := Log(1, [FRAME], []), Choice(false, 7);
    var full := FULL.(produce := true);
    ReachedStream(Streaming1(full, rung, log, PFinish, CSleep), c, Streaming1(full, quiet, log, PFinish, CCheck));
    ReachedStream(Streaming1(full, quiet, log, PFinish, CCheck), c, Streaming1(full, quiet, log, PFinish, CTake));
    ReachedStream(Streaming1(full, quiet, log, PFinish, CTake), c, Streaming1(full, quiet, log, PFinish, CFree));
  }

  const DELIVERED := Log(1, [FRAME], [Release(FRAME, 1, true)])
  const DRAINED := Buffers(Slot(false, Whole(FRAME)), FREE, true, true)
  const QUIET := Signals(false, false, 0, 1)

  lemma ReachesDelivered()
    ensures Reached(Streaming1(DRAINED, QUIET, DELIVERED, PFinish, CIdle))
  {
    ReachesTaken();
    var log, c := Log(1, [FRAME], []), Choice(false, 7);
    var full, empty := FULL.(produce := true), FILLED.(produce := true);
    assert [] + [Release(FRAME, 1, true)] == [Release(FRAME, 1, true)];
    ReachedStream(Streaming1(full, QUIET, log, PFinish, CFree), c, Streaming1(empty, QUIET, DELIVERED, PFinish, CPeek));
    ReachedStream(Streaming1(empty, QUIET, DELIVERED, PFinish, CPeek), c,
                  Streaming1(DRAINED, QUIET, DELIVERED, PFinish, CIdle));
  }

  /** The claims are about something: some run starts a stream, puts the reader
      to sleep, wakes it and delivers the frame. */
  lemma FrameDelivered()
    ensures exists s :: Reached(s) && s.link.log.released == [Release(FRAME, 1, true)] && s.link.cpc.CIdle?
  {
    ReachesDelivered();
  }

  /** The stream is being closed; `running` is cleared. */
  function Stopped1(ppc: ProducerPc, cpc: ConsumerPc): State {
    State(Link(DRAINED, QUIET, DELIVERED, ppc, cpc), Control(false, false, 0, Reading(ppc)),
          Vision(Live, true, false, Some(1), false, NoWriter, map[], {}, {}))
  }

  /** Close clears `running` and waits for the read in flight. */
  lemma ReachesStopping()
    ensures Reached(Stopped1(PFinish, CStopAsleep))
  {
    ReachesDelivered();
    var c := Choice(false, 7);
    ReachedStream(Streaming1(DRAINED, QUIET, DELIVERED, PFinish, CIdle), Choice(true, 0),
                  Streaming1(DRAINED, QUIET, DELIVERED, PFinish, CStop));
    ReachedStream(Streaming1(DRAINED, QUIET, DELIVERED, PFinish, CStop), c, Stopped1(PFinish, CStopAsleep));
  }

  lemma ReachesStopped()
    ensures Reached(Stopped1(PWaitIdle, CDiscard))
  {
    ReachesStopping();
    var c := Choice(false, 7);
    assert WakeClients(map[]) == map[];
    ReachedCapture(Stopped1(PFinish, CStopAsleep), c, Stopped1(PTop, CStopAwake));
    ReachedCapture(Stopped1(PTop, CStopAwake), c, Stopped1(PWaitIdle, CStopAwake));
    ReachedStream(Stopped1(PWaitIdle, CStopAwake), c, Stopped1(PWaitIdle, CDiscard));
  }

  /** The first stream is closed, and a goroutine may be starting the second. */
  function Second(stream: nat, clients: map<nat, Client>, finishing: set<nat>, done: set<nat>): State {
    State(Link(DRAINED, QUIET, DELIVERED.(stream := stream), PWaitIdle, CNone), Control(false, stream == 2, 0, false),
          Vision(Live, true, false, None, false, if 0 in clients then Thread(0) else NoWriter, clients, finishing,
                 done))
  }

  lemma ReachesReleasing()
    ensures Reached(Stopped1(PWaitIdle, CRelease))
  {
    ReachesStopped();
    var c := Choice(false, 7);
    ReachedStream(Stopped1(PWaitIdle, CDiscard), c, Stopped1(PWaitIdle, CClear));
    ReachedStream(Stopped1(PWaitIdle, CClear), c, Stopped1(PWaitIdle, CRelease));
  }

  lemma ReachesClosed()
    ensures Reached(Second(1, map[], {}, {1}))
  {
    ReachesReleasing();
    var c := Choice(false, 7);
    assert {} + {1} == {1} && {1} - {1} == {};
    ReachedStream(Stopped1(PWaitIdle, CRelease), c, Second(1, map[], {1}, {}));
    ReachedNext(Second(1, map[], {1}, {}), CloseDone(1), Second(1, map[], {}, {1}));
  }

  lemma ReachesSecond()
    ensures Reached(Second(2, map[0 := Client(StartRing, true)], {}, {1}))
  {
    ReachesClosed();
    var starting, ringing := Client(Starting, true), Client(StartRing, true);
    assert map[][0 := starting] == map[0 := starting] && map[0 := starting][0 := ringing] == map[0 := ringing];
    ReachedNext(Second(1, map[], {}, {1}), Call(0, StartCapture, false), Second(1, map[0 := starting], {}, {1}));
    ReachedNext(Second(1, map[0 := starting], {}, {1}), Run(0), Second(2, map[0 := ringing], {}, {1}));
  }

  /** After an ordinary Close the same worker carries the next stream. */
  lemma StreamRestarted()
    ensures exists s :: Reached(s) && s.vision.capture == Some(2) && s.link.cpc.CIdle? && s.vision.worker.Live?
                        && s.ctl.running && s.link.log.released == [Release(FRAME, 1, true)]
  {
    ReachesSecond();
    var ringing, done := Client(StartRing, true), Client(StartDone, true);
    assert map[0 := ringing][0 := done] == map[0 := done] && map[0 := done] - {0} == map[];
    var s2 := Second(2, map[0 := ringing], {}, {1});
    var s3 := s2.(link := Ring(s2.link), vision := s2.vision.(clients := map[0 := done]));
    ReachedNext(s2, Run(0), s3);
    ReachedNext(s3, Run(0), s3.(link := s3.link.(cpc := CIdle),
                                vision := s3.vision.(clients := map[], writer := NoWriter, capture := Some(2))));
  }

  /** A stream whose wait broke, at these places. */
  function Broken1(sig: Signals, ppc: ProducerPc, cpc: ConsumerPc, failed: bool, running: bool): State {
    State(Link(EMPTY, sig, Log(1, [], []), ppc, cpc), Control(false, running, 0, false),
          Vision(Live, true, false, Some(1), failed, NoWriter, map[], {}, {}))
  }

  lemma ReachesWaiting()
    ensures Reached(Broken1(QUIET.(consumerWaiting := true), PLock, CSleep, false, true))
  {
    ReachesStarted();
    var armed, c := QUIET.(consumerWaiting := true), Choice(false, 7);
    ReachedStream(Broken1(QUIET, PLock, CIdle, false, true), c, Broken1(QUIET, PLock, CCheck, false, true));
    ReachedStream(Broken1(QUIET, PLock, CCheck, false, true), c, Broken1(QUIET, PLock, CArm, false, true));
    ReachedStream(Broken1(QUIET, PLock, CArm, false, true), c, Broken1(armed, PLock, CRecheck, false, true));
    ReachedStream(Broken1(armed, PLock, CRecheck, false, true), c, Broken1(armed, PLock, CSleep, false, true));
  }

  /** The reader's wait breaks. */
  lemma ReachesBroken()
    ensures Reached(Broken1(QUIET, PLock, CStop, true, true))
  {
    ReachesWaiting();
    var armed, c, broken := QUIET.(consumerWaiting := true), Choice(false, 7), Choice(true, 7);
    ReachedStream(Broken1(armed, PLock, CSleep, false, true), broken, Broken1(armed, PLock, CAbort, false, true));
    ReachedStream(Broken1(armed, PLock, CAbort, false, true), broken, Broken1(QUIET, PLock, CIdle, true, true));
    ReachedStream(Broken1(QUIET, PLock, CIdle, true, true), c, Broken1(QUIET, PLock, CStop, true, true));
  }

  /** It closes its stream. */
  lemma ReachesFailed()
    ensures Reached(Broken1(QUIET, PLock, CRelease, true, false))
  {
    ReachesBroken();
    var c := Choice(false, 7);
    ReachedStream(Broken1(QUIET, PLock, CStop, true, true), c, Broken1(QUIET, PLock, CDiscard, true, false));
    ReachedStream(Broken1(QUIET, PLock, CDiscard, true, false), c, Broken1(QUIET, PLock, CClear, true, false));
    ReachedStream(Broken1(QUIET, PLock, CClear, true, false), c, Broken1(QUIET, PLock, CRelease, true, false));
  }

  /** The reader is retiring the worker. */
  function Retiring1(doorbell: nat, ppc: ProducerPc, cpc: ConsumerPc, stopping: bool): State {
    State(Link(EMPTY, QUIET.(doorbell := doorbell), Log(1, [], []), ppc, cpc), Control(stopping, false, 0, false),
          Vision(Live, true, false, None, true, Reader, map[], {}, {}))
  }

  lemma ReachesRetiring()
    ensures Reached(Retiring1(2, PLock, CJoin, true))
  {
    ReachesFailed();
    var c := Choice(false, 7);
    ReachedStream(Broken1(QUIET, PLock, CRelease, true, false), c, Retiring1(1, PLock, CDestroy, false));
    ReachedStream(Retiring1(1, PLock, CDestroy, false), c, Retiring1(1, PLock, CDestroyRing, true));
    ReachedStream(Retiring1(1, PLock, CDestroyRing, true), c, Retiring1(2, PLock, CJoin, true));
  }

  /** A failure retires the worker, although vision is open. */
  lemma WorkerRetired()
    ensures exists s :: Reached(s) && s.vision.worker.Gone? && !s.vision.closed && s.link.cpc.CNone?
  {
    ReachesRetiring();
    var c := Choice(false, 7);
    ReachedCapture(Retiring1(2, PLock, CJoin, true), c, Retiring1(2, PTop, CJoin, true));
    ReachedCapture(Retiring1(2, PTop, CJoin, true), c, Retiring1(2, PExited, CJoin, true));
    var s := Retiring1(2, PExited, CJoin, true);
    ReachedStream(s, c, s.(link := s.link.(cpc := CNone),
                           vision := s.vision.(worker := Gone, enabled := false, writer := NoWriter,
                                               finishing := {1})));
  }
}
