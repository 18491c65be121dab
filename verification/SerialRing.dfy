/** The receive ring of a UART: filled by an interrupt, emptied by the program, with no lock
    between them (Drivers/HardwareSerial/HardwareSerial_private.h:96-115;
    Drivers/HardwareSerial/HardwareSerial.cpp:154-177).

    The interrupt handler runs as a whole between any two memory accesses of the program, so
    the program's `read`, `peek` and `available` are cut into steps of one access each, and
    every method here is one such step. */
module SerialRing {
  import opened Bytes

  /** Index `i` behind `tail`, around the end of the buffer. */
  function Slot(size: nat, tail: nat, i: nat): (k: nat)
    requires tail < size && i <= size
    ensures k < size
  {
    if tail + i < size then tail + i else tail + i - size
  }

  /** The source's index arithmetic. */
  lemma SlotIsMod(size: nat, tail: nat, i: nat)
    requires tail < size && i <= size
    ensures (tail + i) % size == Slot(size, tail, i)
    ensures size <= 256 ==> (tail + 1) % 256 % size == Slot(size, tail, 1)
  {
    ModOnce(tail + i, size);
    ModOnce(tail + 1, size);
    if size <= 256 {
      ModOnce((tail + 1) % 256, size);
    }
  }

  /** The bytes in the ring, oldest first. */
  function Ring(buf: seq<byte>, head: nat, tail: nat): (q: seq<byte>)
    requires head < |buf| && tail < |buf|
    ensures |q| < |buf| && Slot(|buf|, tail, |q|) == head
    ensures q == [] <==> head == tail
    ensures q != [] ==> q[0] == buf[tail]
  {
    var n := if head >= tail then head - tail else |buf| + head - tail;
    seq(n, i requires 0 <= i < n => buf[Slot(|buf|, tail, i)])
  }

  /** What `available` computes is the number of bytes in the ring. */
  lemma RingLength(size: nat, head: nat, tail: nat, n: nat)
    requires tail < size && n < size && head == Slot(size, tail, n)
    ensures (size + head - tail) % size == n
  {
    ModOnce(size + head - tail, size);
  }

  /** Storing at the head and advancing it appends, unless that makes head and tail meet,
      which it does exactly when the ring holds one byte less than its size. */
  lemma RingPush(buf: seq<byte>, head: nat, tail: nat, c: byte)
    requires head < |buf| && tail < |buf|
    ensures Slot(|buf|, head, 1) == tail <==> |Ring(buf, head, tail)| + 1 == |buf|
    ensures Slot(|buf|, head, 1) != tail ==>
              Ring(buf[head := c], Slot(|buf|, head, 1), tail) == Ring(buf, head, tail) + [c]
  {
  }

  /** Advancing the tail takes the oldest byte away. */
  lemma RingPop(buf: seq<byte>, head: nat, tail: nat)
    requires head < |buf| && tail < |buf| && head != tail
    ensures Ring(buf, head, Slot(|buf|, tail, 1)) == Ring(buf, head, tail)[1..]
  {
  }

  datatype Call = Read | Peek | Available

  /** How far the program is in a call: nothing loaded yet, the head index loaded, the ring
      found not empty, the oldest byte loaded. */
  datatype Phase = Idle | HeadLoaded(call: Call, head: nat) | Found(call: Call) | ByteLoaded(c: byte)

  datatype Event = Interrupt(c: byte, parityOk: bool) | Program(call: Call)

  // ---- The port as a state machine on values ----------------------------------------------------

  /** How far the program is in a call, told by what it has learnt about the ring: how many bytes
      were in it when it loaded the head index, that it is not empty, or its oldest byte. */
  datatype Doing = Nothing | Begun(call: Call, count: nat) | NotEmpty(call: Call) | Holding(c: byte)

  /** The ring as a sequence, the program's place in its call, the bytes that were ever accepted
      and delivered, and the answers of all calls that have ended. */
  datatype Port = Port(queue: seq<byte>, doing: Doing, accepted: seq<byte>, delivered: seq<byte>, answers: seq<int>)

  /** One event. */
  function Next(p: Port, size: nat, e: Event): Port {
    match e
    case Interrupt(c, parityOk) =>
      if parityOk && |p.queue| + 1 < size then p.(queue := p.queue + [c], accepted := p.accepted + [c]) else p
    case Program(call) =>
      match p.doing
      case Nothing => p.(doing := Begun(call, |p.queue|))
      case Begun(Available, count) => Answer(p, count)
      case Begun(begun, count) => if count == 0 then Answer(p, -1) else p.(doing := NotEmpty(begun))
      case NotEmpty(begun) =>
        if p.queue == [] then p
        else if begun == Peek then Answer(p, p.queue[0] as int)
        else p.(doing := Holding(p.queue[0]))
      case Holding(c) =>
        if p.queue == [] then p
        else Answer(p.(queue := p.queue[1..], delivered := p.delivered + [c]), c as int)
  }

  /** The call ends. */
  function Answer(p: Port, answer: int): Port {
    p.(doing := Nothing, answers := p.answers + [answer])
  }

  /** A schedule, event by event. */
  function After(p: Port, size: nat, schedule: seq<Event>): Port {
    if schedule == [] then p
    else Next(After(p, size, schedule[..|schedule| - 1]), size, schedule[|schedule| - 1])
  }

  lemma AfterNext(p: Port, size: nat, schedule: seq<Event>, k: nat)
    requires k < |schedule|
    ensures After(p, size, schedule[..k + 1]) == Next(After(p, size, schedule[..k]), size, schedule[k])
  {
    var first := schedule[..k + 1];
    assert first[..|first| - 1] == schedule[..k];
  }

  /** What holds between any two events. */
  ghost predicate Sane(p: Port, size: nat) {
    && |p.queue| < size && p.accepted == p.delivered + p.queue
    && (p.doing.Begun? ==> p.doing.count <= |p.queue|)
    && (p.doing.NotEmpty? ==> p.queue != [] && p.doing.call != Available)
    && (p.doing.Holding? ==> p.queue != [] && p.doing.c == p.queue[0])
  }

  lemma NextIsSane(p: Port, size: nat, e: Event)
    requires Sane(p, size)
    ensures Sane(Next(p, size, e), size)
  {
    if p.queue != [] {
      assert p.queue == [p.queue[0]] + p.queue[1..];
    }
  }

  lemma {:induction false} AfterIsSane(p: Port, size: nat, schedule: seq<Event>)
    requires Sane(p, size)
    ensures Sane(After(p, size, schedule), size)
  {
    if schedule != [] {
      var front := schedule[..|schedule| - 1];
      AfterIsSane(p, size, front);
      NextIsSane(After(p, size, front), size, schedule[|schedule| - 1]);
    }
  }

  lemma AfterNone(p: Port, size: nat, schedule: seq<Event>)
    ensures After(p, size, schedule[..0]) == p
  {
  }

  // ---- The same as calls that take no time ------------------------------------------------------

  /** What can be done to a bounded queue in one go. */
  datatype Action = Put(c: byte) | Take | Look | Count

  /** A queue that has room for one byte less than `size`, and the answers it has given. */
  datatype Queue = Queue(bytes: seq<byte>, answers: seq<int>)

  function Act(q: Queue, size: nat, a: Action): Queue {
    match a
    case Put(c) => if |q.bytes| + 1 < size then q.(bytes := q.bytes + [c]) else q
    case Take =>
      if q.bytes == [] then q.(answers := q.answers + [-1])
      else Queue(q.bytes[1..], q.answers + [q.bytes[0] as int])
    case Look => q.(answers := q.answers + [if q.bytes == [] then -1 else q.bytes[0] as int])
    case Count => q.(answers := q.answers + [|q.bytes|])
  }

  function ActAll(q: Queue, size: nat, actions: seq<Action>): Queue {
    if actions == [] then q else Act(ActAll(q, size, actions[..|actions| - 1]), size, actions[|actions| - 1])
  }

  /** The action that an event stands for. A call is one action: when it loads the head index, but
      for a read that gives back a byte, which is when it stores the tail index. */
  function ActionOf(p: Port, e: Event): seq<Action> {
    match e
    case Interrupt(c, parityOk) => if parityOk then [Put(c)] else []
    case Program(call) =>
      match p.doing
      case Nothing =>
        (match call
         case Available => [Count]
         case Peek => [Look]
         case Read => if p.queue == [] then [Take] else [])
      case Holding(_) => [Take]
      case _ => []
  }

  /** The actions of a schedule, in order. */
  function Actions(p: Port, size: nat, schedule: seq<Event>): seq<Action> {
    if schedule == [] then []
    else
      var front := schedule[..|schedule| - 1];
      Actions(p, size, front) + ActionOf(After(p, size, front), schedule[|schedule| - 1])
  }

  /** The answer of a call under way, if it is settled. */
  function Settled(p: Port): seq<int> {
    match p.doing
    case Begun(Available, count) => [count]
    case Begun(Peek, count) => [if count == 0 || p.queue == [] then -1 else p.queue[0] as int]
    case Begun(Read, count) => if count == 0 then [-1] else []
    case NotEmpty(Peek) => if p.queue == [] then [] else [p.queue[0] as int]
    case _ => []
  }

  function AsQueue(p: Port): Queue {
    Queue(p.queue, p.answers + Settled(p))
  }

  lemma ActOnly(q: Queue, size: nat, actions: seq<Action>, more: seq<Action>)
    requires |more| <= 1
    ensures ActAll(q, size, actions + more) ==
            if more == [] then ActAll(q, size, actions) else Act(ActAll(q, size, actions), size, more[0])
  {
    if more == [] {
      assert actions + more == actions;
    } else {
      var all := actions + more;
      assert all[..|all| - 1] == actions;
    }
  }

  /** An event does to the queue what its action does. */
  lemma NextIsAtomic(p: Port, size: nat, e: Event)
    requires Sane(p, size)
    ensures
      var a := ActionOf(p, e);
      AsQueue(Next(p, size, e)) == if a == [] then AsQueue(p) else Act(AsQueue(p), size, a[0])
  {
  }

  /** In every interleaving the ring without a lock is a bounded queue on which interrupts and calls
      act one after the other, each at once, at a point within the call. */
  lemma {:induction false} RunIsAtomic(p: Port, size: nat, schedule: seq<Event>)
    requires Sane(p, size)
    ensures AsQueue(After(p, size, schedule)) == ActAll(AsQueue(p), size, Actions(p, size, schedule))
  {
    if schedule != [] {
      var front, e := schedule[..|schedule| - 1], schedule[|schedule| - 1];
      RunIsAtomic(p, size, front);
      AfterIsSane(p, size, front);
      NextIsAtomic(After(p, size, front), size, e);
      ActOnly(AsQueue(p), size, Actions(p, size, front), ActionOf(After(p, size, front), e));
    }
  }

  // ---- The port itself ---------------------------------------------------------------------------

  class SerialPort {
    /** `SERIAL_BUFFER_SIZE`: the indices are 8-bit, so it is at most 256. */
    const size: nat
    const rxBuffer: array<byte>
    var rxHead: nat
    var rxTail: nat
    /** The program counter and registers of the program, between two of its steps. */
    var phase: Phase

    /** The bytes that were ever put into the ring, and those that `read` gave back. */
    ghost var accepted: seq<byte>
    ghost var delivered: seq<byte>
    /** What was in the ring when the program last loaded the head index. */
    ghost var seen: seq<byte>

    ghost predicate Valid()
      reads this, rxBuffer
      ensures Valid() ==> rxBuffer.Length == size && rxHead < size && rxTail < size
    {
      && 1 <= size <= 256 && rxBuffer.Length == size && rxHead < size && rxTail < size
      && accepted == delivered + Queue()
      && (!phase.Idle? ==> seen <= Queue())
      && (phase.HeadLoaded? ==> phase.head == Slot(size, rxTail, |seen|))
      && (phase.Found? ==> seen != [] && phase.call != Available)
      && (phase.ByteLoaded? ==> seen != [] && phase.c == seen[0])
    }

    ghost function Queue(): (q: seq<byte>)
      requires rxBuffer.Length == size && rxHead < size && rxTail < size
      reads this, rxBuffer
      ensures |q| < size
    {
      Ring(rxBuffer[..], rxHead, rxTail)
    }

    constructor (n: nat)
      requires 1 <= n <= 256
      ensures Valid() && size == n && accepted == [] && delivered == [] && phase == Idle && fresh(rxBuffer)
    {
      size, rxHead, rxTail, phase := n, 0, 0, Idle;
      rxBuffer := new byte[n](_ => 0);
      accepted, delivered, seen := [], [], [];
    }

    /** The interrupt: a byte arrived. It is accepted unless its parity is wrong or the ring
        already holds one byte less than its size. */
    method RxCompleteIrq(c: byte, parityOk: bool)
      requires Valid()
      modifies this`rxHead, this`accepted, rxBuffer
      ensures Valid()
      ensures Queue() == if parityOk && |old(Queue())| + 1 < size then old(Queue()) + [c] else old(Queue())
      ensures accepted == if parityOk && |old(Queue())| + 1 < size then old(accepted) + [c] else old(accepted)
    {
      if parityOk {
        var i := (rxHead + 1) % size;
        SlotIsMod(size, rxHead, 1);
        RingPush(rxBuffer[..], rxHead, rxTail, c);
        if i != rxTail {
          ghost var now := rxBuffer[..][rxHead := c];
          rxBuffer[rxHead] := c;
          assert rxBuffer[..] == now;
          rxHead := i;
          accepted := accepted + [c];
        }
      }
    }

    /** The first step of a call: load the head index. */
    method Begin(call: Call)
      requires Valid() && phase.Idle?
      modifies this`phase, this`seen
      ensures Valid() && phase == HeadLoaded(call, rxHead) && seen == Queue()
    {
      seen := Queue();
      phase := HeadLoaded(call, rxHead);
    }

    /** The next step of a call. The outcome of a call is fixed by what was in the ring when
        it loaded the head index: `available` counts that, `peek` and `read` give back the
        oldest byte of that, or -1 if there was none; `read` takes it out with its last step. */
    method Continue() returns (finished: bool, result: int)
      requires Valid() && !phase.Idle?
      modifies this`phase, this`rxTail, this`delivered
      ensures Valid() && seen == old(seen)
      ensures finished <==> phase.Idle?
      ensures !finished ==> if old(phase.HeadLoaded?) then phase == Found(old(phase.call)) else phase.ByteLoaded?
      ensures finished && old(phase.HeadLoaded?) && old(phase.call) == Available ==> result == |seen|
      ensures finished && !(old(phase.HeadLoaded?) && old(phase.call) == Available) ==>
                result == if seen == [] then -1 else seen[0] as int
      ensures old(phase.HeadLoaded?) ==> (finished <==> old(phase.call) == Available || seen == [])
      ensures old(phase.Found?) ==> (finished <==> old(phase.call) == Peek)
      ensures old(phase.ByteLoaded?) ==> finished
      ensures delivered == if old(phase.ByteLoaded?) then old(delivered) + [seen[0]] else old(delivered)
      ensures old(phase.ByteLoaded?) ==> Queue() == old(Queue())[1..]
      ensures !old(phase.ByteLoaded?) ==> Queue() == old(Queue())
    {
      hide Ring, Slot;
      finished, result := false, 0;
      match phase
      case HeadLoaded(call, head) =>
        SeenLength();
        if call == Available {
          finished, result, phase := true, (size + head - rxTail) % size, Idle;
        } else if head == rxTail {
          finished, result, phase := true, -1, Idle;
        } else {
          phase := Found(call);
        }
      case Found(call) =>
        if call == Peek {
          finished, result, phase := true, rxBuffer[rxTail] as int, Idle;
        } else {
          phase := ByteLoaded(rxBuffer[rxTail]);
        }
      case ByteLoaded(c) =>
        Advance(c);
        finished, result, phase := true, c as int, Idle;
    }

    /** The last step of `read`: store the tail index. */
    method Advance(c: byte)
      requires Valid() && Queue() != [] && Queue()[0] == c && phase.ByteLoaded?
      modifies this`rxTail, this`delivered
      ensures rxTail < size && delivered == old(delivered) + [c]
      ensures Queue() == old(Queue())[1..] && accepted == delivered + Queue()
    {
      hide Ring;
      ghost var q := Queue();
      SlotIsMod(size, rxTail, 1);
      RingPop(rxBuffer[..], rxHead, rxTail);
      rxTail := (rxTail + 1) % 256 % size;
      delivered := delivered + [c];
      assert q == [c] + q[1..];
    }

    /** The loaded head index and the tail tell how many bytes were seen. */
    lemma SeenLength()
      requires Valid() && phase.HeadLoaded?
      ensures phase.head < size && (size + phase.head - rxTail) % size == |seen|
      ensures phase.head == rxTail <==> seen == []
    {
      RingLength(size, phase.head, rxTail, |seen|);
    }

    /** The place of the program in its call, as `Next` knows it. */
    ghost function Where(): Doing
      reads this
    {
      match phase
      case Idle => Nothing
      case HeadLoaded(call, _) => Begun(call, |seen|)
      case Found(call) => NotEmpty(call)
      case ByteLoaded(c) => Holding(c)
    }

    /** The port on values, with the answers given so far. */
    ghost function AsPort(answers: seq<int>): Port
      requires Valid()
      reads this, rxBuffer
    {
      Port(Queue(), Where(), accepted, delivered, answers)
    }

    lemma ValidIsSane(answers: seq<int>)
      requires Valid()
      ensures Sane(AsPort(answers), size)
    {
      hide Ring, Slot;
    }

    /** One event: an interrupt, or the program's next step. */
    method Turn(e: Event, ghost before: seq<int>) returns (out: seq<int>)
      requires Valid()
      modifies this, rxBuffer
      ensures Valid() && AsPort(before + out) == Next(old(AsPort(before)), size, e)
    {
      hide Ring, Slot;
      out := [];
      assert before + out == before;
      match e
      case Interrupt(c, parityOk) => RxCompleteIrq(c, parityOk);
      case Program(call) =>
        if phase.Idle? {
          Begin(call);
        } else {
          var finished, result := Continue();
          if finished {
            out := [result];
          }
        }
    }

    /** Any interleaving of interrupts with the steps of the program's calls: ring, program,
        accepted and delivered bytes and all answers are what `After` says, and nothing that was
        accepted is lost, doubled or reordered on the way to what was delivered. */
    method Run(schedule: seq<Event>) returns (answers: seq<int>)
      requires Valid()
      modifies this, rxBuffer
      ensures Valid() && AsPort(answers) == After(old(AsPort([])), size, schedule)
      ensures accepted == delivered + Queue()
    {
      hide Ring, Slot, After, Next, SerialPort.Queue, SerialPort.Valid, SerialPort.Where;
      answers := [];
      ghost var p := AsPort([]);
      AfterNone(p, size, schedule);
      for k := 0 to |schedule|
        invariant Valid() && AsPort(answers) == After(p, size, schedule[..k])
      {
        AfterNext(p, size, schedule, k);
        var out := Turn(schedule[k], answers);
        answers := answers + out;
      }
      assert schedule[..|schedule|] == schedule;
      ValidIsSane(answers);
    }
  }
}
