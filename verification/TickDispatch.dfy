/**
  The dispatcher of the tick server: a server thread hands accepted messages to `n` workers in
  turn, through a queue under a mutex and a pipe on which it writes one byte per message.  Each
  worker reads a byte, takes the message at the front of its queue and sends it.
 */
module TickDispatch {
  import opened Arithmetic
  import TickFrame

  type Msg = seq<TickFrame.Byte>

  datatype ServerPc = Idle | WantLock(m: Msg) | Locked(m: Msg) | Unlocking | Writing

  datatype WorkerPc = Polling | HaveByte | Holding | Popped(m: Msg) | Sending(m: Msg)

  datatype Owner = Nobody | Server | Worker

  /** `bytes` are the bytes in each notify pipe; `accepted` and `sent` record what went in and out. */
  datatype Sys = Sys(server: ServerPc, last: nat, accepted: seq<Msg>,
                     workers: seq<WorkerPc>, mutex: seq<Owner>, queues: seq<seq<Msg>>, bytes: seq<nat>,
                     sent: seq<seq<Msg>>)

  predicate Shape(n: nat, s: Sys) {
    && n >= 1 && s.last < n
    && |s.workers| == n && |s.mutex| == n && |s.queues| == n && |s.bytes| == n && |s.sent| == n
  }

  predicate Init(n: nat, s: Sys) {
    && Shape(n, s) && s.server == Idle && s.last == 0 && s.accepted == []
    && forall w :: 0 <= w < n ==>
         s.workers[w] == Polling && s.mutex[w] == Nobody && s.queues[w] == [] && s.bytes[w] == 0 && s.sent[w] == []
  }

  // ----- steps -----

  /** A frame has been read and becomes the message `m`. */
  predicate Accept(n: nat, s: Sys, m: Msg, s': Sys) {
    Shape(n, s) && s.server == Idle && s' == s.(server := WantLock(m))
  }

  predicate ServerEnabled(n: nat, s: Sys)
    requires Shape(n, s)
  {
    s.server != Idle && (s.server.WantLock? ==> s.mutex[s.last] == Nobody)
  }

  function ServerNext(n: nat, s: Sys): Sys
    requires Shape(n, s) && ServerEnabled(n, s)
  {
    match s.server
    case WantLock(m) => s.(server := Locked(m), mutex := s.mutex[s.last := Server])
    case Locked(m) =>
      s.(server := Unlocking, queues := s.queues[s.last := s.queues[s.last] + [m]], accepted := s.accepted + [m])
    case Unlocking => s.(server := Writing, mutex := s.mutex[s.last := Nobody])
    case Writing => s.(server := Idle, bytes := s.bytes[s.last := s.bytes[s.last] + 1], last := (s.last + 1) % n)
  }

  /** A worker can move; for taking the front of the queue this says nothing about the queue. */
  predicate WorkerEnabled(n: nat, s: Sys, w: nat)
    requires Shape(n, s)
  {
    && w < n
    && (s.workers[w] == Polling ==> s.bytes[w] > 0)
    && (s.workers[w] == HaveByte ==> s.mutex[w] == Nobody)
  }

  /** The worker is about to call front and pop on an empty queue. */
  predicate Underflow(n: nat, s: Sys, w: nat)
    requires Shape(n, s)
  {
    w < n && s.workers[w] == Holding && s.queues[w] == []
  }

  function WorkerNext(n: nat, s: Sys, w: nat): Sys
    requires Shape(n, s) && WorkerEnabled(n, s, w) && !Underflow(n, s, w)
  {
    match s.workers[w]
    case Polling => s.(workers := s.workers[w := HaveByte], bytes := s.bytes[w := s.bytes[w] - 1])
    case HaveByte => s.(workers := s.workers[w := Holding], mutex := s.mutex[w := Worker])
    case Holding => s.(workers := s.workers[w := Popped(s.queues[w][0])], queues := s.queues[w := s.queues[w][1..]])
    case Popped(m) => s.(workers := s.workers[w := Sending(m)], mutex := s.mutex[w := Nobody])
    case Sending(m) => s.(workers := s.workers[w := Polling], sent := s.sent[w := s.sent[w] + [m]])
  }

  datatype Move = AcceptMove(m: Msg) | ServerMove | WorkerMove(w: nat)

  predicate Moves(n: nat, s: Sys, mv: Move, s': Sys) {
    match mv
    case AcceptMove(m) => Accept(n, s, m, s')
    case ServerMove => Shape(n, s) && ServerEnabled(n, s) && s' == ServerNext(n, s)
    case WorkerMove(w) => Shape(n, s) && WorkerEnabled(n, s, w) && !Underflow(n, s, w) && s' == WorkerNext(n, s, w)
  }

  ghost predicate Run(n: nat, s: Sys, ms: seq<Move>, s': Sys)
    decreases |ms|
  {
    if ms == [] then s == s'
    else
      var before, last := ms[..|ms| - 1], ms[|ms| - 1];
      exists mid :: Run(n, s, before, mid) && Moves(n, mid, last, s')
  }

  // ----- the invariant -----

  /** Of the messages `a`, those whose index is `w` modulo `n`, in order. */
  function Share(n: nat, a: seq<Msg>, w: nat): seq<Msg>
    requires n >= 1
    decreases |a|
  {
    if a == [] then []
    else Share(n, a[..|a| - 1], w) + if (|a| - 1) % n == w then [a[|a| - 1]] else []
  }

  lemma ShareSnoc(n: nat, a: seq<Msg>, m: Msg, w: nat)
    requires n >= 1
    ensures Share(n, a + [m], w) == Share(n, a, w) + if |a| % n == w then [m] else []
  {
    assert (a + [m])[..|a|] == a;
  }

  function InHand(pc: WorkerPc): seq<Msg> {
    if pc.Popped? || pc.Sending? then [pc.m] else []
  }

  predicate WorkerInv(n: nat, s: Sys, w: nat)
    requires Shape(n, s) && w < n
  {
    && (s.mutex[w] == Server <==> w == s.last && (s.server.Locked? || s.server.Unlocking?))
    && (s.mutex[w] == Worker <==> s.workers[w].Holding? || s.workers[w].Popped?)
    // every queued message has a byte in the pipe, or one about to be written, or one just read
    && |s.queues[w]| == s.bytes[w]
         + (if w == s.last && (s.server.Unlocking? || s.server.Writing?) then 1 else 0)
         + (if s.workers[w].HaveByte? || s.workers[w].Holding? then 1 else 0)
    && Share(n, s.accepted, w) == s.sent[w] + InHand(s.workers[w]) + s.queues[w]
  }

  /** Whose turn it is. */
  predicate TurnInv(n: nat, s: Sys)
    requires Shape(n, s)
  {
    if s.server.Unlocking? || s.server.Writing? then |s.accepted| >= 1 && s.last == (|s.accepted| - 1) % n
    else s.last == |s.accepted| % n
  }

  predicate Inv(n: nat, s: Sys) {
    Shape(n, s) && TurnInv(n, s) && forall w :: 0 <= w < n ==> WorkerInv(n, s, w)
  }

  lemma NextTurn(n: nat, k: nat)
    requires n >= 1
    ensures (k % n + 1) % n == (k + 1) % n
  {
    var q, r := k / n, k % n;
    var step := if r + 1 < n then 0 else 1;
    assert k == q * n + r;
    assert (q + step) * n == q * n + step * n && step * n == if step == 0 then 0 else n;
    RemainderUnique(k + 1, n, q + step, r + 1 - step * n);
    RemainderUnique(r + 1, n, step, r + 1 - step * n);
  }

  lemma InitInv(n: nat, s: Sys)
    requires Init(n, s)
    ensures Inv(n, s)
  {
  }

  lemma ServerTurn(n: nat, s: Sys)
    requires Shape(n, s) && TurnInv(n, s) && ServerEnabled(n, s)
    ensures Shape(n, ServerNext(n, s)) && TurnInv(n, ServerNext(n, s))
  {
    if s.server.Writing? {
      NextTurn(n, |s.accepted| - 1);
    }
  }

  lemma ServerStep(n: nat, s: Sys, w: nat)
    requires Shape(n, s) && TurnInv(n, s) && ServerEnabled(n, s) && w < n && WorkerInv(n, s, w)
    ensures Shape(n, ServerNext(n, s)) && WorkerInv(n, ServerNext(n, s), w)
  {
    if s.server.Locked? {
      ShareSnoc(n, s.accepted, s.server.m, w);
    }
  }

  lemma WorkerStep(n: nat, s: Sys, v: nat, w: nat)
    requires Shape(n, s) && WorkerEnabled(n, s, v) && !Underflow(n, s, v) && w < n && WorkerInv(n, s, w)
    ensures Shape(n, WorkerNext(n, s, v)) && WorkerInv(n, WorkerNext(n, s, v), w)
  {
    if v == w && s.workers[w].Holding? {
      assert s.queues[w] == [s.queues[w][0]] + s.queues[w][1..];
    }
  }

  lemma MoveInv(n: nat, s: Sys, mv: Move, s': Sys)
    requires Inv(n, s) && Moves(n, s, mv, s')
    ensures Inv(n, s')
  {
    match mv
    case AcceptMove(m) =>
      forall w | 0 <= w < n ensures WorkerInv(n, s', w) { assert WorkerInv(n, s, w); }
    case ServerMove =>
      ServerTurn(n, s);
      forall w | 0 <= w < n ensures WorkerInv(n, s', w) { ServerStep(n, s, w); }
    case WorkerMove(v) =>
      forall w | 0 <= w < n ensures Shape(n, s') && WorkerInv(n, s', w) { WorkerStep(n, s, v, w); }
  }

  lemma {:induction false} RunInv(n: nat, s: Sys, ms: seq<Move>, s': Sys)
    requires Init(n, s) && Run(n, s, ms, s')
    ensures Inv(n, s')
    decreases |ms|
  {
    hide Inv, Moves, Init;
    if ms == [] {
      InitInv(n, s);
    } else {
      var before, last := ms[..|ms| - 1], ms[|ms| - 1];
      var mid :| Run(n, s, before, mid) && Moves(n, mid, last, s');
      RunInv(n, s, before, mid);
      MoveInv(n, mid, last, s');
    }
  }

  // ----- what the runs guarantee -----

  /** In every interleaving front and pop find a message. */
  lemma NeverUnderflows(n: nat, s: Sys, ms: seq<Move>, s': Sys, w: nat)
    requires Init(n, s) && Run(n, s, ms, s') && w < n
    ensures Shape(n, s') && !Underflow(n, s', w)
  {
    RunInv(n, s, ms, s');
    assert WorkerInv(n, s', w);
  }

  /** Messages `w`, `w + n`, `w + 2n`, ... go to worker `w`, each once and in order. */
  lemma RoundRobinInOrder(n: nat, s: Sys, ms: seq<Move>, s': Sys, w: nat)
    requires Init(n, s) && Run(n, s, ms, s') && w < n
    ensures Shape(n, s')
    ensures s'.sent[w] + InHand(s'.workers[w]) + s'.queues[w] == Share(n, s'.accepted, w)
  {
    RunInv(n, s, ms, s');
    assert WorkerInv(n, s', w);
  }

  predicate Quiet(n: nat, s: Sys)
    requires Shape(n, s)
  {
    !ServerEnabled(n, s) && forall w :: 0 <= w < n ==> !WorkerEnabled(n, s, w)
  }

  /** If nothing but accepting a frame is possible, every accepted message has been sent. */
  lemma QuietMeansSent(n: nat, s: Sys, ms: seq<Move>, s': Sys, w: nat)
    requires Init(n, s) && Run(n, s, ms, s') && Shape(n, s') && Quiet(n, s') && w < n
    ensures s'.server == Idle && s'.sent[w] == Share(n, s'.accepted, w)
  {
    hide Init, Run;
    RunInv(n, s, ms, s');
    assert WorkerInv(n, s', w) && !WorkerEnabled(n, s', w);
    assert WorkerInv(n, s', s'.last) && !WorkerEnabled(n, s', s'.last);
  }

  // ----- every accepted message leaves -----

  function ServerLeft(pc: ServerPc): nat {
    match pc
    case Idle => 0
    case WantLock(_) => 9
    case Locked(_) => 8
    case Unlocking => 7
    case Writing => 6
  }

  function WorkerLeft(pc: WorkerPc, bytes: nat): nat {
    5 * bytes + match pc
                case Polling => 0
                case HaveByte => 4
                case Holding => 3
                case Popped(_) => 2
                case Sending(_) => 1
  }

  function WorkLeft(n: nat, s: Sys, w: nat): nat
    requires Shape(n, s) && w <= n
    decreases n - w
  {
    if w == n then ServerLeft(s.server) else WorkerLeft(s.workers[w], s.bytes[w]) + WorkLeft(n, s, w + 1)
  }

  lemma {:induction false} WorkerLeftFalls(n: nat, s: Sys, v: nat, w: nat)
    requires Shape(n, s) && WorkerEnabled(n, s, v) && !Underflow(n, s, v) && w <= n
    ensures Shape(n, WorkerNext(n, s, v))
    ensures WorkLeft(n, WorkerNext(n, s, v), w) == WorkLeft(n, s, w) - if w <= v then 1 else 0
    decreases n - w
  {
    if w < n {
      WorkerLeftFalls(n, s, v, w + 1);
    }
  }

  lemma {:induction false} ServerLeftFalls(n: nat, s: Sys, w: nat)
    requires Shape(n, s) && ServerEnabled(n, s) && w <= n
    ensures Shape(n, ServerNext(n, s))
    ensures WorkLeft(n, ServerNext(n, s), w) == WorkLeft(n, s, w) - if s.server.Writing? && w > s.last then 6 else 1
    decreases n - w
  {
    if w < n {
      ServerLeftFalls(n, s, w + 1);
    }
  }

  lemma {:induction false} AcceptLeft(n: nat, s: Sys, m: Msg, s': Sys, w: nat)
    requires Accept(n, s, m, s') && w <= n
    ensures WorkLeft(n, s', w) == WorkLeft(n, s, w) + 9
    decreases n - w
  {
    if w < n {
      AcceptLeft(n, s, m, s', w + 1);
    }
  }

  lemma {:induction false} InitialLeft(n: nat, s: Sys, w: nat)
    requires Init(n, s) && w <= n
    ensures WorkLeft(n, s, w) == 0
    decreases n - w
  {
    if w < n {
      InitialLeft(n, s, w + 1);
    }
  }

  function Accepts(ms: seq<Move>): nat
    decreases |ms|
  {
    if ms == [] then 0 else Accepts(ms[..|ms| - 1]) + if ms[|ms| - 1].AcceptMove? then 1 else 0
  }

  /**
    Each message takes exactly ten steps from its acceptance to its dispatch, in every
    interleaving, so the threads cannot go on without new frames.
   */
  lemma {:induction false} TenStepsEach(n: nat, s: Sys, ms: seq<Move>, s': Sys)
    requires Init(n, s) && Run(n, s, ms, s')
    ensures Shape(n, s') && |ms| + WorkLeft(n, s', 0) == 10 * Accepts(ms)
    decreases |ms|
  {
    if ms == [] {
      InitialLeft(n, s, 0);
    } else {
      hide Init;
      var before, last := ms[..|ms| - 1], ms[|ms| - 1];
      var mid :| Run(n, s, before, mid) && Moves(n, mid, last, s');
      TenStepsEach(n, s, before, mid);
      match last
      case AcceptMove(m) => AcceptLeft(n, mid, m, s', 0);
      case ServerMove => ServerLeftFalls(n, mid, 0);
      case WorkerMove(v) => WorkerLeftFalls(n, mid, v, 0);
    }
  }
}
