/**
  The tick server as a whole: datagrams arrive, the server thread makes messages of them and hands
  these to the workers, and the workers send them, in any interleaving.
 */
module TickServer {
  import opened Arithmetic
  import opened TickFrame
  import Dispatch = TickDispatch

  const TICK_THREAD_NUM := 16

  /** `arrived` records all datagrams, `waiting` are those still on the socket. */
  datatype Server = Server(arrived: seq<Datagram>, waiting: seq<Datagram>, overrun: bool, sys: Dispatch.Sys)

  datatype Move = Arrive(d: Datagram) | Readable(stack: Stack) | Thread(move: Dispatch.Move)

  ghost predicate Init(n: nat, s: Server) {
    s.arrived == [] && s.waiting == [] && !s.overrun && Dispatch.Init(n, s.sys)
  }

  /** The server thread reads when it is idle; the other steps are those of the dispatcher. */
  ghost predicate Moves(n: nat, s: Server, m: Move, s': Server) {
    match m
    case Arrive(d) => s' == s.(arrived := s.arrived + [d], waiting := s.waiting + [d])
    case Readable(stack) =>
      && !s.overrun && s.waiting != [] && s.sys.server == Dispatch.Idle
      && var v := Serve(s.waiting, stack);
         if v.event.Overrun? then s' == s.(overrun := true)
         else if v.event.Dropped? then s' == s.(waiting := v.left)
         else
           && s' == s.(waiting := v.left, sys := s'.sys)
           && Dispatch.Moves(n, s.sys, Dispatch.AcceptMove(v.event.message), s'.sys)
    case Thread(mv) =>
      && !s.overrun && !mv.AcceptMove? && s' == s.(sys := s'.sys) && Dispatch.Moves(n, s.sys, mv, s'.sys)
  }

  ghost predicate Run(n: nat, s: Server, ms: seq<Move>, s': Server)
    decreases |ms|
  {
    if ms == [] then s == s'
    else
      var before, last := ms[..|ms| - 1], ms[|ms| - 1];
      exists mid :: Run(n, s, before, mid) && Moves(n, mid, last, s')
  }

  predicate AllWhole(ds: seq<Datagram>) {
    forall i :: 0 <= i < |ds| ==> Whole(ds[i])
  }

  /** The messages made so far: those handed over and the one the server thread has in hand. */
  function Made(sys: Dispatch.Sys): seq<Dispatch.Msg> {
    sys.accepted + if sys.server.WantLock? || sys.server.Locked? then [sys.server.m] else []
  }

  // ----- the parts of a run -----

  /** The steps of a run that the dispatcher takes form a run of the dispatcher. */
  lemma {:induction false} DispatchRuns(n: nat, s: Server, ms: seq<Move>, s': Server) returns (ds: seq<Dispatch.Move>)
    requires Init(n, s) && Run(n, s, ms, s')
    ensures Dispatch.Run(n, s.sys, ds, s'.sys)
    decreases |ms|
  {
    hide Serve, Dispatch.Moves, Init;
    if ms == [] {
      ds := [];
    } else {
      var before, last := ms[..|ms| - 1], ms[|ms| - 1];
      var mid :| Run(n, s, before, mid) && Moves(n, mid, last, s');
      ds := DispatchRuns(n, s, before, mid);
      if last.Thread? {
        ds := OneMore(n, s.sys, ds, mid.sys, last.move, s'.sys);
      } else if last.Readable? && Serve(mid.waiting, last.stack).event.Queued? {
        ds := OneMore(n, s.sys, ds, mid.sys, Dispatch.AcceptMove(Serve(mid.waiting, last.stack).event.message), s'.sys);
      }
    }
  }

  lemma OneMore(n: nat, s: Dispatch.Sys, ds: seq<Dispatch.Move>, mid: Dispatch.Sys, m: Dispatch.Move, s': Dispatch.Sys)
      returns (es: seq<Dispatch.Move>)
    requires Dispatch.Run(n, s, ds, mid) && Dispatch.Moves(n, mid, m, s')
    ensures Dispatch.Run(n, s, es, s')
  {
    hide Dispatch.Moves;
    es := ds + [m];
    assert es[..|ds|] == ds;
  }

  lemma {:induction false} FramesAppend(ds: seq<Datagram>, es: seq<Datagram>)
    ensures Frames(ds + es) == Frames(ds) + Frames(es)
  {
    hide FrameOf;
    if ds == [] {
      assert ds + es == es;
    } else {
      assert (ds + es)[1..] == ds[1..] + es;
      FramesAppend(ds[1..], es);
      assert FrameOf(ds[0]) + (Frames(ds[1..]) + Frames(es)) == Frames(ds) + Frames(es);
    }
  }

  /** While all that arrives is whole, messages made and frames waiting are the frames that arrived, in order. */
  lemma {:induction false} FramesKept(n: nat, s: Server, ms: seq<Move>, s': Server)
    requires Init(n, s) && Run(n, s, ms, s') && AllWhole(s'.arrived)
    ensures !s'.overrun && AllWhole(s'.waiting)
    ensures Made(s'.sys) + Frames(s'.waiting) == Frames(s'.arrived)
    decreases |ms|
  {
    hide Serve, Whole, Frames;
    if ms == [] {
      assert Frames([]) == [] by { NoFrames(); }
    } else {
      var before, last := ms[..|ms| - 1], ms[|ms| - 1];
      var mid :| Run(n, s, before, mid) && Moves(n, mid, last, s');
      ArrivedGrows(n, mid, last, s');
      FramesKept(n, s, before, mid);
      MoveKeepsFrames(n, mid, last, s');
    }
  }

  lemma NoFrames()
    ensures Frames([]) == []
  {
  }

  lemma ArrivedGrows(n: nat, s: Server, m: Move, s': Server)
    requires Moves(n, s, m, s') && AllWhole(s'.arrived)
    ensures AllWhole(s.arrived)
  {
    hide Serve, Whole, Dispatch.Moves;
    assert forall i :: 0 <= i < |s.arrived| ==> s.arrived[i] == s'.arrived[i];
  }

  lemma MoveKeepsFrames(n: nat, s: Server, m: Move, s': Server)
    requires Moves(n, s, m, s') && AllWhole(s'.arrived) && !s.overrun && AllWhole(s.waiting)
    requires Made(s.sys) + Frames(s.waiting) == Frames(s.arrived)
    ensures !s'.overrun && AllWhole(s'.waiting)
    ensures Made(s'.sys) + Frames(s'.waiting) == Frames(s'.arrived)
  {
    hide Serve, Whole, Frames;
    match m
    case Arrive(d) =>
      FramesAppend(s.arrived, [d]);
      FramesAppend(s.waiting, [d]);
      assert s'.arrived[|s.arrived|] == d;
      assert Made(s.sys) + (Frames(s.waiting) + Frames([d])) == (Made(s.sys) + Frames(s.waiting)) + Frames([d]);
    case Readable(stack) => EventKeepsFrames(n, s, stack, s');
    case Thread(mv) => ThreadKeepsMade(n, s.sys, mv, s'.sys);
  }

  lemma EventKeepsFrames(n: nat, s: Server, stack: Stack, s': Server)
    requires Moves(n, s, Readable(stack), s') && AllWhole(s.waiting)
    ensures !s'.overrun && AllWhole(s'.waiting)
    ensures Made(s'.sys) + Frames(s'.waiting) == Made(s.sys) + Frames(s.waiting)
  {
    hide Serve, Whole;
    var d, rest := s.waiting[0], s.waiting[1..];
    assert s.waiting == [d] + rest;
    ServeWhole(d, rest, stack);
    assert Made(s.sys) == s.sys.accepted;
  }

  lemma ThreadKeepsMade(n: nat, s: Dispatch.Sys, mv: Dispatch.Move, s': Dispatch.Sys)
    requires Dispatch.Moves(n, s, mv, s') && !mv.AcceptMove?
    ensures Made(s') == Made(s)
  {
  }

  // ----- end to end -----

  /**
    In every run to which only whole datagrams arrive: the buffer is not overrun, the messages made
    are a prefix of the frames that arrived, and each worker has its share of those handed over,
    once and in order, sent, in hand or queued.
   */
  lemma FramesToWorkers(n: nat, s: Server, ms: seq<Move>, s': Server, w: nat)
    requires Init(n, s) && Run(n, s, ms, s') && AllWhole(s'.arrived) && w < n
    ensures !s'.overrun && Dispatch.Shape(n, s'.sys) && Made(s'.sys) <= Frames(s'.arrived)
    ensures s'.sys.sent[w] + Dispatch.InHand(s'.sys.workers[w]) + s'.sys.queues[w] ==
            Dispatch.Share(n, s'.sys.accepted, w)
  {
    hide Run, Frames, AllWhole, Dispatch.Run, Dispatch.Init;
    FramesKept(n, s, ms, s');
    var ds := DispatchRuns(n, s, ms, s');
    Dispatch.RoundRobinInOrder(n, s.sys, ds, s'.sys, w);
  }

  /** When nothing waits and no thread can move, worker `w` of the sixteen has sent frames `w`, `w + 16`, ... */
  lemma EveryFrameSent(s: Server, ms: seq<Move>, s': Server, k: nat)
    requires Init(TICK_THREAD_NUM, s) && Run(TICK_THREAD_NUM, s, ms, s') && AllWhole(s'.arrived)
    requires s'.waiting == [] && Dispatch.Shape(TICK_THREAD_NUM, s'.sys) && Dispatch.Quiet(TICK_THREAD_NUM, s'.sys)
    requires k < |Frames(s'.arrived)|
    ensures var sent := s'.sys.sent[k % 16];
            k / 16 < |sent| && sent[k / 16] == Frames(s'.arrived)[k]
  {
    hide Run, Frames, AllWhole, Dispatch.Run, Dispatch.Init, Dispatch.Quiet, Dispatch.Share;
    var n := TICK_THREAD_NUM;
    FramesKept(n, s, ms, s');
    var ds := DispatchRuns(n, s, ms, s');
    Dispatch.QuietMeansSent(n, s.sys, ds, s'.sys, k % n);
    NoFrames();
    assert Made(s'.sys) == s'.sys.accepted == Frames(s'.arrived);
    ShareAt(n, s'.sys.accepted, k);
  }

  lemma {:induction false} ShareLength(n: nat, a: seq<Dispatch.Msg>, w: nat)
    requires w < n
    ensures |Dispatch.Share(n, a, w)| == |a| / n + if w < |a| % n then 1 else 0
    decreases |a|
  {
    if a != [] {
      ShareLength(n, a[..|a| - 1], w);
      NextQuotient(|a| - 1, n);
    } else {
      QuotientUnique(0, n, 0, 0);
    }
  }

  /** Message `k` is number `k / n` of the share of worker `k % n`. */
  lemma {:induction false} ShareAt(n: nat, a: seq<Dispatch.Msg>, k: nat)
    requires n >= 1 && k < |a|
    ensures var share := Dispatch.Share(n, a, k % n);
            k / n < |share| && share[k / n] == a[k]
    decreases |a|
  {
    var before := a[..|a| - 1];
    ShareLength(n, before, k % n);
    if k < |a| - 1 {
      ShareAt(n, before, k);
    }
  }
}
