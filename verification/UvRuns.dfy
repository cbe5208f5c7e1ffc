/** What holds over whole runs of the bindings: conservation, frees, leaks, order of delivery, and
    the way of a request buffer. */
module UvRuns {
  import opened Uv
  import opened UvLaws

  ghost predicate Allowed(s: State, events: seq<Event>)
    decreases |events|
  {
    events == [] || (Enabled(s, events[0]) && Allowed(Step(s, events[0]), events[1..]))
  }

  ghost function Run(s: State, events: seq<Event>): State
    requires Allowed(s, events)
    decreases |events|
  {
    if events == [] then s else Run(Step(s, events[0]), events[1..])
  }

  // ---------------------------------------------------------------- conservation

  lemma {:induction false} RunKeepsInv(s: State, events: seq<Event>)
    requires Inv(s) && Allowed(s, events)
    ensures Inv(Run(s, events))
    decreases |events|
  {
    hide Inv, Step;
    if events != [] {
      StepKeepsInv(s, events[0]);
      RunKeepsInv(Step(s, events[0]), events[1..]);
    }
  }

  lemma {:induction false} InitialInv()
    ensures Inv(INITIAL)
  {
    forall p ensures Owners(INITIAL, p) == 0 {}
  }

  /** In every state of every run each live block has exactly one owner: it is an open handle, or
      belongs to one callback that is owed, to one refused submission, or to one call of
      `uv_run_ocaml`. */
  lemma {:induction false} Conservation(events: seq<Event>)
    requires Allowed(INITIAL, events)
    ensures Inv(Run(INITIAL, events))
  {
    InitialInv();
    RunKeepsInv(INITIAL, events);
  }

  /** The blocks that a callback passes to `free`, in order. */
  function Freed(s: State, e: Event): seq<Ptr>
    requires Enabled(s, e)
  {
    match e
    case WriteCb(i) => [s.owed[i].buf, s.owed[i].req]
    case ShutdownCb(i) => [s.owed[i].req]
    case CloseCb(i) => [s.owed[i].stream]
    case ReadCbFree(i) => [s.owed[i].buf]
    case ConnectCb(i, _, _) => [s.owed[i].req]
    case _ => []
  }

  lemma {:induction false} WriteCbFrees(s: State, i: nat)
    requires Inv(s) && Enabled(s, WriteCb(i))
    ensures var o := s.owed[i];
            && o.buf in s.heap && o.req in s.heap && o.buf != o.req
            && forall p :: p in s.heap ==> (p !in DoWriteCb(s, i).heap <==> p == o.buf || p == o.req)
  {
    SoleOwner(s, i, s.owed[i].buf);
    SoleOwner(s, i, s.owed[i].req);
  }

  lemma {:induction false} ConnectCbFrees(s: State, i: nat, req: Ptr, r: int)
    requires Inv(s) && Enabled(s, ConnectCb(i, req, r))
    ensures var o := s.owed[i];
            && o.req in s.heap
            && forall p :: p in s.heap ==> (p !in DoConnectCb(s, i, req, r).heap <==> p == o.req)
  {
    SoleOwner(s, i, s.owed[i].req);
  }

  lemma {:induction false} SingleFrees(s: State, i: nat)
    requires Inv(s) && i < |s.owed|
    ensures s.owed[i].ShutdownDone? ==>
      s.owed[i].req in s.heap && DoShutdownCb(s, i).heap == s.heap - {s.owed[i].req}
    ensures s.owed[i].CloseDone? ==>
      s.owed[i].stream in s.heap && DoCloseCb(s, i).heap == s.heap - {s.owed[i].stream}
    ensures s.owed[i].ReadDone? ==>
      s.owed[i].buf in s.heap && DoReadCbFree(s, i).heap == s.heap - {s.owed[i].buf}
  {
    assert WellFormed(s.heap, s.open, s.owed[i]);
  }

  /** Nothing is freed that is not live, nothing twice, and a block ceases to be live only so. */
  lemma {:induction false} FreesAreExact(s: State, e: Event)
    requires Inv(s) && Enabled(s, e)
    ensures forall j :: 0 <= j < |Freed(s, e)| ==> Freed(s, e)[j] in s.heap
    ensures forall j, k :: 0 <= j < k < |Freed(s, e)| ==> Freed(s, e)[j] != Freed(s, e)[k]
    ensures forall p :: p in s.heap ==> (p !in Step(s, e).heap <==> p in Freed(s, e))
  {
    hide Inv;
    match e {
      case WriteCb(i) => WriteCbFrees(s, i);
      case ShutdownCb(i) => SingleFrees(s, i);
      case CloseCb(i) => SingleFrees(s, i);
      case ReadCbFree(i) => SingleFrees(s, i);
      case ConnectCb(i, req, r) => ConnectCbFrees(s, i, req, r);
      case _ =>
    }
  }

  // ---------------------------------------------------------------- leaks

  predicate IsRefused(e: Event) {
    match e
    case UvWrite(_, _, _, _, r) => r != 0
    case UvShutdown(_, _, r) => r != 0
    case TcpConnect(_, _, _, _, r) => r != 0
    case ConnectCb(_, _, r) => r != 0
    case _ => false
  }

  lemma {:induction false} LostGrows(s: State, e: Event)
    requires Enabled(s, e)
    ensures |Step(s, e).lost| >= |s.lost|
    ensures |Step(s, e).lost| > |s.lost| <==> IsRefused(e)
  {
  }

  lemma {:induction false} LostCounts(s: State, events: seq<Event>)
    requires Allowed(s, events)
    ensures |Run(s, events).lost| >= |s.lost|
    ensures |Run(s, events).lost| == |s.lost| <==> forall e :: e in events ==> !IsRefused(e)
    decreases |events|
  {
    hide Step, IsRefused;
    if events != [] {
      LostGrows(s, events[0]);
      LostCounts(Step(s, events[0]), events[1..]);
      assert events == [events[0]] + events[1..];
    }
  }

  /** The calls of `uv_run_ocaml`. */
  function LoopRuns(events: seq<Event>): nat {
    if events == [] then 0 else (if events[0].UvRun? then 1 else 0) + LoopRuns(events[1..])
  }

  lemma {:induction false} StrayCounts(s: State, events: seq<Event>)
    requires Inv(s) && Allowed(s, events)
    ensures |Run(s, events).stray| == |s.stray| + LoopRuns(events)
    decreases |events|
  {
    hide Inv, Step;
    if events != [] {
      StrayStep(s, events[0]);
      StepKeepsInv(s, events[0]);
      StrayCounts(Step(s, events[0]), events[1..]);
    }
  }

  lemma {:induction false} StrayStep(s: State, e: Event)
    requires Inv(s) && Enabled(s, e)
    ensures |Step(s, e).stray| == |s.stray| + if e.UvRun? then 1 else 0
  {
    if e.UvRun? {
      assert Owners(s, e.p) == 0;
    }
  }

  /** When no callback is owed, the live blocks are the open handles, the blocks of refused submissions
      and one block for each call of `uv_run_ocaml`, each of them one thing only. Besides the handles
      and the blocks of `uv_run_ocaml` nothing is left exactly when libuv refused no submission. */
  lemma {:induction false} LeftAtRest(events: seq<Event>)
    requires Allowed(INITIAL, events) && Run(INITIAL, events).owed == []
    ensures var s := Run(INITIAL, events);
            && (forall p :: p in s.heap <==> p in s.open || p in s.lost || p in s.stray)
            && (forall p :: p in s.lost ==> s.lost[p] == 1 && p !in s.open && p !in s.stray)
            && s.open !! s.stray && |s.stray| == LoopRuns(events)
            && (s.heap.Keys == s.open + s.stray <==> forall e :: e in events ==> !IsRefused(e))
  {
    var s := Run(INITIAL, events);
    Conservation(events);
    InitialInv();
    StrayCounts(INITIAL, events);
    LostCounts(INITIAL, events);
    forall p ensures (if p in s.open then 1 else 0) + s.lost[p] + (if p in s.stray then 1 else 0)
                     == if p in s.heap then 1 else 0 {
      assert Owners(s, p) == if p in s.heap then 1 else 0;
    }
    if |s.lost| > 0 {
      var p :| p in s.lost;
      assert p in s.heap && p !in s.open + s.stray;
    }
  }

  /** The blocks that an event leaves for ever: those of a refused submission, the block of a loop, and
      a handle until a shutdown of it is accepted. */
  function LeftBy(e: Event): int {
    match e
    case UvRun(_) => 1
    case TcpInit(_) => 1
    case UvShutdown(_, _, r) => if r == 0 then -1 else 1
    case UvWrite(_, _, _, _, r) => if r == 0 then 0 else 2
    case TcpConnect(_, _, _, _, r) => if r == 0 then 0 else 2
    case ConnectCb(_, _, r) => if r == 0 then 0 else 2
    case _ => 0
  }

  function Left(events: seq<Event>): int {
    if events == [] then 0 else LeftBy(events[0]) + Left(events[1..])
  }

  /** The blocks that will be freed on account of a callback; a shutdown is followed by a close. */
  function Weight(o: Owed): nat {
    match o case WriteDone(_, _, _) => 2 case ShutdownDone(_, _) => 2 case ConnectDone(_, _, _) => 2 case _ => 1
  }

  function Weights(owed: seq<Owed>): nat {
    if owed == [] then 0 else Weight(owed[0]) + Weights(owed[1..])
  }

  lemma {:induction false} WeightsSnoc(owed: seq<Owed>, o: Owed)
    ensures Weights(owed + [o]) == Weights(owed) + Weight(o)
  {
    if owed == [] {
      assert owed + [o] == [o];
      assert Weights([o][1..]) == 0;
    } else {
      assert (owed + [o])[1..] == owed[1..] + [o];
      WeightsSnoc(owed[1..], o);
    }
  }

  lemma {:induction false} WeightsWithout(owed: seq<Owed>, i: nat)
    requires i < |owed|
    ensures Weights(owed) == Weights(Without(owed, i)) + Weight(owed[i])
    decreases i
  {
    if i == 0 {
      assert Without(owed, 0) == owed[1..];
    } else {
      WeightsWithout(owed[1..], i - 1);
      assert Without(owed, i)[0] == owed[0];
      assert Without(owed, i)[1..] == Without(owed[1..], i - 1);
    }
  }

  lemma {:induction false} SizeWithout(heap: map<Ptr, Block>, p: Ptr)
    requires p in heap
    ensures |heap - {p}| == |heap| - 1
  {
    assert (heap - {p}).Keys == heap.Keys - {p};
  }

  lemma {:induction false} SubmissionWeighs(s: State, e: Event, o: Owed)
    requires Inv(s) && Enabled(s, e)
    requires match e
             case UvWrite(h, _, buf, req, _) => o == WriteDone(h, req, buf)
             case TcpConnect(h, _, buf, req, _) => o == ConnectDone(h, req, buf)
             case UvShutdown(h, req, _) => o == ShutdownDone(h, req)
             case AllocCb(h, buf, _) => o == ReadDone(h, buf, false)
             case _ => false
    ensures var s' := Step(s, e); |s'.heap| - Weights(s'.owed) == |s.heap| - Weights(s.owed) + LeftBy(e)
  {
    hide Inv, Weights;
    WeightsSnoc(s.owed, o);
  }

  lemma {:induction false} FreeWeighs(s: State, i: nat)
    requires Inv(s) && i < |s.owed|
    ensures var o, w := s.owed[i], |s.heap| - Weights(s.owed);
            && (o.ShutdownDone? ==> var s' := DoShutdownCb(s, i); |s'.heap| - Weights(s'.owed) == w)
            && (o.CloseDone? ==> var s' := DoCloseCb(s, i); |s'.heap| - Weights(s'.owed) == w)
            && (o.ReadDone? ==> var s' := DoReadCbFree(s, i); |s'.heap| - Weights(s'.owed) == w)
  {
    hide Inv, Weights;
    SingleFrees(s, i);
    var o := s.owed[i];
    match o {
      case ShutdownDone(_, req) => SizeWithout(s.heap, req);
      case CloseDone(stream) => SizeWithout(s.heap, stream);
      case ReadDone(_, buf, _) => SizeWithout(s.heap, buf);
      case _ =>
    }
    WeightsWithout(s.owed, i);
    WeightsSnoc(Without(s.owed, i), CloseDone(o.stream));
  }

  lemma {:induction false} WriteCbWeighs(s: State, i: nat)
    requires Inv(s) && Enabled(s, WriteCb(i))
    ensures var s' := DoWriteCb(s, i); |s'.heap| - Weights(s'.owed) == |s.heap| - Weights(s.owed)
  {
    hide Inv, Weights;
    var o := s.owed[i];
    WriteCbFrees(s, i);
    SizeWithout(s.heap, o.buf);
    SizeWithout(s.heap - {o.buf}, o.req);
    WeightsWithout(s.owed, i);
  }

  lemma {:induction false} ConnectCbWeighs(s: State, i: nat, req: Ptr, r: int)
    requires Inv(s) && Enabled(s, ConnectCb(i, req, r))
    ensures var s' := DoConnectCb(s, i, req, r);
            |s'.heap| - Weights(s'.owed) == |s.heap| - Weights(s.owed) + LeftBy(ConnectCb(i, req, r))
  {
    hide Inv, Weights;
    var o := s.owed[i];
    ConnectCbFrees(s, i, req, r);
    SizeWithout(s.heap[req := WriteReq(o.buf)], o.req);
    WeightsWithout(s.owed, i);
    WeightsSnoc(Without(s.owed, i), WriteDone(o.stream, req, o.buf));
  }

  lemma {:induction false} ReadCbWeighs(s: State, i: nat, nread: int, data: string)
    requires Inv(s) && Enabled(s, ReadCb(i, nread, data))
    ensures var s' := DoReadCb(s, i, nread, data); |s'.heap| - Weights(s'.owed) == |s.heap| - Weights(s.owed)
  {
    hide Count, Owners, Weights;
    var s' := DoReadCb(s, i, nread, data);
    assert WellFormed(s.heap, s.open, s.owed[i]);
    assert s'.heap.Keys == s.heap.Keys;
    WeightsWithout(s.owed, i);
    WeightsWithout(s'.owed, i);
    assert Without(s'.owed, i) == Without(s.owed, i);
  }

  lemma {:induction false} RequestOnWeighs(s: State, h: Ptr)
    requires Enabled(s, RequestOn(h))
    ensures |DoRequestOn(s, h).heap| == |s.heap|
  {
    assert s.heap[h := Tcp(true)].Keys == s.heap.Keys;
  }

  lemma {:induction false} StepWeighs(s: State, e: Event)
    requires Inv(s) && Enabled(s, e)
    ensures var s' := Step(s, e); |s'.heap| - Weights(s'.owed) == |s.heap| - Weights(s.owed) + LeftBy(e)
  {
    hide Inv, Weights, DoWriteCb, DoShutdownCb, DoCloseCb, DoReadCb, DoReadCbFree, DoConnectCb, DoUvWrite,
         DoTcpConnect, DoUvShutdown, DoAllocCb;
    match e {
      case UvRun(_) =>
      case TcpInit(_) =>
      case RequestOn(h) => RequestOnWeighs(s, h);
      case UvWrite(h, _, buf, req, _) => SubmissionWeighs(s, e, WriteDone(h, req, buf));
      case WriteCb(i) => WriteCbWeighs(s, i);
      case UvShutdown(h, req, _) => SubmissionWeighs(s, e, ShutdownDone(h, req));
      case ShutdownCb(i) => FreeWeighs(s, i);
      case CloseCb(i) => FreeWeighs(s, i);
      case AllocCb(h, buf, _) => SubmissionWeighs(s, e, ReadDone(h, buf, false));
      case ReadCb(i, nread, data) => ReadCbWeighs(s, i, nread, data);
      case ReadCbFree(i) => FreeWeighs(s, i);
      case TcpConnect(h, _, buf, req, _) => SubmissionWeighs(s, e, ConnectDone(h, req, buf));
      case ConnectCb(i, req, r) => ConnectCbWeighs(s, i, req, r);
    }
  }

  lemma {:induction false} RunWeighs(s: State, events: seq<Event>)
    requires Inv(s) && Allowed(s, events)
    ensures var s' := Run(s, events); |s'.heap| - Weights(s'.owed) == |s.heap| - Weights(s.owed) + Left(events)
    decreases |events|
  {
    hide Inv, Step, Weights, LeftBy;
    if events != [] {
      StepWeighs(s, events[0]);
      StepKeepsInv(s, events[0]);
      RunWeighs(Step(s, events[0]), events[1..]);
    }
  }

  /** How many blocks are live follows from the calls made and the callbacks owed, in every run: a leak
      anywhere else, or a block freed twice, would break the balance. */
  lemma {:induction false} LiveBlocksCounted(events: seq<Event>)
    requires Allowed(INITIAL, events)
    ensures var s := Run(INITIAL, events); |s.heap| == Left(events) + Weights(s.owed)
  {
    InitialInv();
    RunWeighs(INITIAL, events);
  }

  /** A handle that nobody shuts down, such as the listening one, is never closed. */
  lemma {:induction false} OpenStays(s: State, events: seq<Event>, h: Ptr)
    requires Allowed(s, events) && h in s.open
    requires forall o :: o in s.owed && o.ShutdownDone? ==> o.stream != h
    requires forall e :: e in events && e.UvShutdown? && e.r == 0 ==> e.h != h
    ensures h in Run(s, events).open
    decreases |events|
  {
    hide Step;
    if events != [] {
      OpenStep(s, events[0], h);
      assert events == [events[0]] + events[1..];
      OpenStays(Step(s, events[0]), events[1..], h);
    }
  }

  lemma {:induction false} OpenStep(s: State, e: Event, h: Ptr)
    requires Enabled(s, e) && h in s.open
    requires forall o :: o in s.owed && o.ShutdownDone? ==> o.stream != h
    requires e.UvShutdown? && e.r == 0 ==> e.h != h
    ensures h in Step(s, e).open
    ensures forall o :: o in Step(s, e).owed && o.ShutdownDone? ==> o.stream != h
  {
    var s' := Step(s, e);
    forall o | o in s'.owed && o.ShutdownDone? ensures o.stream != h {
      assert o in s.owed || (e.UvShutdown? && e.r == 0 && o == ShutdownDone(e.h, e.req));
    }
  }

  // ---------------------------------------------------------------- order of delivery

  /** The bytes of one stream in a log. */
  function On(h: Ptr, log: seq<(Ptr, string)>): seq<string> {
    if log == [] then []
    else
      var init := On(h, log[..|log| - 1]);
      if log[|log| - 1].0 == h then init + [log[|log| - 1].1] else init
  }

  lemma {:induction false} OnSnoc(h: Ptr, log: seq<(Ptr, string)>, x: (Ptr, string))
    ensures On(h, log + [x]) == if x.0 == h then On(h, log) + [x.1] else On(h, log)
  {
    assert (log + [x])[..|log|] == log;
  }

  /** The buffers still to be written to one stream, in order. */
  function Pending(heap: map<Ptr, Block>, owed: seq<Owed>, h: Ptr): seq<string> {
    if owed == [] then []
    else
      var o, rest := owed[0], Pending(heap, owed[1..], h);
      if o.WriteDone? && o.stream == h then [BytesOf(heap, o.buf)] + rest else rest
  }

  lemma {:induction false} PendingSnoc(heap: map<Ptr, Block>, owed: seq<Owed>, o: Owed, h: Ptr)
    ensures Pending(heap, owed + [o], h) ==
            if o.WriteDone? && o.stream == h then Pending(heap, owed, h) + [BytesOf(heap, o.buf)]
            else Pending(heap, owed, h)
  {
    if owed == [] {
      assert owed + [o] == [o];
      assert Pending(heap, [o][1..], h) == [];
    } else {
      assert (owed + [o])[1..] == owed[1..] + [o];
      PendingSnoc(heap, owed[1..], o, h);
    }
  }

  lemma {:induction false} PendingWithout(heap: map<Ptr, Block>, owed: seq<Owed>, i: nat, h: Ptr)
    requires i < |owed|
    requires forall j :: 0 <= j < i && owed[i].WriteDone? && owed[j].WriteDone? ==> owed[j].stream != owed[i].stream
    ensures Pending(heap, owed, h) ==
            if owed[i].WriteDone? && owed[i].stream == h
            then [BytesOf(heap, owed[i].buf)] + Pending(heap, Without(owed, i), h)
            else Pending(heap, Without(owed, i), h)
    decreases i
  {
    if i == 0 {
      assert Without(owed, 0) == owed[1..];
    } else {
      PendingWithout(heap, owed[1..], i - 1, h);
      assert Without(owed, i)[0] == owed[0];
      assert Without(owed, i)[1..] == Without(owed[1..], i - 1);
    }
  }

  lemma {:induction false} PendingKept(heap: map<Ptr, Block>, heap': map<Ptr, Block>, owed: seq<Owed>, h: Ptr)
    requires forall o :: o in owed && o.WriteDone? ==> BytesOf(heap', o.buf) == BytesOf(heap, o.buf)
    ensures Pending(heap', owed, h) == Pending(heap, owed, h)
  {
    if owed != [] {
      assert owed[0] in owed;
      PendingKept(heap, heap', owed[1..], h);
    }
  }

  /** The writes accepted on a stream are those completed, in order, and then those pending. */
  ghost predicate InOrder(s: State, h: Ptr) {
    On(h, s.accepted) == On(h, s.sent) + Pending(s.heap, s.owed, h)
  }

  lemma {:induction false} MallocKeepsPending(s: State, heap': map<Ptr, Block>, h: Ptr)
    requires Inv(s) && forall p :: p in s.heap && s.heap[p].Bytes? ==> p in heap' && heap'[p] == s.heap[p]
    ensures Pending(heap', s.owed, h) == Pending(s.heap, s.owed, h)
  {
    hide Count, Owners, Pending;
    forall o | o in s.owed && o.WriteDone? ensures BytesOf(heap', o.buf) == BytesOf(s.heap, o.buf) {
      assert WellFormed(s.heap, s.open, o);
    }
    PendingKept(s.heap, heap', s.owed, h);
  }

  lemma {:induction false} CallbackKeepsPending(s: State, i: nat, heap': map<Ptr, Block>, h: Ptr)
    requires Inv(s) && i < |s.owed|
    requires forall p :: p in s.heap && p !in Blocks(s.owed[i]) ==> p in heap' && heap'[p] == s.heap[p]
    ensures Pending(heap', Without(s.owed, i), h) == Pending(s.heap, Without(s.owed, i), h)
  {
    hide Count, Owners, Pending;
    var rest := Without(s.owed, i);
    forall o | o in rest && o.WriteDone? ensures BytesOf(heap', o.buf) == BytesOf(s.heap, o.buf) {
      assert o in s.owed && WellFormed(s.heap, s.open, o) && o.buf in Blocks(o);
      if o.buf in Blocks(s.owed[i]) {
        SoleOwner(s, i, o.buf);
      }
    }
    PendingKept(s.heap, heap', rest, h);
  }

  lemma {:induction false} UvWriteInOrder(s: State, h: Ptr, bytes: string, buf: Ptr, req: Ptr, r: int, g: Ptr)
    requires Inv(s) && InOrder(s, g) && Enabled(s, UvWrite(h, bytes, buf, req, r))
    ensures InOrder(DoUvWrite(s, h, bytes, buf, req, r), g)
  {
    hide Pending, On, Inv;
    var s' := DoUvWrite(s, h, bytes, buf, req, r);
    MallocKeepsPending(s, s'.heap, g);
    PendingSnoc(s'.heap, s.owed, WriteDone(h, req, buf), g);
    OnSnoc(g, s.accepted, (h, bytes));
  }

  lemma {:induction false} WriteCbInOrder(s: State, i: nat, g: Ptr)
    requires Inv(s) && InOrder(s, g) && Enabled(s, WriteCb(i))
    ensures InOrder(DoWriteCb(s, i), g)
  {
    hide Pending, On, Inv;
    var s', o := DoWriteCb(s, i), s.owed[i];
    PendingWithout(s.heap, s.owed, i, g);
    CallbackKeepsPending(s, i, s'.heap, g);
    OnSnoc(g, s.sent, (o.stream, BytesOf(s.heap, o.buf)));
    var done, rest := BytesOf(s.heap, o.buf), Pending(s.heap, Without(s.owed, i), g);
    assert On(g, s.sent) + ([done] + rest) == On(g, s.sent) + [done] + rest;
  }

  lemma {:induction false} ConnectCbInOrder(s: State, i: nat, req: Ptr, r: int, g: Ptr)
    requires Inv(s) && InOrder(s, g) && Enabled(s, ConnectCb(i, req, r))
    ensures InOrder(DoConnectCb(s, i, req, r), g)
  {
    hide Pending, On, Count, Owners;
    var s', o := DoConnectCb(s, i, req, r), s.owed[i];
    assert WellFormed(s.heap, s.open, o);
    PendingWithout(s.heap, s.owed, i, g);
    CallbackKeepsPending(s, i, s'.heap, g);
    PendingSnoc(s'.heap, Without(s.owed, i), WriteDone(o.stream, req, o.buf), g);
    OnSnoc(g, s.accepted, (o.stream, BytesOf(s.heap, o.buf)));
  }

  lemma {:induction false} ReadCbInOrder(s: State, i: nat, nread: int, data: string, g: Ptr)
    requires Inv(s) && InOrder(s, g) && Enabled(s, ReadCb(i, nread, data))
    ensures InOrder(DoReadCb(s, i, nread, data), g)
  {
    hide Pending, On, Count, Owners;
    var s' := DoReadCb(s, i, nread, data);
    PendingWithout(s.heap, s.owed, i, g);
    PendingWithout(s'.heap, s'.owed, i, g);
    assert Without(s'.owed, i) == Without(s.owed, i);
    CallbackKeepsPending(s, i, s'.heap, g);
  }

  lemma {:induction false} RemovalInOrder(s: State, i: nat, s': State, g: Ptr)
    requires Inv(s) && InOrder(s, g) && i < |s.owed| && !s.owed[i].WriteDone?
    requires s'.accepted == s.accepted && s'.sent == s.sent
    requires s'.owed == Without(s.owed, i) || exists h :: s'.owed == Without(s.owed, i) + [CloseDone(h)]
    requires forall p :: p in s.heap && p !in Blocks(s.owed[i]) ==> p in s'.heap && s'.heap[p] == s.heap[p]
    ensures InOrder(s', g)
  {
    hide Pending, On, Inv;
    PendingWithout(s.heap, s.owed, i, g);
    CallbackKeepsPending(s, i, s'.heap, g);
    if h :| s'.owed == Without(s.owed, i) + [CloseDone(h)] {
      PendingSnoc(s'.heap, Without(s.owed, i), CloseDone(h), g);
    }
  }

  lemma {:induction false} SubmissionInOrder(s: State, s': State, o: Owed, g: Ptr)
    requires Inv(s) && InOrder(s, g) && !o.WriteDone?
    requires s'.accepted == s.accepted && s'.sent == s.sent
    requires s'.owed == s.owed || s'.owed == s.owed + [o]
    requires forall p :: p in s.heap && s.heap[p].Bytes? ==> p in s'.heap && s'.heap[p] == s.heap[p]
    ensures InOrder(s', g)
  {
    hide Pending, On, Inv;
    MallocKeepsPending(s, s'.heap, g);
    PendingSnoc(s'.heap, s.owed, o, g);
  }

  lemma {:induction false} NewBlockInOrder(s: State, h: Ptr, p: Ptr, size: nat, r: int, g: Ptr)
    requires Inv(s) && InOrder(s, g) && p !in s.heap
    ensures InOrder(DoUvRun(s, p), g) && InOrder(DoTcpInit(s, p), g)
    ensures InOrder(DoUvShutdown(s, h, p, r), g) && InOrder(DoAllocCb(s, h, p, size), g)
  {
    hide Inv, InOrder;
    SubmissionInOrder(s, DoUvRun(s, p), CloseDone(p), g);
    SubmissionInOrder(s, DoTcpInit(s, p), CloseDone(p), g);
    SubmissionInOrder(s, DoUvShutdown(s, h, p, r), ShutdownDone(h, p), g);
    SubmissionInOrder(s, DoAllocCb(s, h, p, size), ReadDone(h, p, false), g);
  }

  lemma {:induction false} TcpConnectInOrder(s: State, h: Ptr, bytes: string, buf: Ptr, req: Ptr, r: int, g: Ptr)
    requires Inv(s) && InOrder(s, g) && Enabled(s, TcpConnect(h, bytes, buf, req, r))
    ensures InOrder(DoTcpConnect(s, h, bytes, buf, req, r), g)
  {
    hide Inv, InOrder;
    SubmissionInOrder(s, DoTcpConnect(s, h, bytes, buf, req, r), ConnectDone(h, req, buf), g);
  }

  lemma {:induction false} SingleFreeInOrder(s: State, i: nat, g: Ptr)
    requires Inv(s) && InOrder(s, g) && i < |s.owed|
    ensures s.owed[i].ShutdownDone? ==> InOrder(DoShutdownCb(s, i), g)
    ensures s.owed[i].CloseDone? ==> InOrder(DoCloseCb(s, i), g)
    ensures s.owed[i].ReadDone? ==> InOrder(DoReadCbFree(s, i), g)
  {
    hide Inv, InOrder;
    match s.owed[i] {
      case ShutdownDone(h, _) =>
        assert DoShutdownCb(s, i).owed == Without(s.owed, i) + [CloseDone(h)];
        RemovalInOrder(s, i, DoShutdownCb(s, i), g);
      case CloseDone(_) => RemovalInOrder(s, i, DoCloseCb(s, i), g);
      case ReadDone(_, _, _) => RemovalInOrder(s, i, DoReadCbFree(s, i), g);
      case _ =>
    }
  }

  lemma {:induction false} StepInOrder(s: State, e: Event, g: Ptr)
    requires Inv(s) && InOrder(s, g) && Enabled(s, e)
    ensures InOrder(Step(s, e), g)
  {
    hide Inv, InOrder, DoUvRun, DoTcpInit, DoUvWrite, DoWriteCb, DoUvShutdown, DoShutdownCb, DoCloseCb, DoAllocCb,
         DoReadCb, DoReadCbFree, DoTcpConnect, DoConnectCb;
    match e {
      case UvRun(p) => NewBlockInOrder(s, p, p, 0, 0, g);
      case TcpInit(h) => NewBlockInOrder(s, h, h, 0, 0, g);
      case RequestOn(h) => SubmissionInOrder(s, DoRequestOn(s, h), CloseDone(h), g);
      case UvWrite(h, bytes, buf, req, r) => UvWriteInOrder(s, h, bytes, buf, req, r, g);
      case WriteCb(i) => WriteCbInOrder(s, i, g);
      case UvShutdown(h, req, r) => NewBlockInOrder(s, h, req, 0, r, g);
      case ShutdownCb(i) => SingleFreeInOrder(s, i, g);
      case CloseCb(i) => SingleFreeInOrder(s, i, g);
      case AllocCb(h, buf, size) => NewBlockInOrder(s, h, buf, size, 0, g);
      case ReadCb(i, nread, data) => ReadCbInOrder(s, i, nread, data, g);
      case ReadCbFree(i) => SingleFreeInOrder(s, i, g);
      case TcpConnect(h, bytes, buf, req, r) => TcpConnectInOrder(s, h, bytes, buf, req, r, g);
      case ConnectCb(i, req, r) => ConnectCbInOrder(s, i, req, r, g);
    }
  }

  lemma {:induction false} RunInOrder(s: State, events: seq<Event>, g: Ptr)
    requires Inv(s) && InOrder(s, g) && Allowed(s, events)
    ensures InOrder(Run(s, events), g)
    decreases |events|
  {
    hide Inv, Step, InOrder;
    if events != [] {
      StepKeepsInv(s, events[0]);
      StepInOrder(s, events[0], g);
      RunInOrder(Step(s, events[0]), events[1..], g);
    }
  }

  /** The callbacks of all accepted writes of the stream have been called. */
  ghost predicate NoWriteOwed(s: State, h: Ptr) {
    forall o :: o in s.owed && o.WriteDone? ==> o.stream != h
  }

  /** In every run and on every stream, what has been sent is a prefix, in order and unchanged, of what
      libuv accepted, and all of it when no write is owed, as when the stream is being closed. */
  lemma {:induction false} DeliveredInOrder(events: seq<Event>, h: Ptr)
    requires Allowed(INITIAL, events)
    ensures var s := Run(INITIAL, events);
            && On(h, s.accepted) == On(h, s.sent) + Pending(s.heap, s.owed, h)
            && (NoWriteOwed(s, h) ==> On(h, s.sent) == On(h, s.accepted))
            && (CloseDone(h) in s.owed ==> NoWriteOwed(s, h))
  {
    InitialInv();
    RunInOrder(INITIAL, events, h);
    Conservation(events);
    var s := Run(INITIAL, events);
    if CloseDone(h) in s.owed {
      NothingPendingAtClose(s, h);
    }
    if NoWriteOwed(s, h) {
      NonePending(s.heap, s.owed, h);
      assert On(h, s.sent) + [] == On(h, s.sent);
    }
  }

  lemma {:induction false} NothingPendingAtClose(s: State, h: Ptr)
    requires Inv(s) && CloseDone(h) in s.owed
    ensures forall o :: o in s.owed && o.stream == h ==> o == CloseDone(h)
    ensures NoWriteOwed(s, h)
  {
    var i :| 0 <= i < |s.owed| && s.owed[i] == CloseDone(h);
    SoleOwner(s, i, h);
    forall o | o in s.owed && o.stream == h ensures o == CloseDone(h) {
      assert WellFormed(s.heap, s.open, o);
    }
  }

  lemma {:induction false} NonePending(heap: map<Ptr, Block>, owed: seq<Owed>, h: Ptr)
    requires forall o :: o in owed && o.WriteDone? ==> o.stream != h
    ensures Pending(heap, owed, h) == []
  {
    if owed != [] {
      assert owed[0] in owed;
      NonePending(heap, owed[1..], h);
    }
  }

  // ---------------------------------------------------------------- the way of a request buffer

  /** The buffer with these bytes is held by exactly one owed callback, of a connect or a write. */
  ghost predicate InFlight(s: State, buf: Ptr, bytes: string) {
    && buf in s.heap && s.heap[buf] == Bytes(bytes)
    && exists o :: o in s.owed && (o.WriteDone? || o.ConnectDone?) && o.buf == buf
  }

  /** The write of this buffer completes. */
  predicate Completes(s: State, e: Event, buf: Ptr) {
    e.WriteCb? && e.i < |s.owed| && s.owed[e.i].WriteDone? && s.owed[e.i].buf == buf
  }

  /** libuv refuses the write of this buffer when the connection is made. */
  predicate Refuses(s: State, e: Event, buf: Ptr) {
    e.ConnectCb? && e.i < |s.owed| && s.owed[e.i].ConnectDone? && s.owed[e.i].buf == buf && e.r != 0
  }

  lemma {:induction false} MemberStays(owed: seq<Owed>, i: nat, o: Owed)
    requires i < |owed| && o in owed && o != owed[i]
    ensures o in Without(owed, i)
  {
    var j :| 0 <= j < |owed| && owed[j] == o;
    assert Without(owed, i)[if j < i then j else j - 1] == o;
  }

  /** Another callback does not touch a buffer in flight. */
  lemma {:induction false} OtherCallback(s: State, i: nat, o: Owed, buf: Ptr)
    requires Inv(s) && i < |s.owed| && o in s.owed && o != s.owed[i] && buf in Blocks(o)
    ensures buf !in Blocks(s.owed[i]) && o in Without(s.owed, i)
  {
    MemberStays(s.owed, i, o);
    if buf in Blocks(s.owed[i]) {
      SoleOwner(s, i, buf);
    }
  }

  lemma {:induction false} WriteCbMovesBuffer(s: State, i: nat, o: Owed, buf: Ptr, bytes: string)
    requires Inv(s) && Enabled(s, WriteCb(i)) && InFlight(s, buf, bytes)
    requires o in s.owed && (o.WriteDone? || o.ConnectDone?) && o.buf == buf
    ensures var s' := DoWriteCb(s, i);
            if s.owed[i].buf == buf then buf !in s'.heap && s'.sent == s.sent + [(s.owed[i].stream, bytes)]
            else InFlight(s', buf, bytes)
  {
    hide Count, Owners;
    if s.owed[i].buf != buf {
      OtherCallback(s, i, o, buf);
    }
  }

  lemma {:induction false} SingleFreeMovesBuffer(s: State, i: nat, o: Owed, buf: Ptr, bytes: string)
    requires Inv(s) && i < |s.owed| && InFlight(s, buf, bytes)
    requires o in s.owed && (o.WriteDone? || o.ConnectDone?) && o.buf == buf
    ensures s.owed[i].ShutdownDone? ==> InFlight(DoShutdownCb(s, i), buf, bytes)
    ensures s.owed[i].CloseDone? ==> InFlight(DoCloseCb(s, i), buf, bytes)
    ensures s.owed[i].ReadDone? ==> InFlight(DoReadCbFree(s, i), buf, bytes)
  {
    hide Inv;
    if o != s.owed[i] {
      OtherCallback(s, i, o, buf);
      assert s.owed[i].ShutdownDone? ==> o in DoShutdownCb(s, i).owed;
    }
  }

  lemma {:induction false} ReadCbMovesBuffer(s: State, i: nat, nread: int, data: string, o: Owed, buf: Ptr,
                                             bytes: string)
    requires Inv(s) && Enabled(s, ReadCb(i, nread, data)) && InFlight(s, buf, bytes)
    requires o in s.owed && (o.WriteDone? || o.ConnectDone?) && o.buf == buf
    ensures InFlight(DoReadCb(s, i, nread, data), buf, bytes)
  {
    hide Inv;
    OtherCallback(s, i, o, buf);
    var j :| 0 <= j < |s.owed| && s.owed[j] == o;
    assert DoReadCb(s, i, nread, data).owed[j] == o;
  }

  lemma {:induction false} ConnectCbMovesBuffer(s: State, i: nat, req: Ptr, r: int, o: Owed, buf: Ptr, bytes: string)
    requires Inv(s) && Enabled(s, ConnectCb(i, req, r)) && InFlight(s, buf, bytes)
    requires o in s.owed && (o.WriteDone? || o.ConnectDone?) && o.buf == buf
    ensures var s' := DoConnectCb(s, i, req, r);
            if s.owed[i].buf == buf && r != 0 then buf in s'.lost && buf in s'.heap && s'.heap[buf] == Bytes(bytes)
            else InFlight(s', buf, bytes)
    ensures s.owed[i].buf == buf && r == 0 ==>
            var s' := DoConnectCb(s, i, req, r);
            && s.owed[i].req !in s'.heap && req in s'.heap && s'.heap[req] == WriteReq(buf)
            && WriteDone(s.owed[i].stream, req, buf) in s'.owed
            && s'.accepted == s.accepted + [(s.owed[i].stream, bytes)]
  {
    hide Count, Owners;
    var mine := s.owed[i];
    var s' := DoConnectCb(s, i, req, r);
    assert WellFormed(s.heap, s.open, mine);
    SoleOwner(s, i, mine.req);
    if mine.buf != buf {
      OtherCallback(s, i, o, buf);
      assert o in s'.owed;
    } else if r == 0 {
      assert s'.owed[|s'.owed| - 1] == WriteDone(mine.stream, req, buf);
    }
  }

  lemma {:induction false} NewBlockKeepsBuffer(s: State, s': State, o: Owed, buf: Ptr, bytes: string)
    requires InFlight(s, buf, bytes)
    requires o in s.owed && (o.WriteDone? || o.ConnectDone?) && o.buf == buf
    requires s.owed <= s'.owed && buf in s'.heap && s'.heap[buf] == s.heap[buf]
    ensures InFlight(s', buf, bytes)
  {
    assert o in s'.owed;
  }

  /** A buffer in flight stays in flight, with its bytes, through every step but two: the completion
      of its own write, which sends those bytes and frees it, and a refusal of that write. */
  lemma {:induction false} BufferStep(s: State, e: Event, buf: Ptr, bytes: string)
    requires Inv(s) && Enabled(s, e) && InFlight(s, buf, bytes)
    ensures var s' := Step(s, e);
            if Completes(s, e, buf) then
              buf !in s'.heap && s'.sent == s.sent + [(s.owed[e.i].stream, bytes)]
            else if Refuses(s, e, buf) then
              buf in s'.lost && buf in s'.heap && s'.heap[buf] == Bytes(bytes)
            else InFlight(s', buf, bytes)
  {
    hide Inv, DoWriteCb, DoShutdownCb, DoCloseCb, DoReadCb, DoReadCbFree, DoConnectCb;
    var o :| o in s.owed && (o.WriteDone? || o.ConnectDone?) && o.buf == buf;
    match e {
      case WriteCb(i) => WriteCbMovesBuffer(s, i, o, buf, bytes);
      case ShutdownCb(i) => SingleFreeMovesBuffer(s, i, o, buf, bytes);
      case CloseCb(i) => SingleFreeMovesBuffer(s, i, o, buf, bytes);
      case ReadCb(i, nread, data) => ReadCbMovesBuffer(s, i, nread, data, o, buf, bytes);
      case ReadCbFree(i) => SingleFreeMovesBuffer(s, i, o, buf, bytes);
      case ConnectCb(i, req, r) => ConnectCbMovesBuffer(s, i, req, r, o, buf, bytes);
      case _ => NewBlockKeepsBuffer(s, Step(s, e), o, buf, bytes);
    }
  }

  /** The run has a step that completes or refuses the write of the buffer. */
  ghost predicate Settles(s: State, events: seq<Event>, buf: Ptr)
    requires Allowed(s, events)
    decreases |events|
  {
    events != [] &&
    (Completes(s, events[0], buf) || Refuses(s, events[0], buf) || Settles(Step(s, events[0]), events[1..], buf))
  }

  lemma {:induction false} BufferRun(s: State, events: seq<Event>, buf: Ptr, bytes: string)
    requires Inv(s) && InFlight(s, buf, bytes) && Allowed(s, events) && !Settles(s, events, buf)
    ensures InFlight(Run(s, events), buf, bytes) && Owners(Run(s, events), buf) == 1
    decreases |events|
  {
    hide Step;
    if events != [] {
      BufferStep(s, events[0], buf, bytes);
      StepKeepsInv(s, events[0]);
      BufferRun(Step(s, events[0]), events[1..], buf, bytes);
    }
  }

  /** The handover: once a connect has been submitted, whatever else happens, its buffer keeps its
      bytes and one owner until its write is settled. */
  lemma {:induction false} ConnectBufferKept(s: State, h: Ptr, bytes: string, buf: Ptr, req: Ptr, events: seq<Event>)
    requires Inv(s) && Enabled(s, TcpConnect(h, bytes, buf, req, 0))
    requires Allowed(DoTcpConnect(s, h, bytes, buf, req, 0), events)
    requires !Settles(DoTcpConnect(s, h, bytes, buf, req, 0), events, buf)
    ensures var s' := Run(DoTcpConnect(s, h, bytes, buf, req, 0), events);
            InFlight(s', buf, bytes) && Owners(s', buf) == 1
  {
    var s1 := DoTcpConnect(s, h, bytes, buf, req, 0);
    TcpConnectKeeps(s, h, bytes, buf, req, 0);
    assert s1.owed[|s.owed|] == ConnectDone(h, req, buf);
    BufferRun(s1, events, buf, bytes);
  }

  /** The connect callback moves the buffer, unchanged, from the connect request, which is freed, to
      the write request, which is the only owner from then on. */
  lemma {:induction false} Handover(s: State, i: nat, req: Ptr, bytes: string)
    requires Inv(s) && Enabled(s, ConnectCb(i, req, 0)) && InFlight(s, s.owed[i].buf, bytes)
    ensures var o := s.owed[i];
            var s' := Step(s, ConnectCb(i, req, 0));
            && o.req !in s'.heap && req in s'.heap && s'.heap[req] == WriteReq(o.buf)
            && InFlight(s', o.buf, bytes) && Owners(s', o.buf) == 1
            && WriteDone(o.stream, req, o.buf) in s'.owed && s'.accepted == s.accepted + [(o.stream, bytes)]
  {
    ConnectCbMovesBuffer(s, i, req, 0, s.owed[i], s.owed[i].buf, bytes);
    ConnectCbKeeps(s, i, req, 0);
  }
}
