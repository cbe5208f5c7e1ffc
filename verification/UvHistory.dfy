/** What the state of the loop says about the calls made: which handles are still open, which have a
    callback, and what has been handed to user code. */
module UvHistory {
  import opened Uv
  import opened UvLaws
  import opened UvRuns

  lemma {:induction false} RunSnoc(s: State, events: seq<Event>, e: Event)
    requires Allowed(s, events + [e])
    ensures Allowed(s, events) && Enabled(Run(s, events), e)
    ensures Run(s, events + [e]) == Step(Run(s, events), e)
    decreases |events|
  {
    hide Step, Enabled;
    if events == [] {
      assert [e][1..] == [];
    } else {
      assert (events + [e])[1..] == events[1..] + [e];
      RunSnoc(Step(s, events[0]), events[1..], e);
    }
  }

  /** Event `j` is the last one that made a handle of the block: addresses are given out again. */
  predicate LastInit(h: Ptr, events: seq<Event>, j: int) {
    0 <= j < |events| && events[j] == TcpInit(h) && forall k :: j < k < |events| ==> events[k] != TcpInit(h)
  }

  lemma {:induction false} LastInitNow(h: Ptr, events: seq<Event>)
    ensures LastInit(h, events + [TcpInit(h)], |events|)
    ensures forall j :: LastInit(h, events + [TcpInit(h)], j) ==> j == |events|
  {
  }

  lemma {:induction false} LastInitBefore(h: Ptr, events: seq<Event>, e: Event, j: int)
    requires e != TcpInit(h)
    ensures LastInit(h, events + [e], j) <==> LastInit(h, events, j)
  {
    var all := events + [e];
    assert all[|events|] == e;
    assert forall k :: 0 <= k < |events| ==> all[k] == events[k];
    if LastInit(h, all, j) {
      forall k | j < k < |events| ensures events[k] != TcpInit(h) {
        assert all[k] != TcpInit(h);
      }
    }
  }

  // ---------------------------------------------------------------- open handles

  predicate ShutsDown(h: Ptr, e: Event) { e.UvShutdown? && e.h == h && e.r == 0 }

  /** No shutdown of the handle was accepted after event `j`. */
  predicate LeftAlone(h: Ptr, events: seq<Event>, j: int) {
    forall k :: j < k < |events| && 0 <= k ==> !ShutsDown(h, events[k])
  }

  /** The block is a handle made and not shut down since. */
  ghost predicate NeverShut(h: Ptr, events: seq<Event>) {
    exists j :: LastInit(h, events, j) && LeftAlone(h, events, j)
  }

  ghost predicate ShutdownOwed(s: State, h: Ptr) {
    exists o :: o in s.owed && o.ShutdownDone? && o.stream == h
  }

  lemma {:induction false} LeftAloneLater(h: Ptr, events: seq<Event>, e: Event, j: int)
    requires 0 <= j < |events|
    ensures LeftAlone(h, events + [e], j) <==> LeftAlone(h, events, j) && !ShutsDown(h, e)
  {
    var all := events + [e];
    if LeftAlone(h, all, j) {
      assert !ShutsDown(h, all[|events|]);
      forall k | j < k < |events| && 0 <= k ensures !ShutsDown(h, events[k]) {
        assert all[k] == events[k];
      }
    }
  }

  lemma {:induction false} NeverShutLater(h: Ptr, events: seq<Event>, e: Event)
    ensures NeverShut(h, events + [e]) <==> e == TcpInit(h) || (NeverShut(h, events) && !ShutsDown(h, e))
  {
    hide LastInit, LeftAlone;
    var all := events + [e];
    if e == TcpInit(h) {
      LastInitNow(h, events);
      NothingAfter(h, all, |events|);
    } else {
      if j :| LastInit(h, all, j) && LeftAlone(h, all, j) {
        LastInitBefore(h, events, e, j);
        InRange(h, events, j);
        LeftAloneLater(h, events, e, j);
      }
      if j :| LastInit(h, events, j) && LeftAlone(h, events, j) {
        LastInitBefore(h, events, e, j);
        InRange(h, events, j);
        LeftAloneLater(h, events, e, j);
      }
    }
  }

  lemma {:induction false} NothingAfter(h: Ptr, events: seq<Event>, j: int)
    requires j >= |events| - 1
    ensures LeftAlone(h, events, j)
  {
  }

  lemma {:induction false} InRange(h: Ptr, events: seq<Event>, j: int)
    requires LastInit(h, events, j)
    ensures 0 <= j < |events|
  {
  }

  /** The handle is open and will stay so unless it is shut down. */
  ghost predicate Staying(s: State, h: Ptr) { h in s.open && !ShutdownOwed(s, h) }

  /** Steps that change neither the open handles nor the shutdowns owed. */
  lemma {:induction false} SameShutdowns(s: State, s': State, h: Ptr)
    requires s'.open == s.open
    requires forall o: Owed :: o.ShutdownDone? ==> (o in s'.owed <==> o in s.owed)
    ensures Staying(s', h) <==> Staying(s, h)
  {
  }

  lemma {:induction false} OthersOwed(owed: seq<Owed>, i: nat)
    requires i < |owed|
    ensures forall o :: o in Without(owed, i) ==> o in owed
    ensures forall o :: o in owed && o != owed[i] ==> o in Without(owed, i)
  {
    forall o | o in owed && o != owed[i] ensures o in Without(owed, i) {
      MemberStays(owed, i, o);
    }
  }

  lemma {:induction false} InitStays(s: State, h: Ptr, g: Ptr)
    requires Inv(s) && Enabled(s, TcpInit(g))
    ensures Staying(DoTcpInit(s, g), h) <==> h == g || Staying(s, h)
  {
    hide Count, Owners;
    if h == g {
      forall o | o in s.owed && o.ShutdownDone? ensures o.stream != h {
        assert WellFormed(s.heap, s.open, o) && (o.stream in s.open ==> IsHandle(s, o.stream));
      }
    }
  }

  lemma {:induction false} ShutdownStays(s: State, h: Ptr, g: Ptr, req: Ptr, r: int)
    ensures Staying(DoUvShutdown(s, g, req, r), h) <==> Staying(s, h) && !(g == h && r == 0)
  {
    var s' := DoUvShutdown(s, g, req, r);
    if r == 0 {
      assert s'.owed[|s.owed|] == ShutdownDone(g, req);
    }
    forall o | o in s.owed ensures o in s'.owed {
    }
  }

  lemma {:induction false} ShutdownCbStays(s: State, h: Ptr, i: nat)
    requires Inv(s) && Enabled(s, ShutdownCb(i))
    ensures Staying(DoShutdownCb(s, i), h) <==> Staying(s, h)
  {
    hide Inv;
    OthersOwed(s.owed, i);
    var s', g := DoShutdownCb(s, i), s.owed[i].stream;
    assert ShutdownOwed(s, g);
    if h != g {
      assert ShutdownOwed(s', h) <==> ShutdownOwed(s, h);
    }
  }

  lemma {:induction false} ReadCbStays(s: State, h: Ptr, i: nat, nread: int, data: string)
    requires Enabled(s, ReadCb(i, nread, data))
    ensures Staying(DoReadCb(s, i, nread, data), h) <==> Staying(s, h)
  {
    var s' := DoReadCb(s, i, nread, data);
    forall o: Owed | o.ShutdownDone? ensures o in s'.owed <==> o in s.owed {
      if j :| 0 <= j < |s.owed| && s.owed[j] == o {
        assert s'.owed[j] == o;
      }
      if j :| 0 <= j < |s'.owed| && s'.owed[j] == o {
        assert j != i;
      }
    }
    SameShutdowns(s, s', h);
  }

  lemma {:induction false} RemovalStays(s: State, s': State, i: nat, h: Ptr)
    requires i < |s.owed| && !s.owed[i].ShutdownDone? && s'.open == s.open
    requires s'.owed == Without(s.owed, i) ||
             exists stream, req, buf :: s'.owed == Without(s.owed, i) + [WriteDone(stream, req, buf)]
    ensures Staying(s', h) <==> Staying(s, h)
  {
    OthersOwed(s.owed, i);
    hide Without;
    SameShutdowns(s, s', h);
  }

  lemma {:induction false} SubmissionStays(s: State, s': State, o: Owed, h: Ptr)
    requires !o.ShutdownDone? && s'.open == s.open && (s'.owed == s.owed || s'.owed == s.owed + [o])
    ensures Staying(s', h) <==> Staying(s, h)
  {
    SameShutdowns(s, s', h);
  }

  lemma {:induction false} StepStays(s: State, e: Event, h: Ptr)
    requires Inv(s) && Enabled(s, e)
    ensures Staying(Step(s, e), h) <==> e == TcpInit(h) || (Staying(s, h) && !ShutsDown(h, e))
  {
    hide Inv, Staying, Without;
    var s' := Step(s, e);
    match e {
      case UvRun(p) => SubmissionStays(s, s', CloseDone(p), h);
      case TcpInit(g) => InitStays(s, h, g);
      case RequestOn(g) => SubmissionStays(s, s', CloseDone(g), h);
      case UvWrite(g, _, buf, req, _) => SubmissionStays(s, s', WriteDone(g, req, buf), h);
      case WriteCb(i) => RemovalStays(s, s', i, h);
      case UvShutdown(g, req, r) => ShutdownStays(s, h, g, req, r);
      case ShutdownCb(i) => ShutdownCbStays(s, h, i);
      case CloseCb(i) => RemovalStays(s, s', i, h);
      case AllocCb(g, buf, _) => SubmissionStays(s, s', ReadDone(g, buf, false), h);
      case ReadCb(i, nread, data) => ReadCbStays(s, h, i, nread, data);
      case ReadCbFree(i) => RemovalStays(s, s', i, h);
      case TcpConnect(g, _, buf, req, _) => SubmissionStays(s, s', ConnectDone(g, req, buf), h);
      case ConnectCb(i, req, r) =>
        assert r == 0 ==> s'.owed == Without(s.owed, i) + [WriteDone(s.owed[i].stream, req, s.owed[i].buf)];
        RemovalStays(s, s', i, h);
    }
  }

  lemma {:induction false} StayingIff(events: seq<Event>, h: Ptr)
    requires Allowed(INITIAL, events)
    ensures Staying(Run(INITIAL, events), h) <==> NeverShut(h, events)
    decreases |events|
  {
    hide Inv, Step, Enabled, Staying, ShutsDown, LeftAlone;
    if events == [] {
      NoHandles(h);
    } else {
      var init, e := events[..|events| - 1], events[|events| - 1];
      assert events == init + [e];
      RunSnoc(INITIAL, init, e);
      StayingIff(init, h);
      Conservation(init);
      StepStays(Run(INITIAL, init), e, h);
      NeverShutLater(h, init, e);
    }
  }

  lemma {:induction false} NoHandles(h: Ptr)
    ensures !Staying(INITIAL, h)
  {
  }

  /** Which handles are never closed: in every run a handle is open with no shutdown of it owed exactly when
      none was accepted since its block was last made a handle. When nothing is owed, these are all the
      open handles. */
  lemma {:induction false} OpenIff(events: seq<Event>, h: Ptr)
    requires Allowed(INITIAL, events)
    ensures var s := Run(INITIAL, events);
            && (h in s.open && !ShutdownOwed(s, h) <==> NeverShut(h, events))
            && (s.owed == [] ==> (h in s.open <==> NeverShut(h, events)))
  {
    StayingIff(events, h);
  }

  // ---------------------------------------------------------------- stored callbacks

  predicate StoresCallback(h: Ptr, e: Event) { (e.RequestOn? || e.TcpConnect?) && e.h == h }

  predicate StoredSince(h: Ptr, events: seq<Event>, j: int) {
    exists k :: 0 <= k < |events| && j < k && StoresCallback(h, events[k])
  }

  /** A callback was stored in the handle since its block was last made one. */
  ghost predicate Stored(h: Ptr, events: seq<Event>) {
    exists j :: LastInit(h, events, j) && StoredSince(h, events, j)
  }

  ghost predicate Made(h: Ptr, events: seq<Event>) { exists j :: LastInit(h, events, j) }

  lemma {:induction false} StoredSinceLater(h: Ptr, events: seq<Event>, e: Event, j: int)
    requires 0 <= j < |events|
    ensures StoredSince(h, events + [e], j) <==> StoredSince(h, events, j) || StoresCallback(h, e)
  {
    var all := events + [e];
    if StoresCallback(h, e) {
      assert all[|events|] == e;
    }
    if k :| 0 <= k < |events| && j < k && StoresCallback(h, events[k]) {
      assert all[k] == events[k];
    }
  }

  lemma {:induction false} NothingStored(h: Ptr, events: seq<Event>, j: int)
    requires j >= |events| - 1
    ensures !StoredSince(h, events, j)
  {
  }

  lemma {:induction false} StoredLater(h: Ptr, events: seq<Event>, e: Event)
    ensures Made(h, events + [e]) <==> e == TcpInit(h) || Made(h, events)
    ensures Stored(h, events + [e]) <==>
            e != TcpInit(h) && (Stored(h, events) || (Made(h, events) && StoresCallback(h, e)))
  {
    hide LastInit, StoredSince;
    var all := events + [e];
    if e == TcpInit(h) {
      LastInitNow(h, events);
      NothingStored(h, all, |events|);
    } else {
      forall j ensures LastInit(h, all, j) <==> LastInit(h, events, j) {
        LastInitBefore(h, events, e, j);
      }
      forall j | LastInit(h, events, j)
        ensures StoredSince(h, all, j) <==> StoredSince(h, events, j) || StoresCallback(h, e) {
        InRange(h, events, j);
        StoredSinceLater(h, events, e, j);
      }
    }
  }

  /** The block is the same handle as before, unless it is no handle now. */
  predicate SameHandle(s: State, s': State, h: Ptr) {
    IsHandle(s', h) ==> IsHandle(s, h) && s'.heap[h] == s.heap[h]
  }

  lemma {:induction false} CallsKeepHandles(s: State, e: Event, h: Ptr)
    requires Enabled(s, e) && (e.UvRun? || e.UvWrite? || e.UvShutdown? || e.AllocCb?)
    ensures SameHandle(s, Step(s, e), h)
  {
  }

  lemma {:induction false} FreesKeepHandles(s: State, i: nat, h: Ptr)
    requires i < |s.owed|
    ensures s.owed[i].WriteDone? ==> SameHandle(s, DoWriteCb(s, i), h)
    ensures s.owed[i].ShutdownDone? ==> SameHandle(s, DoShutdownCb(s, i), h)
    ensures s.owed[i].CloseDone? ==> SameHandle(s, DoCloseCb(s, i), h)
    ensures s.owed[i].ReadDone? ==> SameHandle(s, DoReadCbFree(s, i), h)
  {
    hide Without;
  }

  lemma {:induction false} ReadCbKeepsHandles(s: State, i: nat, nread: int, data: string, h: Ptr)
    requires Inv(s) && Enabled(s, ReadCb(i, nread, data))
    ensures SameHandle(s, DoReadCb(s, i, nread, data), h)
  {
    hide Count, Owners;
    assert WellFormed(s.heap, s.open, s.owed[i]);
  }

  lemma {:induction false} ConnectCbKeepsHandles(s: State, i: nat, req: Ptr, r: int, h: Ptr)
    requires Enabled(s, ConnectCb(i, req, r))
    ensures SameHandle(s, DoConnectCb(s, i, req, r), h)
  {
    hide Without;
  }

  lemma {:induction false} StoringCallback(s: State, e: Event, h: Ptr)
    requires Enabled(s, e) && (e.TcpInit? || e.RequestOn? || e.TcpConnect?)
    ensures e.h != h ==> SameHandle(s, Step(s, e), h)
    ensures e.h == h && !e.TcpInit? ==> IsHandle(s, h)
    ensures e.h == h ==> Step(s, e).heap[h] == Tcp(!e.TcpInit?)
  {
  }

  /** A block that stays a handle keeps its callback until one is stored. */
  lemma {:induction false} StepCallback(s: State, e: Event, h: Ptr)
    requires Inv(s) && Enabled(s, e) && IsHandle(Step(s, e), h)
    ensures e != TcpInit(h) ==> IsHandle(s, h)
    ensures Step(s, e).heap[h].hasCallback <==>
            e != TcpInit(h) && (s.heap[h].hasCallback || StoresCallback(h, e))
  {
    hide Inv, DoUvRun, DoTcpInit, DoRequestOn, DoUvWrite, DoWriteCb, DoUvShutdown, DoShutdownCb, DoCloseCb, DoAllocCb,
         DoReadCb, DoReadCbFree, DoTcpConnect, DoConnectCb;
    match e {
      case TcpInit(_) => StoringCallback(s, e, h);
      case RequestOn(_) => StoringCallback(s, e, h);
      case TcpConnect(_, _, _, _, _) => StoringCallback(s, e, h);
      case WriteCb(i) => FreesKeepHandles(s, i, h);
      case ShutdownCb(i) => FreesKeepHandles(s, i, h);
      case CloseCb(i) => FreesKeepHandles(s, i, h);
      case ReadCb(i, nread, data) => ReadCbKeepsHandles(s, i, nread, data, h);
      case ReadCbFree(i) => FreesKeepHandles(s, i, h);
      case ConnectCb(i, req, r) => ConnectCbKeepsHandles(s, i, req, r, h);
      case _ => CallsKeepHandles(s, e, h);
    }
  }

  lemma {:induction false} HandleCallback(events: seq<Event>, h: Ptr)
    requires Allowed(INITIAL, events)
    ensures var s := Run(INITIAL, events);
            IsHandle(s, h) ==> Made(h, events) && (s.heap[h].hasCallback <==> Stored(h, events))
    decreases |events|
  {
    hide Inv, Step, Enabled, Made, Stored, StoresCallback;
    if events != [] {
      var init, e := events[..|events| - 1], events[|events| - 1];
      assert events == init + [e];
      RunSnoc(INITIAL, init, e);
      var s := Run(INITIAL, init);
      Conservation(init);
      if IsHandle(Step(s, e), h) {
        HandleCallback(init, h);
        StepCallback(s, e, h);
        StoredLater(h, init, e);
      }
    }
  }

  /** In every run, when data of a stream are handed over, there is a callback to hand them to exactly when
      `request_on` or `request` has stored one since the handle was made. */
  lemma {:induction false} CallbackIff(events: seq<Event>, i: nat, nread: int, data: string)
    requires Allowed(INITIAL, events) && Enabled(Run(INITIAL, events), ReadCb(i, nread, data))
    ensures var s := Run(INITIAL, events);
            var h := s.owed[i].stream;
            IsHandle(s, h) && (s.heap[h].hasCallback <==> Stored(h, events))
  {
    hide Count, Owners, Stored;
    var s := Run(INITIAL, events);
    Conservation(events);
    assert WellFormed(s.heap, s.open, s.owed[i]);
    HandleCallback(events, s.owed[i].stream);
  }

  // ---------------------------------------------------------------- the life of a read buffer

  /** `read_cb` of the stream has called user code and has not returned. */
  ghost predicate Reading(s: State, h: Ptr) {
    exists buf :: ReadDone(h, buf, true) in s.owed
  }

  /** `alloc_cb` gives libuv a new buffer of the suggested size, all zeros, and owes it to a read. */
  lemma {:induction false} AllocGives(s: State, h: Ptr, buf: Ptr, size: nat)
    requires Enabled(s, AllocCb(h, buf, size))
    ensures var s' := Step(s, AllocCb(h, buf, size));
            && buf !in s.heap && buf in s'.heap && s'.heap[buf].Bytes? && |s'.heap[buf].data| == size
            && (forall k :: 0 <= k < size ==> s'.heap[buf].data[k] == '\0')
            && (forall p :: p in s.heap ==> p in s'.heap && s'.heap[p] == s.heap[p])
            && s'.owed == s.owed + [ReadDone(h, buf, false)]
  {
  }

  /** After `read_cb` has called user code: the buffer starts with what was read and has its size, it is only to
      be freed, which can happen next, and the read cannot be handed over again. */
  lemma {:induction false} ReadHandsOver(s: State, i: nat, nread: int, data: string)
    requires Inv(s) && Enabled(s, ReadCb(i, nread, data))
    ensures var s', o := Step(s, ReadCb(i, nread, data)), s.owed[i];
            && Enabled(s', ReadCbFree(i)) && s'.owed[i] == o.(handed := true) && Reading(s', o.stream)
            && (forall n, d :: !Enabled(s', ReadCb(i, n, d)))
            && |BytesOf(s'.heap, o.buf)| == |BytesOf(s.heap, o.buf)|
            && (nread > 0 ==> data <= BytesOf(s'.heap, o.buf))
            && (nread <= 0 ==> s'.heap == s.heap)
            && forall j :: 0 <= j < |s.owed| && j != i ==> s'.owed[j] == s.owed[j]
  {
    hide Count, Owners;
    assert WellFormed(s.heap, s.open, s.owed[i]);
    var owed := DoReadCb(s, i, nread, data).owed;
    assert owed[i] == ReadDone(s.owed[i].stream, s.owed[i].buf, true) && owed[i] in owed;
  }

  /** A read with this buffer; or only one that has been handed over. */
  predicate OfRead(o: Owed, b: Ptr, handed: bool) {
    o.ReadDone? && o.buf == b && (handed ==> o.handed)
  }

  function Reads(owed: seq<Owed>, b: Ptr, handed: bool): nat {
    if owed == [] then 0 else (if OfRead(owed[0], b, handed) then 1 else 0) + Reads(owed[1..], b, handed)
  }

  lemma {:induction false} ReadsSnoc(owed: seq<Owed>, o: Owed, b: Ptr, handed: bool)
    ensures Reads(owed + [o], b, handed) == Reads(owed, b, handed) + if OfRead(o, b, handed) then 1 else 0
  {
    if owed == [] {
      assert owed + [o] == [o];
      assert Reads([o][1..], b, handed) == 0;
    } else {
      assert (owed + [o])[1..] == owed[1..] + [o];
      ReadsSnoc(owed[1..], o, b, handed);
    }
  }

  lemma {:induction false} ReadsWithout(owed: seq<Owed>, i: nat, b: Ptr, handed: bool)
    requires i < |owed|
    ensures Reads(owed, b, handed) == Reads(Without(owed, i), b, handed) + if OfRead(owed[i], b, handed) then 1 else 0
    decreases i
  {
    if i == 0 {
      assert Without(owed, 0) == owed[1..];
    } else {
      ReadsWithout(owed[1..], i - 1, b, handed);
      assert Without(owed, i)[0] == owed[0];
      assert Without(owed, i)[1..] == Without(owed[1..], i - 1);
    }
  }

  lemma {:induction false} ReadsOwned(owed: seq<Owed>, b: Ptr, handed: bool)
    ensures Reads(owed, b, handed) <= Count(owed, b)
  {
    if owed != [] {
      ReadsOwned(owed[1..], b, handed);
    }
  }

  /** How often `alloc_cb` has allocated the block. */
  function Allocs(events: seq<Event>, b: Ptr): nat {
    if events == [] then 0 else (if events[0].AllocCb? && events[0].buf == b then 1 else 0) + Allocs(events[1..], b)
  }

  /** How often a read with the block has been handed over. */
  ghost function Hands(s: State, events: seq<Event>, b: Ptr): nat
    requires Allowed(s, events)
    decreases |events|
  {
    if events == [] then 0
    else
      (if events[0].ReadCb? && s.owed[events[0].i].buf == b then 1 else 0) + Hands(Step(s, events[0]), events[1..], b)
  }

  /** How often `read_cb` has freed the block. */
  ghost function Frees(s: State, events: seq<Event>, b: Ptr): nat
    requires Allowed(s, events)
    decreases |events|
  {
    if events == [] then 0
    else
      (if events[0].ReadCbFree? && s.owed[events[0].i].buf == b then 1 else 0) +
      Frees(Step(s, events[0]), events[1..], b)
  }

  lemma {:induction false} CallKeepsReads(s: State, s': State, o: Owed, b: Ptr, handed: bool)
    requires !o.ReadDone? && (s'.owed == s.owed || s'.owed == s.owed + [o])
    ensures Reads(s'.owed, b, handed) == Reads(s.owed, b, handed)
  {
    ReadsSnoc(s.owed, o, b, handed);
  }

  lemma {:induction false} CallbackKeepsReads(s: State, s': State, i: nat, o: Owed, b: Ptr, handed: bool)
    requires i < |s.owed| && !s.owed[i].ReadDone? && !o.ReadDone?
    requires s'.owed == Without(s.owed, i) || s'.owed == Without(s.owed, i) + [o]
    ensures Reads(s'.owed, b, handed) == Reads(s.owed, b, handed)
  {
    hide Without;
    ReadsWithout(s.owed, i, b, handed);
    ReadsSnoc(Without(s.owed, i), o, b, handed);
  }

  lemma {:induction false} HandingReads(s: State, i: nat, nread: int, data: string, b: Ptr, handed: bool)
    requires Enabled(s, ReadCb(i, nread, data))
    ensures Reads(DoReadCb(s, i, nread, data).owed, b, handed) ==
            Reads(s.owed, b, handed) + if handed && s.owed[i].buf == b then 1 else 0
  {
    var s' := DoReadCb(s, i, nread, data);
    ReadsWithout(s.owed, i, b, handed);
    ReadsWithout(s'.owed, i, b, handed);
    assert Without(s'.owed, i) == Without(s.owed, i);
    assert s'.owed[i] == s.owed[i].(handed := true);
  }

  /** What an event adds to the reads owed with the block. */
  function Change(s: State, e: Event, b: Ptr, handed: bool): int
    requires e.ReadCb? || e.ReadCbFree? ==> e.i < |s.owed| && s.owed[e.i].ReadDone?
  {
    match e
    case AllocCb(_, buf, _) => if buf == b && !handed then 1 else 0
    case ReadCb(i, _, _) => if s.owed[i].buf == b && handed then 1 else 0
    case ReadCbFree(i) => if s.owed[i].buf == b then -1 else 0
    case _ => 0
  }

  lemma {:induction false} StepReads(s: State, e: Event, b: Ptr, handed: bool)
    requires Enabled(s, e)
    ensures Reads(Step(s, e).owed, b, handed) == Reads(s.owed, b, handed) + Change(s, e, b, handed)
  {
    hide Reads, Without;
    var s' := Step(s, e);
    match e {
      case UvRun(p) => CallKeepsReads(s, s', CloseDone(p), b, handed);
      case TcpInit(g) => CallKeepsReads(s, s', CloseDone(g), b, handed);
      case RequestOn(g) => CallKeepsReads(s, s', CloseDone(g), b, handed);
      case UvWrite(g, _, buf, req, _) => CallKeepsReads(s, s', WriteDone(g, req, buf), b, handed);
      case WriteCb(i) => CallbackKeepsReads(s, s', i, CloseDone(0), b, handed);
      case UvShutdown(g, req, _) => CallKeepsReads(s, s', ShutdownDone(g, req), b, handed);
      case ShutdownCb(i) => CallbackKeepsReads(s, s', i, CloseDone(s.owed[i].stream), b, handed);
      case CloseCb(i) => CallbackKeepsReads(s, s', i, CloseDone(0), b, handed);
      case AllocCb(g, buf, _) => ReadsSnoc(s.owed, ReadDone(g, buf, false), b, handed);
      case ReadCb(i, nread, data) => HandingReads(s, i, nread, data, b, handed);
      case ReadCbFree(i) => ReadsWithout(s.owed, i, b, handed);
      case TcpConnect(g, _, buf, req, _) => CallKeepsReads(s, s', ConnectDone(g, req, buf), b, handed);
      case ConnectCb(i, req, _) =>
        CallbackKeepsReads(s, s', i, WriteDone(s.owed[i].stream, req, s.owed[i].buf), b, handed);
    }
  }

  lemma {:induction false} RunReads(s: State, events: seq<Event>, b: Ptr)
    requires Allowed(s, events)
    ensures var owed := Run(s, events).owed;
            && Reads(s.owed, b, false) + Allocs(events, b) == Frees(s, events, b) + Reads(owed, b, false)
            && Reads(s.owed, b, true) + Hands(s, events, b) == Frees(s, events, b) + Reads(owed, b, true)
    decreases |events|
  {
    hide Step, Reads;
    if events != [] {
      StepReads(s, events[0], b, false);
      StepReads(s, events[0], b, true);
      RunReads(Step(s, events[0]), events[1..], b);
    }
  }

  /** In every run, of every block: as often as `alloc_cb` has allocated it for a read, `read_cb` has freed it,
      but for the one read that is owed with it now; and as often it has been handed over before, but
      for that read if its data have been handed over. So when no read is owed with the block, each
      time it was allocated it was handed over once and freed once. */
  lemma {:induction false} ReadsSettled(events: seq<Event>, b: Ptr)
    requires Allowed(INITIAL, events)
    ensures var owed := Run(INITIAL, events).owed;
            && Reads(owed, b, false) <= 1
            && Allocs(events, b) == Frees(INITIAL, events, b) + Reads(owed, b, false)
            && Hands(INITIAL, events, b) == Frees(INITIAL, events, b) + Reads(owed, b, true)
            && ((forall o :: o in owed && o.ReadDone? ==> o.buf != b) ==>
                Allocs(events, b) == Hands(INITIAL, events, b) == Frees(INITIAL, events, b))
  {
    RunReads(INITIAL, events, b);
    Conservation(events);
    hide Reads;
    var s := Run(INITIAL, events);
    assert Reads([], b, false) == 0 && Reads([], b, true) == 0 by {
      NoReads([], b, false);
      NoReads([], b, true);
    }
    ReadsOwned(s.owed, b, false);
    assert Owners(s, b) <= 1;
    if forall o :: o in s.owed && o.ReadDone? ==> o.buf != b {
      NoReads(s.owed, b, false);
      NoReads(s.owed, b, true);
    }
  }

  lemma {:induction false} NoReads(owed: seq<Owed>, b: Ptr, handed: bool)
    requires forall o :: o in owed && o.ReadDone? ==> o.buf != b
    ensures Reads(owed, b, handed) == 0
  {
    if owed != [] {
      assert owed[0] in owed;
      NoReads(owed[1..], b, handed);
    }
  }

  // ---------------------------------------------------------------- received data

  /** What the kernel delivers on a stream: the data of its reads, and an empty string at its end. */
  ghost function Delivered(s: State, events: seq<Event>, h: Ptr): seq<string>
    requires Allowed(s, events)
    decreases |events|
  {
    if events == [] then []
    else
      (match events[0]
       case ReadCb(i, nread, data) =>
         if s.owed[i].stream == h && nread > 0 then [data]
         else if s.owed[i].stream == h && nread < 0 then [""]
         else []
       case _ => []) + Delivered(Step(s, events[0]), events[1..], h)
  }

  lemma {:induction false} StepHands(s: State, e: Event, h: Ptr)
    requires Enabled(s, e)
    ensures Allowed(s, [e]) && On(h, Step(s, e).inbox) == On(h, s.inbox) + Delivered(s, [e], h)
  {
    hide On, Without;
    assert [e][1..] == [];
    match e {
      case ReadCb(i, nread, data) =>
        OnSnoc(h, s.inbox, (s.owed[i].stream, if nread < 0 then "" else data));
      case _ =>
    }
  }

  lemma {:induction false} RunHands(s: State, events: seq<Event>, h: Ptr)
    requires Allowed(s, events)
    ensures On(h, Run(s, events).inbox) == On(h, s.inbox) + Delivered(s, events, h)
    decreases |events|
  {
    hide On, Step, Enabled;
    if events == [] {
      assert On(h, s.inbox) + [] == On(h, s.inbox);
    } else {
      var e, rest := events[0], events[1..];
      StepHands(s, e, h);
      RunHands(Step(s, e), rest, h);
      assert [e][1..] == [];
      var first, later := Delivered(s, [e], h), Delivered(Step(s, e), rest, h);
      assert first + [] == first;
      assert On(h, s.inbox) + first + later == On(h, s.inbox) + (first + later);
    }
  }

  /** In every run user code is handed the data of every read of a stream, once and in order. */
  lemma {:induction false} HandedInOrder(events: seq<Event>, h: Ptr)
    requires Allowed(INITIAL, events)
    ensures On(h, Run(INITIAL, events).inbox) == Delivered(INITIAL, events, h)
  {
    RunHands(INITIAL, events, h);
    assert [] + Delivered(INITIAL, events, h) == Delivered(INITIAL, events, h);
  }
}
