/** Conservation of memory, buffer ownership and order of delivery in every run of `Uv`. */
module UvLaws {
  import opened Uv

  // ---------------------------------------------------------------- owned blocks

  lemma {:induction false} CountSnoc(owed: seq<Owed>, o: Owed, p: Ptr)
    ensures Count(owed + [o], p) == Count(owed, p) + Blocks(o)[p]
  {
    if owed == [] {
      assert owed + [o] == [o];
      assert Count([o][1..], p) == 0;
    } else {
      assert (owed + [o])[1..] == owed[1..] + [o];
      CountSnoc(owed[1..], o, p);
    }
  }

  lemma {:induction false} CountWithout(owed: seq<Owed>, i: nat, p: Ptr)
    requires i < |owed|
    ensures Count(owed, p) == Count(Without(owed, i), p) + Blocks(owed[i])[p]
    decreases i
  {
    if i == 0 {
      assert Without(owed, 0) == owed[1..];
    } else {
      CountWithout(owed[1..], i - 1, p);
      assert Without(owed, i)[0] == owed[0];
      assert Without(owed, i)[1..] == Without(owed[1..], i - 1);
    }
  }

  lemma {:induction false} CountOfMember(owed: seq<Owed>, o: Owed, p: Ptr)
    requires o in owed && p in Blocks(o)
    ensures Count(owed, p) > 0
  {
    var i :| 0 <= i < |owed| && owed[i] == o;
    CountWithout(owed, i, p);
  }

  /** What one callback will free is live, is not twice among its blocks, and belongs to no other
      callback, no open handle and no lost submission. */
  lemma {:induction false} SoleOwner(s: State, i: nat, p: Ptr)
    requires Inv(s) && i < |s.owed| && p in Blocks(s.owed[i])
    ensures p in s.heap && p !in s.open && s.lost[p] == 0 && p !in s.stray && Blocks(s.owed[i])[p] == 1
    ensures forall o :: o in Without(s.owed, i) ==> p !in Blocks(o)
  {
    CountWithout(s.owed, i, p);
    assert Owners(s, p) <= 1;
    forall o | o in Without(s.owed, i) ensures p !in Blocks(o) {
      if p in Blocks(o) {
        CountOfMember(Without(s.owed, i), o, p);
      }
    }
  }

  lemma {:induction false} LiveBlock(s: State, o: Owed, p: Ptr)
    requires Inv(s) && o in s.owed && p in Blocks(o)
    ensures p in s.heap
  {
    var i :| 0 <= i < |s.owed| && s.owed[i] == o;
    SoleOwner(s, i, p);
  }

  /** A callback's blocks stay as they are when other blocks change. */
  lemma {:induction false} Undisturbed(heap: map<Ptr, Block>, open: set<Ptr>, heap': map<Ptr, Block>, open': set<Ptr>,
                                       o: Owed)
    requires WellFormed(heap, open, o)
    requires forall p :: p in Blocks(o) ==> p in heap' && heap'[p] == heap[p]
    requires !o.CloseDone? ==> o.stream in open'
    ensures WellFormed(heap', open', o)
  {
    assert o.WriteDone? || o.ConnectDone? ==> o.req in Blocks(o) && o.buf in Blocks(o);
  }

  // ---------------------------------------------------------------- every step keeps the invariant

  /** New blocks and new callbacks leave the others alone. */
  lemma {:induction false} OthersKeptByMalloc(s: State, s': State)
    requires Inv(s) && s.open <= s'.open
    requires forall p :: p in s.heap ==> p in s'.heap && s'.heap[p] == s.heap[p]
    ensures forall o :: o in s.owed ==> WellFormed(s'.heap, s'.open, o)
    ensures forall h :: h in s.open ==> IsHandle(s', h)
  {
    hide Count, Owners;
    forall o | o in s.owed ensures WellFormed(s'.heap, s'.open, o) {
      forall p | p in Blocks(o) ensures p in s'.heap && s'.heap[p] == s.heap[p] {
        LiveBlock(s, o, p);
      }
      Undisturbed(s.heap, s.open, s'.heap, s'.open, o);
    }
  }

  /** Changing or freeing the blocks of `owed[i]` leaves the other callbacks and handles alone. */
  lemma {:induction false} OthersKeptByCallback(s: State, i: nat, s': State)
    requires Inv(s) && i < |s.owed|
    requires forall p :: p in s.heap && p !in Blocks(s.owed[i]) ==> p in s'.heap && s'.heap[p] == s.heap[p]
    requires s.open == s'.open || forall o :: o in Without(s.owed, i) && !o.CloseDone? ==> o.stream in s'.open
    ensures forall o :: o in Without(s.owed, i) ==> WellFormed(s'.heap, s'.open, o)
    ensures forall h :: h in s.open ==> IsHandle(s', h)
  {
    hide Count, Owners;
    forall o | o in Without(s.owed, i) ensures WellFormed(s'.heap, s'.open, o) {
      assert o in s.owed && WellFormed(s.heap, s.open, o);
      forall p | p in Blocks(o) ensures p in s'.heap && s'.heap[p] == s.heap[p] {
        LiveBlock(s, o, p);
        if p in Blocks(s.owed[i]) {
          SoleOwner(s, i, p);
        }
      }
      Undisturbed(s.heap, s.open, s'.heap, s'.open, o);
    }
    forall h | h in s.open ensures IsHandle(s', h) {
      if h in Blocks(s.owed[i]) {
        SoleOwner(s, i, h);
      }
    }
  }

  lemma {:induction false} UvRunKeeps(s: State, p: Ptr)
    requires Inv(s) && Enabled(s, UvRun(p))
    ensures Inv(DoUvRun(s, p))
  {
    hide Count;
    var s' := DoUvRun(s, p);
    OthersKeptByMalloc(s, s');
    forall q ensures Owners(s', q) == if q in s'.heap then 1 else 0 {
      assert Owners(s, q) == if q in s.heap then 1 else 0;
    }
  }

  lemma {:induction false} TcpInitKeeps(s: State, h: Ptr)
    requires Inv(s) && Enabled(s, TcpInit(h))
    ensures Inv(DoTcpInit(s, h))
  {
    hide Count;
    var s' := DoTcpInit(s, h);
    OthersKeptByMalloc(s, s');
    forall p ensures Owners(s', p) == if p in s'.heap then 1 else 0 {
      assert Owners(s, p) == if p in s.heap then 1 else 0;
    }
  }

  lemma {:induction false} RequestOnKeeps(s: State, h: Ptr)
    requires Inv(s) && Enabled(s, RequestOn(h))
    ensures Inv(DoRequestOn(s, h))
  {
    hide Count;
    var s' := DoRequestOn(s, h);
    forall p ensures Owners(s', p) == if p in s'.heap then 1 else 0 {
      assert Owners(s, p) == if p in s.heap then 1 else 0;
    }
  }

  lemma {:induction false} UvWriteKeeps(s: State, h: Ptr, bytes: string, buf: Ptr, req: Ptr, r: int)
    requires Inv(s) && Enabled(s, UvWrite(h, bytes, buf, req, r))
    ensures Inv(DoUvWrite(s, h, bytes, buf, req, r))
  {
    hide Count;
    var s' := DoUvWrite(s, h, bytes, buf, req, r);
    OthersKeptByMalloc(s, s');
    forall p ensures Owners(s', p) == if p in s'.heap then 1 else 0 {
      assert Owners(s, p) == if p in s.heap then 1 else 0;
      CountSnoc(s.owed, WriteDone(h, req, buf), p);
    }
  }

  /** A connect first stores the callback in the handle. */
  lemma {:induction false} TcpConnectKeeps(s: State, h: Ptr, bytes: string, buf: Ptr, req: Ptr, r: int)
    requires Inv(s) && Enabled(s, TcpConnect(h, bytes, buf, req, r))
    ensures Inv(DoTcpConnect(s, h, bytes, buf, req, r))
  {
    hide Count;
    var s1, s' := DoRequestOn(s, h), DoTcpConnect(s, h, bytes, buf, req, r);
    RequestOnKeeps(s, h);
    OthersKeptByMalloc(s1, s');
    forall p ensures Owners(s', p) == if p in s'.heap then 1 else 0 {
      assert Owners(s1, p) == if p in s1.heap then 1 else 0;
      CountSnoc(s.owed, ConnectDone(h, req, buf), p);
    }
  }

  lemma {:induction false} UvShutdownKeeps(s: State, h: Ptr, req: Ptr, r: int)
    requires Inv(s) && Enabled(s, UvShutdown(h, req, r))
    ensures Inv(DoUvShutdown(s, h, req, r))
  {
    hide Count;
    var s' := DoUvShutdown(s, h, req, r);
    OthersKeptByMalloc(s, s');
    forall p ensures Owners(s', p) == if p in s'.heap then 1 else 0 {
      assert Owners(s, p) == if p in s.heap then 1 else 0;
      CountSnoc(s.owed, ShutdownDone(h, req), p);
    }
  }

  lemma {:induction false} AllocCbKeeps(s: State, h: Ptr, buf: Ptr, size: nat)
    requires Inv(s) && Enabled(s, AllocCb(h, buf, size))
    ensures Inv(DoAllocCb(s, h, buf, size))
  {
    hide Count;
    var s' := DoAllocCb(s, h, buf, size);
    OthersKeptByMalloc(s, s');
    forall p ensures Owners(s', p) == if p in s'.heap then 1 else 0 {
      assert Owners(s, p) == if p in s.heap then 1 else 0;
      CountSnoc(s.owed, ReadDone(h, buf, false), p);
    }
  }

  lemma {:induction false} WriteCbKeeps(s: State, i: nat)
    requires Inv(s) && Enabled(s, WriteCb(i))
    ensures Inv(DoWriteCb(s, i))
  {
    hide Count;
    var s', o := DoWriteCb(s, i), s.owed[i];
    SoleOwner(s, i, o.req);
    SoleOwner(s, i, o.buf);
    OthersKeptByCallback(s, i, s');
    forall p ensures Owners(s', p) == if p in s'.heap then 1 else 0 {
      assert Owners(s, p) == if p in s.heap then 1 else 0;
      CountWithout(s.owed, i, p);
    }
  }

  lemma {:induction false} OtherStreams(s: State, i: nat)
    requires Inv(s) && Enabled(s, ShutdownCb(i))
    ensures forall o :: o in Without(s.owed, i) && !o.CloseDone? ==> o.stream in s.open - {s.owed[i].stream}
  {
    forall o | o in Without(s.owed, i) && !o.CloseDone? ensures o.stream in s.open - {s.owed[i].stream} {
      var j :| 0 <= j < |s.owed| && j != i && s.owed[j] == o;
      assert WellFormed(s.heap, s.open, o);
    }
  }

  lemma {:induction false} ShutdownCbCounts(s: State, i: nat, p: Ptr)
    requires Inv(s) && Enabled(s, ShutdownCb(i))
    ensures var s' := DoShutdownCb(s, i); Owners(s', p) == if p in s'.heap then 1 else 0
  {
    hide Count;
    var o := s.owed[i];
    SoleOwner(s, i, o.req);
    assert WellFormed(s.heap, s.open, o);
    assert Owners(s, p) == if p in s.heap then 1 else 0;
    CountWithout(s.owed, i, p);
    CountSnoc(Without(s.owed, i), CloseDone(o.stream), p);
  }

  lemma {:induction false} ShutdownCbKeeps(s: State, i: nat)
    requires Inv(s) && Enabled(s, ShutdownCb(i))
    ensures Inv(DoShutdownCb(s, i))
  {
    hide Count, Owners;
    var s', o := DoShutdownCb(s, i), s.owed[i];
    SoleOwner(s, i, o.req);
    assert WellFormed(s.heap, s.open, o) && IsHandle(s, o.stream);
    OtherStreams(s, i);
    OthersKeptByCallback(s, i, s');
    forall p ensures Owners(s', p) == if p in s'.heap then 1 else 0 {
      ShutdownCbCounts(s, i, p);
    }
  }

  lemma {:induction false} CloseCbKeeps(s: State, i: nat)
    requires Inv(s) && Enabled(s, CloseCb(i))
    ensures Inv(DoCloseCb(s, i))
  {
    hide Count;
    var s', o := DoCloseCb(s, i), s.owed[i];
    SoleOwner(s, i, o.stream);
    OthersKeptByCallback(s, i, s');
    forall p ensures Owners(s', p) == if p in s'.heap then 1 else 0 {
      assert Owners(s, p) == if p in s.heap then 1 else 0;
      CountWithout(s.owed, i, p);
    }
  }

  lemma {:induction false} ReadCbCounts(s: State, i: nat, nread: int, data: string, p: Ptr)
    requires Inv(s) && Enabled(s, ReadCb(i, nread, data))
    ensures var s' := DoReadCb(s, i, nread, data); Owners(s', p) == if p in s'.heap then 1 else 0
  {
    hide Count;
    var s' := DoReadCb(s, i, nread, data);
    SoleOwner(s, i, s.owed[i].buf);
    assert Owners(s, p) == if p in s.heap then 1 else 0;
    assert Without(s'.owed, i) == Without(s.owed, i);
    CountWithout(s.owed, i, p);
    CountWithout(s'.owed, i, p);
  }

  lemma {:induction false} ReadCbKeeps(s: State, i: nat, nread: int, data: string)
    requires Inv(s) && Enabled(s, ReadCb(i, nread, data))
    ensures Inv(DoReadCb(s, i, nread, data))
  {
    hide Count, Owners;
    var s', o := DoReadCb(s, i, nread, data), s.owed[i];
    assert WellFormed(s.heap, s.open, o);
    OthersKeptByCallback(s, i, s');
    forall x | x in s'.owed ensures WellFormed(s'.heap, s'.open, x) {
      var j :| 0 <= j < |s'.owed| && s'.owed[j] == x;
      if j != i {
        assert Without(s.owed, i)[if j < i then j else j - 1] == x;
      }
    }
    forall p ensures Owners(s', p) == if p in s'.heap then 1 else 0 {
      ReadCbCounts(s, i, nread, data, p);
    }
  }

  lemma {:induction false} ReadCbFreeKeeps(s: State, i: nat)
    requires Inv(s) && Enabled(s, ReadCbFree(i))
    ensures Inv(DoReadCbFree(s, i))
  {
    hide Count;
    var s', o := DoReadCbFree(s, i), s.owed[i];
    SoleOwner(s, i, o.buf);
    OthersKeptByCallback(s, i, s');
    forall p ensures Owners(s', p) == if p in s'.heap then 1 else 0 {
      assert Owners(s, p) == if p in s.heap then 1 else 0;
      CountWithout(s.owed, i, p);
    }
  }

  lemma {:induction false} ConnectCbCounts(s: State, i: nat, req: Ptr, r: int, p: Ptr)
    requires Inv(s) && Enabled(s, ConnectCb(i, req, r))
    ensures var s' := DoConnectCb(s, i, req, r); Owners(s', p) == if p in s'.heap then 1 else 0
  {
    hide Count;
    var o := s.owed[i];
    SoleOwner(s, i, o.req);
    SoleOwner(s, i, o.buf);
    assert Owners(s, p) == if p in s.heap then 1 else 0;
    assert Owners(s, req) == 0;
    CountWithout(s.owed, i, p);
    CountSnoc(Without(s.owed, i), WriteDone(o.stream, req, o.buf), p);
  }

  lemma {:induction false} ConnectCbForms(s: State, i: nat, req: Ptr, r: int)
    requires Inv(s) && Enabled(s, ConnectCb(i, req, r))
    ensures var s' := DoConnectCb(s, i, req, r);
            && WellFormed(s'.heap, s'.open, WriteDone(s.owed[i].stream, req, s.owed[i].buf))
            && (forall o :: o in Without(s.owed, i) ==> WellFormed(s'.heap, s'.open, o))
            && (forall h :: h in s.open ==> IsHandle(s', h))
  {
    hide Count, Owners;
    var s', o := DoConnectCb(s, i, req, r), s.owed[i];
    SoleOwner(s, i, o.req);
    SoleOwner(s, i, o.buf);
    OthersKeptByCallback(s, i, s');
    assert WellFormed(s.heap, s.open, o);
  }

  lemma {:induction false} ConnectCbKeeps(s: State, i: nat, req: Ptr, r: int)
    requires Inv(s) && Enabled(s, ConnectCb(i, req, r))
    ensures Inv(DoConnectCb(s, i, req, r))
  {
    hide Count, Owners;
    var s' := DoConnectCb(s, i, req, r);
    ConnectCbForms(s, i, req, r);
    forall o | o in s'.owed ensures WellFormed(s'.heap, s'.open, o) {
      assert o in Without(s.owed, i) || o == WriteDone(s.owed[i].stream, req, s.owed[i].buf);
    }
    forall p ensures Owners(s', p) == if p in s'.heap then 1 else 0 {
      ConnectCbCounts(s, i, req, r, p);
    }
  }

  lemma {:induction false} StepKeepsInv(s: State, e: Event)
    requires Inv(s) && Enabled(s, e)
    ensures Inv(Step(s, e))
  {
    hide Inv, DoUvRun, DoTcpInit, DoRequestOn, DoUvWrite, DoWriteCb, DoUvShutdown, DoShutdownCb, DoCloseCb, DoAllocCb,
         DoReadCb, DoReadCbFree, DoTcpConnect, DoConnectCb;
    match e {
      case UvRun(p) => UvRunKeeps(s, p);
      case TcpInit(h) => TcpInitKeeps(s, h);
      case RequestOn(h) => RequestOnKeeps(s, h);
      case UvWrite(h, bytes, buf, req, r) => UvWriteKeeps(s, h, bytes, buf, req, r);
      case WriteCb(i) => WriteCbKeeps(s, i);
      case UvShutdown(h, req, r) => UvShutdownKeeps(s, h, req, r);
      case ShutdownCb(i) => ShutdownCbKeeps(s, i);
      case CloseCb(i) => CloseCbKeeps(s, i);
      case AllocCb(h, buf, size) => AllocCbKeeps(s, h, buf, size);
      case ReadCb(i, nread, data) => ReadCbKeeps(s, i, nread, data);
      case ReadCbFree(i) => ReadCbFreeKeeps(s, i);
      case TcpConnect(h, bytes, buf, req, r) => TcpConnectKeeps(s, h, bytes, buf, req, r);
      case ConnectCb(i, req, r) => ConnectCbKeeps(s, i, req, r);
    }
  }
}
