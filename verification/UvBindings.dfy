/** The bindings and callbacks as they run: statement by statement on the heap. `Free` asks for a live
    block, so these methods verify only if no callback ever frees anything twice. */
module UvBindings {
  import opened Uv
  import opened UvLaws

  class Loop {
    var heap: map<Ptr, Block>
    var open: set<Ptr>
    var owed: seq<Owed>
    var lost: multiset<Ptr>
    var stray: set<Ptr>
    var accepted: seq<(Ptr, string)>
    var sent: seq<(Ptr, string)>
    var inbox: seq<(Ptr, string)>

    ghost function Now(): State
      reads this
    {
      State(heap, open, owed, lost, stray, accepted, sent, inbox)
    }

    constructor ()
      ensures Now() == INITIAL && Inv(Now())
    {
      heap, open, owed, lost, stray := map[], {}, [], multiset{}, {};
      accepted, sent, inbox := [], [], [];
      new;
      forall p ensures Owners(INITIAL, p) == 0 {}
    }

    method Malloc(p: Ptr, b: Block)
      requires p !in heap
      modifies `heap
      ensures heap == old(heap)[p := b]
    {
      heap := heap[p := b];
    }

    method Free(p: Ptr)
      requires p in heap
      modifies `heap
      ensures heap == old(heap) - {p}
    {
      heap := heap - {p};
    }

    /** `calloc` and `memcpy`. */
    method CopyOf(bytes: string, p: Ptr)
      requires p !in heap
      modifies `heap
      ensures heap == old(heap)[p := Bytes(bytes)]
    {
      Malloc(p, Bytes(seq(|bytes|, _ => '\0')));
      heap := heap[p := Bytes(bytes)];
    }

    /** `uv_write`: libuv reads the buffer pointer from the request. */
    method SubmitWrite(h: Ptr, req: Ptr, r: int)
      requires req in heap && heap[req].WriteReq?
      modifies `owed, `accepted, `lost
      ensures Now() == Uv.SubmitWrite(old(Now()), h, req, heap[req].buf, r)
    {
      var buf := heap[req].buf;
      if r == 0 {
        owed := owed + [WriteDone(h, req, buf)];
        accepted := accepted + [(h, BytesOf(heap, buf))];
      } else {
        lost := lost + multiset{req, buf};
      }
    }

    /** `uv_run_ocaml` up to the call of `uv_run`. */
    method UvRun(p: Ptr)
      requires Inv(Now()) && Enabled(Now(), Event.UvRun(p))
      modifies this
      ensures Inv(Now()) && Now() == Step(old(Now()), Event.UvRun(p))
    {
      hide Count, Owners;
      UvRunKeeps(Now(), p);
      Malloc(p, Spare);
      stray := stray + {p};
    }

    method UvTcpInit(h: Ptr)
      requires Inv(Now()) && Enabled(Now(), TcpInit(h))
      modifies this
      ensures Inv(Now()) && Now() == Step(old(Now()), TcpInit(h))
    {
      hide Count, Owners;
      TcpInitKeeps(Now(), h);
      Malloc(h, Tcp(false));
      open := open + {h};
    }

    method RequestOn(h: Ptr)
      requires Inv(Now()) && Enabled(Now(), Event.RequestOn(h))
      modifies this
      ensures Inv(Now()) && Now() == Step(old(Now()), Event.RequestOn(h))
    {
      hide Count, Owners;
      RequestOnKeeps(Now(), h);
      heap := heap[h := Tcp(true)];
    }

    method UvWrite(h: Ptr, bytes: string, buf: Ptr, req: Ptr, r: int)
      requires Inv(Now()) && Enabled(Now(), Event.UvWrite(h, bytes, buf, req, r))
      modifies this
      ensures Inv(Now()) && Now() == Step(old(Now()), Event.UvWrite(h, bytes, buf, req, r))
    {
      hide Count, Owners;
      UvWriteKeeps(Now(), h, bytes, buf, req, r);
      CopyOf(bytes, buf);
      Malloc(req, WriteReq(buf));
      SubmitWrite(h, req, r);
    }

    method WriteCb(i: nat)
      requires Inv(Now()) && Enabled(Now(), Event.WriteCb(i))
      modifies this
      ensures Inv(Now()) && Now() == Step(old(Now()), Event.WriteCb(i))
    {
      hide Count, Owners;
      WriteCbKeeps(Now(), i);
      var stream, req := owed[i].stream, owed[i].req;
      SoleOwner(Now(), i, req);
      SoleOwner(Now(), i, owed[i].buf);
      assert WellFormed(heap, open, owed[i]);
      sent := sent + [(stream, BytesOf(heap, owed[i].buf))];
      owed := Without(owed, i);
      Free(heap[req].buf);
      Free(req);
    }

    method UvShutdown(h: Ptr, req: Ptr, r: int)
      requires Inv(Now()) && Enabled(Now(), Event.UvShutdown(h, req, r))
      modifies this
      ensures Inv(Now()) && Now() == Step(old(Now()), Event.UvShutdown(h, req, r))
    {
      hide Count, Owners;
      UvShutdownKeeps(Now(), h, req, r);
      Malloc(req, ShutdownReq(h));
      if r == 0 {
        owed := owed + [ShutdownDone(h, req)];
      } else {
        lost := lost + multiset{req};
      }
    }

    /** `uv_close` of the handle that the request names, then `free` of the request. */
    method ShutdownCb(i: nat)
      requires Inv(Now()) && Enabled(Now(), Event.ShutdownCb(i))
      modifies this
      ensures Inv(Now()) && Now() == Step(old(Now()), Event.ShutdownCb(i))
    {
      hide Count, Owners;
      ShutdownCbKeeps(Now(), i);
      var req := owed[i].req;
      SoleOwner(Now(), i, req);
      assert WellFormed(heap, open, owed[i]);
      var handle := heap[req].stream;
      owed := Without(owed, i) + [CloseDone(handle)];
      open := open - {handle};
      Free(req);
    }

    method CloseCb(i: nat)
      requires Inv(Now()) && Enabled(Now(), Event.CloseCb(i))
      modifies this
      ensures Inv(Now()) && Now() == Step(old(Now()), Event.CloseCb(i))
    {
      hide Count, Owners;
      CloseCbKeeps(Now(), i);
      var client := owed[i].stream;
      SoleOwner(Now(), i, client);
      owed := Without(owed, i);
      Free(client);
    }

    method AllocCb(h: Ptr, buf: Ptr, size: nat)
      requires Inv(Now()) && Enabled(Now(), Event.AllocCb(h, buf, size))
      modifies this
      ensures Inv(Now()) && Now() == Step(old(Now()), Event.AllocCb(h, buf, size))
    {
      hide Count, Owners;
      AllocCbKeeps(Now(), h, buf, size);
      Malloc(buf, Bytes(seq(size, _ => '\0')));
      owed := owed + [ReadDone(h, buf, false)];
    }

    /** `read_cb` up to the call of user code, which gets `argument` if it is called. */
    method ReadCb(i: nat, nread: int, data: string) returns (called: bool, argument: string)
      requires Inv(Now()) && Enabled(Now(), Event.ReadCb(i, nread, data))
      modifies this
      ensures Inv(Now()) && Now() == Step(old(Now()), Event.ReadCb(i, nread, data))
      ensures called <==> nread != 0
      ensures argument == if nread > 0 then data else ""
    {
      hide Count, Owners;
      ReadCbKeeps(Now(), i, nread, data);
      var o := owed[i];
      assert WellFormed(heap, open, o);
      if nread > 0 {
        heap := heap[o.buf := Bytes(data + heap[o.buf].data[nread..])];
      }
      called, argument := nread != 0, "";
      if nread > 0 {
        argument := heap[o.buf].data[..nread];
      }
      if called {
        inbox := inbox + [(o.stream, argument)];
      }
      owed := owed[i := o.(handed := true)];
    }

    /** The rest of `read_cb`, when user code has returned. */
    method ReadCbFree(i: nat)
      requires Inv(Now()) && Enabled(Now(), Event.ReadCbFree(i))
      modifies this
      ensures Inv(Now()) && Now() == Step(old(Now()), Event.ReadCbFree(i))
    {
      hide Count, Owners;
      ReadCbFreeKeeps(Now(), i);
      var buf := owed[i].buf;
      SoleOwner(Now(), i, buf);
      owed := Without(owed, i);
      Free(buf);
    }

    method Request(h: Ptr, bytes: string, buf: Ptr, req: Ptr, r: int)
      requires Inv(Now()) && Enabled(Now(), TcpConnect(h, bytes, buf, req, r))
      modifies this
      ensures Inv(Now()) && Now() == Step(old(Now()), TcpConnect(h, bytes, buf, req, r))
    {
      hide Count, Owners;
      TcpConnectKeeps(Now(), h, bytes, buf, req, r);
      heap := heap[h := Tcp(true)];
      CopyOf(bytes, buf);
      Malloc(req, ConnectReq(h, buf));
      if r == 0 {
        owed := owed + [ConnectDone(h, req, buf)];
      } else {
        lost := lost + multiset{req, buf};
      }
    }

    /** `client_connect_cb` when the connection was made. */
    method ClientConnectCb(i: nat, writeReq: Ptr, r: int)
      requires Inv(Now()) && Enabled(Now(), ConnectCb(i, writeReq, r))
      modifies this
      ensures Inv(Now()) && Now() == Step(old(Now()), ConnectCb(i, writeReq, r))
    {
      hide Count, Owners;
      ConnectCbKeeps(Now(), i, writeReq, r);
      var connectReq := owed[i].req;
      SoleOwner(Now(), i, connectReq);
      assert WellFormed(heap, open, owed[i]);
      var handle := heap[connectReq].stream;
      owed := Without(owed, i);
      Malloc(writeReq, WriteReq(heap[connectReq].buf));
      SubmitWrite(handle, writeReq, r);
      Free(connectReq);
    }
  }
}
