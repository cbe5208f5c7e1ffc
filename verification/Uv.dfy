/** The memory that the C bindings allocate and free around libuv, as a transition system. libuv
    is the environment: it accepts or refuses a submission and chooses which callback it still owes
    comes next. */
module Uv {

  type Ptr = nat

  /** A live heap block. The request wrappers are the structs of the bindings, with the pointers
      the callbacks follow; `Spare` is the block that `uv_run_ocaml` allocates and never uses. */
  datatype Block =
    | Bytes(data: string)
    | WriteReq(buf: Ptr)
    | ShutdownReq(stream: Ptr)
    | ConnectReq(stream: Ptr, buf: Ptr)
    | Tcp(hasCallback: bool)
    | Spare

  /** A callback that libuv still owes. For a read, `handed` says that user code has been given
      the bytes and the buffer is about to be freed. */
  datatype Owed =
    | WriteDone(stream: Ptr, req: Ptr, buf: Ptr)
    | ShutdownDone(stream: Ptr, req: Ptr)
    | ConnectDone(stream: Ptr, req: Ptr, buf: Ptr)
    | ReadDone(stream: Ptr, buf: Ptr, handed: bool)
    | CloseDone(stream: Ptr)

  /** The blocks that the callback will free or pass on. */
  function Blocks(o: Owed): multiset<Ptr> {
    match o
    case WriteDone(_, req, buf) => multiset{req, buf}
    case ShutdownDone(_, req) => multiset{req}
    case ConnectDone(_, req, buf) => multiset{req, buf}
    case ReadDone(_, buf, _) => multiset{buf}
    case CloseDone(stream) => multiset{stream}
  }

  /** How often a block occurs among the blocks of owed callbacks. */
  function Count(owed: seq<Owed>, p: Ptr): nat {
    if owed == [] then 0 else Blocks(owed[0])[p] + Count(owed[1..], p)
  }

  /** `open` are the handles not given to `uv_close`; `lost` the blocks of refused submissions, which
      nothing frees; `stray` those of `uv_run_ocaml`, which nothing frees either; `accepted` and `sent` the
      stream and bytes of each write taken and completed; `inbox` what read callbacks handed to user code. */
  datatype State = State(
    heap: map<Ptr, Block>,
    open: set<Ptr>,
    owed: seq<Owed>,
    lost: multiset<Ptr>,
    stray: set<Ptr>,
    accepted: seq<(Ptr, string)>,
    sent: seq<(Ptr, string)>,
    inbox: seq<(Ptr, string)>)

  const INITIAL := State(map[], {}, [], multiset{}, {}, [], [], [])

  /** A call of a binding, or a callback for `owed[i]`. Pointers are what the allocator returns; `r`
      is what libuv returns for a submission. */
  datatype Event =
    | UvRun(p: Ptr)
    | TcpInit(h: Ptr)
    | RequestOn(h: Ptr)
    | UvWrite(h: Ptr, bytes: string, buf: Ptr, req: Ptr, r: int)
    | WriteCb(i: nat)
    | UvShutdown(h: Ptr, req: Ptr, r: int)
    | ShutdownCb(i: nat)
    | CloseCb(i: nat)
    | AllocCb(h: Ptr, buf: Ptr, size: nat)
    | ReadCb(i: nat, nread: int, data: string)
    | ReadCbFree(i: nat)
    | TcpConnect(h: Ptr, bytes: string, buf: Ptr, req: Ptr, r: int)
    | ConnectCb(i: nat, req: Ptr, r: int)

  function Without(owed: seq<Owed>, i: nat): seq<Owed>
    requires i < |owed|
  {
    owed[..i] + owed[i + 1..]
  }

  predicate IsHandle(s: State, h: Ptr) { h in s.heap && s.heap[h].Tcp? }

  /** The bytes of a live buffer. */
  function BytesOf(heap: map<Ptr, Block>, buf: Ptr): string {
    if buf in heap && heap[buf].Bytes? then heap[buf].data else ""
  }

  /** What the callers of the bindings, the allocator and libuv guarantee. A handle is used only
      while it is allocated; new blocks are not live; libuv takes submissions only on open handles,
      one shutdown a stream, completes the writes of a stream in order, and completes a shutdown
      when nothing else is owed on the stream. */
  ghost predicate Enabled(s: State, e: Event) {
    match e
    case UvRun(p) => p !in s.heap
    case TcpInit(h) => h !in s.heap
    case RequestOn(h) => IsHandle(s, h)
    case UvWrite(h, _, buf, req, r) =>
      IsHandle(s, h) && buf !in s.heap && req !in s.heap && buf != req && (r == 0 ==> h in s.open)
    case WriteCb(i) =>
      && i < |s.owed| && s.owed[i].WriteDone?
      && forall j :: 0 <= j < i && s.owed[j].WriteDone? ==> s.owed[j].stream != s.owed[i].stream
    case UvShutdown(h, req, r) =>
      IsHandle(s, h) && req !in s.heap &&
      (r == 0 ==> h in s.open && forall o :: o in s.owed && o.ShutdownDone? ==> o.stream != h)
    case ShutdownCb(i) =>
      && i < |s.owed| && s.owed[i].ShutdownDone?
      && forall j :: 0 <= j < |s.owed| && j != i ==> s.owed[j].stream != s.owed[i].stream
    case CloseCb(i) => i < |s.owed| && s.owed[i].CloseDone?
    case AllocCb(h, buf, _) => h in s.open && buf !in s.heap
    case ReadCb(i, nread, data) =>
      && i < |s.owed| && s.owed[i].ReadDone? && !s.owed[i].handed
      && (nread > 0 ==> |data| == nread <= |BytesOf(s.heap, s.owed[i].buf)|)
    case ReadCbFree(i) => i < |s.owed| && s.owed[i].ReadDone? && s.owed[i].handed
    case TcpConnect(h, _, buf, req, r) =>
      h in s.open && IsHandle(s, h) && buf !in s.heap && req !in s.heap && buf != req
    case ConnectCb(i, req, r) => i < |s.owed| && s.owed[i].ConnectDone? && req !in s.heap
  }

  /** Hands a request and its buffer to libuv; a refused one is never freed. */
  function SubmitWrite(s: State, h: Ptr, req: Ptr, buf: Ptr, r: int): State {
    if r == 0 then
      s.(owed := s.owed + [WriteDone(h, req, buf)], accepted := s.accepted + [(h, BytesOf(s.heap, buf))])
    else
      s.(lost := s.lost + multiset{req, buf})
  }

  /** `uv_run_ocaml` before it enters the loop: a block that is never used. */
  function DoUvRun(s: State, p: Ptr): State {
    s.(heap := s.heap[p := Spare], stray := s.stray + {p})
  }

  function DoTcpInit(s: State, h: Ptr): State {
    s.(heap := s.heap[h := Tcp(false)], open := s.open + {h})
  }

  function DoRequestOn(s: State, h: Ptr): State {
    s.(heap := s.heap[h := Tcp(true)])
  }

  function DoUvWrite(s: State, h: Ptr, bytes: string, buf: Ptr, req: Ptr, r: int): State {
    SubmitWrite(s.(heap := s.heap[buf := Bytes(bytes)][req := WriteReq(buf)]), h, req, buf, r)
  }

  function DoWriteCb(s: State, i: nat): State
    requires i < |s.owed| && s.owed[i].WriteDone?
  {
    var o := s.owed[i];
    s.(heap := s.heap - {o.buf} - {o.req}, owed := Without(s.owed, i),
       sent := s.sent + [(o.stream, BytesOf(s.heap, o.buf))])
  }

  function DoUvShutdown(s: State, h: Ptr, req: Ptr, r: int): State {
    var s' := s.(heap := s.heap[req := ShutdownReq(h)]);
    if r == 0 then s'.(owed := s.owed + [ShutdownDone(h, req)]) else s'.(lost := s.lost + multiset{req})
  }

  function DoShutdownCb(s: State, i: nat): State
    requires i < |s.owed| && s.owed[i].ShutdownDone?
  {
    var o := s.owed[i];
    s.(heap := s.heap - {o.req}, open := s.open - {o.stream}, owed := Without(s.owed, i) + [CloseDone(o.stream)])
  }

  function DoCloseCb(s: State, i: nat): State
    requires i < |s.owed| && s.owed[i].CloseDone?
  {
    s.(heap := s.heap - {s.owed[i].stream}, owed := Without(s.owed, i))
  }

  function DoAllocCb(s: State, h: Ptr, buf: Ptr, size: nat): State {
    s.(heap := s.heap[buf := Bytes(seq(size, _ => '\0'))], owed := s.owed + [ReadDone(h, buf, false)])
  }

  /** The kernel has put `data` into the buffer; user code gets a copy of it, or an empty string at
      the end of the stream and on errors. */
  function DoReadCb(s: State, i: nat, nread: int, data: string): State
    requires i < |s.owed| && s.owed[i].ReadDone?
    requires nread > 0 ==> nread <= |BytesOf(s.heap, s.owed[i].buf)|
  {
    var o := s.owed[i];
    s.(heap := if nread > 0 then s.heap[o.buf := Bytes(data + BytesOf(s.heap, o.buf)[nread..])] else s.heap,
       owed := s.owed[i := o.(handed := true)],
       inbox := if nread == 0 then s.inbox else s.inbox + [(o.stream, if nread < 0 then "" else data)])
  }

  function DoReadCbFree(s: State, i: nat): State
    requires i < |s.owed| && s.owed[i].ReadDone?
  {
    s.(heap := s.heap - {s.owed[i].buf}, owed := Without(s.owed, i))
  }

  function DoTcpConnect(s: State, h: Ptr, bytes: string, buf: Ptr, req: Ptr, r: int): State {
    var s' := s.(heap := s.heap[h := Tcp(true)][buf := Bytes(bytes)][req := ConnectReq(h, buf)]);
    if r == 0 then s'.(owed := s.owed + [ConnectDone(h, req, buf)]) else s'.(lost := s.lost + multiset{req, buf})
  }

  /** A connection is made: the buffer passes from the connect request to a new write request. */
  function DoConnectCb(s: State, i: nat, req: Ptr, r: int): State
    requires i < |s.owed| && s.owed[i].ConnectDone?
  {
    var o := s.owed[i];
    var taken := s.(heap := s.heap[req := WriteReq(o.buf)], owed := Without(s.owed, i));
    var s' := SubmitWrite(taken, o.stream, req, o.buf, r);
    s'.(heap := s'.heap - {o.req})
  }

  function Step(s: State, e: Event): State
    requires Enabled(s, e)
  {
    match e
    case UvRun(p) => DoUvRun(s, p)
    case TcpInit(h) => DoTcpInit(s, h)
    case RequestOn(h) => DoRequestOn(s, h)
    case UvWrite(h, bytes, buf, req, r) => DoUvWrite(s, h, bytes, buf, req, r)
    case WriteCb(i) => DoWriteCb(s, i)
    case UvShutdown(h, req, r) => DoUvShutdown(s, h, req, r)
    case ShutdownCb(i) => DoShutdownCb(s, i)
    case CloseCb(i) => DoCloseCb(s, i)
    case AllocCb(h, buf, size) => DoAllocCb(s, h, buf, size)
    case ReadCb(i, nread, data) => DoReadCb(s, i, nread, data)
    case ReadCbFree(i) => DoReadCbFree(s, i)
    case TcpConnect(h, bytes, buf, req, r) => DoTcpConnect(s, h, bytes, buf, req, r)
    case ConnectCb(i, req, r) => DoConnectCb(s, i, req, r)
  }

  // ---------------------------------------------------------------- ownership

  /** The blocks of a callback are of the kinds its code takes them for, and its stream is open. */
  predicate WellFormed(heap: map<Ptr, Block>, open: set<Ptr>, o: Owed) {
    match o
    case WriteDone(h, req, buf) =>
      h in open && req in heap && heap[req] == WriteReq(buf) && buf in heap && heap[buf].Bytes?
    case ShutdownDone(h, req) => h in open && req in heap && heap[req] == ShutdownReq(h)
    case ConnectDone(h, req, buf) =>
      h in open && req in heap && heap[req] == ConnectReq(h, buf) && buf in heap && heap[buf].Bytes?
    case ReadDone(h, buf, _) => h in open && buf in heap && heap[buf].Bytes?
    case CloseDone(h) => h in heap && heap[h].Tcp?
  }

  /** How many own a block: the open handle, the callbacks owed, the refused submissions, the calls of
      `uv_run_ocaml`. */
  function Owners(s: State, p: Ptr): nat {
    (if p in s.open then 1 else 0) + Count(s.owed, p) + s.lost[p] + (if p in s.stray then 1 else 0)
  }

  /** Conservation: a live block has exactly one owner, and nothing else is owned. */
  ghost predicate Inv(s: State) {
    && (forall p :: Owners(s, p) == if p in s.heap then 1 else 0)
    && (forall h :: h in s.open ==> IsHandle(s, h))
    && (forall o :: o in s.owed ==> WellFormed(s.heap, s.open, o))
  }
}
