/** `wsHandler` and the service as a whole: connection attempts and session
    iterations interleaved one at a time over the shared registry and seen-set. */
module Server {
  import Address
  import Registry
  import NumberPool
  import Session

  /** The status code and reason of the close frame sent to a refused client. */
  const CloseNormalClosure: int := 1000
  const DuplicateReason: string := "Ip address is already connected"

  /** The shared state, and the addresses whose session loop is running
      (a multiset, so that two loops for one address would be visible). */
  datatype State = State(shared: Session.Shared, sessions: multiset<string>)

  datatype Verdict =
    | Refused(code: int, reason: string)  // address already registered
    | UpgradeFailed                       // registered, but no loop started
    | Streaming                           // registered and a loop started

  datatype Connected = Connected(addr: string, verdict: Verdict, state: State)

  /** One connection attempt, as written: resolve the address, refuse it if
      registered, otherwise register it and only then look at whether the
      upgrade succeeded. */
  function HandleConnect(st: State, req: Address.Request, upgradeOk: bool): (c: Connected)
    ensures c.addr == Address.Resolve(req)
    ensures c.verdict.Refused? <==> c.addr in st.shared.conns
    ensures c.verdict.Refused? ==> c.verdict == Refused(CloseNormalClosure, DuplicateReason) && c.state == st
    ensures c.verdict.Streaming? <==> c.addr !in st.shared.conns && upgradeOk
    ensures !c.verdict.Refused? ==>
      && c.addr in c.state.shared.conns
      && st.shared.conns <= c.state.shared.conns
      && c.state.shared.conns - st.shared.conns <= {c.addr}
    ensures c.state.sessions == if c.verdict.Streaming? then st.sessions + multiset{c.addr} else st.sessions
    ensures c.state.shared.seen == st.shared.seen
  {
    var addr := Address.Resolve(req);
    var admission := Registry.Admit(st.shared.conns, addr);
    if !admission.admitted then
      Connected(addr, Refused(CloseNormalClosure, DuplicateReason), st)
    else
      var registered := Session.Shared(admission.conns, st.shared.seen);
      if !upgradeOk then
        Connected(addr, UpgradeFailed, State(registered, st.sessions))
      else
        Connected(addr, Streaming, State(registered, st.sessions + multiset{addr}))
  }

  /** The frames one session iteration sent, and the state afterwards. */
  datatype Served = Served(sent: seq<Session.Frame>, state: State)

  /** One iteration of the loop of the session owning `addr`. */
  function HandleRead(st: State, addr: string, rr: Session.ReadResult, r: nat): (o: Served)
    requires addr in st.sessions
    requires r < NumberPool.Max
    ensures |o.sent| == if Session.IsUnexpectedClose(rr) then 0 else 1
    ensures Session.IsUnexpectedClose(rr) ==>
      && o.state.sessions == st.sessions - multiset{addr}
      && addr !in o.state.shared.conns
    ensures !Session.IsUnexpectedClose(rr) ==> o.state.sessions == st.sessions && o.state.shared.conns == st.shared.conns
    ensures forall a :: a != addr ==> (a in o.state.shared.conns <==> a in st.shared.conns)
    ensures st.shared.seen <= o.state.shared.seen
  {
    match Session.SessionStep(st.shared, addr, rr, r)
    case Exit(after) => Served([], State(after, st.sessions - multiset{addr}))
    case Sent(frame, after) => Served([frame], State(after, st.sessions))
  }

  /** What can happen next: a connection attempt, or one iteration of the loop
      of the session owning `addr`, with `r` the value it would draw. */
  datatype Event =
    | Connect(req: Address.Request, upgradeOk: bool)
    | Read(addr: string, rr: Session.ReadResult, r: nat)

  predicate Drawable(e: Event) {
    e.Read? ==> e.r < NumberPool.Max
  }

  /** One event. A read for an address with no running loop has no goroutine to
      perform it, so nothing happens. */
  function Step(st: State, e: Event): (st': State)
    requires Drawable(e)
    ensures st.shared.seen <= st'.shared.seen
  {
    match e
    case Connect(req, upgradeOk) => HandleConnect(st, req, upgradeOk).state
    case Read(addr, rr, r) => if addr in st.sessions then HandleRead(st, addr, rr, r).state else st
  }

  function Run(st: State, events: seq<Event>): (st': State)
    requires forall i :: 0 <= i < |events| ==> Drawable(events[i])
    ensures st.shared.seen <= st'.shared.seen
    decreases |events|
  {
    if |events| == 0 then st else Run(Step(st, events[0]), events[1..])
  }

  /** At most one loop per address, and every address with a loop is registered. */
  predicate Valid(st: State) {
    && (forall a :: a in st.sessions ==> st.sessions[a] == 1)
    && (forall a :: a in st.sessions ==> a in st.shared.conns)
  }

  lemma StepPreservesValid(st: State, e: Event)
    requires Drawable(e)
    requires Valid(st)
    ensures Valid(Step(st, e))
  {
    match e
    case Connect(req, upgradeOk) =>
      var c := HandleConnect(st, req, upgradeOk);
      if c.verdict.Streaming? {
        assert st.sessions[c.addr] == 0;
      }
    case Read(addr, rr, r) =>
      if addr in st.sessions {
        var o := HandleRead(st, addr, rr, r);
        if Session.IsUnexpectedClose(rr) {
          assert st.sessions[addr] == 1;
          assert o.state.sessions[addr] == 0;
        }
      }
  }

  /** Every interleaving of attempts and iterations keeps at most one running
      loop per address. */
  lemma {:induction false} RunPreservesValid(st: State, events: seq<Event>)
    requires forall i :: 0 <= i < |events| ==> Drawable(events[i])
    requires Valid(st)
    ensures Valid(Run(st, events))
    ensures forall a :: Run(st, events).sessions[a] <= 1
    decreases |events|
  {
    if |events| > 0 {
      StepPreservesValid(st, events[0]);
      RunPreservesValid(Step(st, events[0]), events[1..]);
    }
  }

  /** While a client's loop runs, a second client resolving to the same address
      is refused with the duplicate-address close frame and changes nothing. */
  lemma SecondClientRefused(st: State, req: Address.Request, upgradeOk: bool)
    requires Valid(st)
    requires Address.Resolve(req) in st.sessions
    ensures HandleConnect(st, req, upgradeOk).verdict == Refused(CloseNormalClosure, DuplicateReason)
    ensures HandleConnect(st, req, upgradeOk).state == st
  {
  }

  /** An address registered with no loop to release it. */
  predicate Stranded(st: State, a: string) {
    a in st.shared.conns && a !in st.sessions
  }

  /** As written, a failed upgrade of an unregistered address still registers
      it, with no loop started: the address is stranded. */
  lemma UpgradeFailureStrands(st: State, req: Address.Request)
    requires Valid(st)
    requires Address.Resolve(req) !in st.shared.conns
    ensures HandleConnect(st, req, false).verdict == UpgradeFailed
    ensures Stranded(HandleConnect(st, req, false).state, Address.Resolve(req))
  {
  }

  /** A stranded address stays stranded whatever happens next, so every later
      attempt from it is refused for the rest of the process. */
  lemma {:induction false} StrandedForever(st: State, a: string, events: seq<Event>, req: Address.Request, upgradeOk: bool)
    requires forall i :: 0 <= i < |events| ==> Drawable(events[i])
    requires Stranded(st, a)
    requires Address.Resolve(req) == a
    ensures Stranded(Run(st, events), a)
    ensures HandleConnect(Run(st, events), req, upgradeOk).verdict.Refused?
    decreases |events|
  {
    if |events| > 0 {
      var e := events[0];
      var st1 := Step(st, e);
      match e {
        case Connect(req1, ok1) =>
          assert Stranded(st1, a);
        case Read(addr, rr, r) =>
          if addr in st.sessions {
            assert addr != a;
            assert Stranded(st1, a);
          }
      }
      StrandedForever(st1, a, events[1..], req, upgradeOk);
    }
  }
}
