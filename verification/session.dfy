/** The per-connection loop `handleWsMessages`: read one frame; on a close
    error whose code is neither going-away nor abnormal-closure, release the
    address and stop; otherwise draw a number and send one value frame. */
module Session {
  import Decimal
  import Registry
  import NumberPool

  /** Close codes of section 7.4.1 of RFC 6455 that the loop treats as expected. */
  const CloseGoingAway: int := 1001
  const CloseAbnormalClosure: int := 1006

  /** What one `ReadMessage` call produced. */
  datatype ReadResult =
    | Message                  // a frame arrived; its content is ignored
    | CloseError(code: int)    // the peer's close, with its status code
    | OtherError               // any other read failure

  /** `IsUnexpectedCloseError(err, CloseGoingAway, CloseAbnormalClosure)`: a
      close error whose code is not one of the two expected ones. */
  predicate IsUnexpectedClose(rr: ReadResult) {
    rr.CloseError? && rr.code != CloseGoingAway && rr.code != CloseAbnormalClosure
  }

  /** The outbound value frame `msg{Number}`. */
  datatype Frame = Frame(number: string)

  /** The state the sessions share: the registry and the seen-set. */
  datatype Shared = Shared(conns: set<string>, seen: set<string>)

  /** One iteration ends the loop, or sends one frame and goes on. */
  datatype Iteration = Exit(after: Shared) | Sent(frame: Frame, after: Shared)

  /** One loop iteration of the session owning `addr`; `r` is the value the
      random source yields if the iteration draws. */
  function SessionStep(s: Shared, addr: string, rr: ReadResult, r: nat): (o: Iteration)
    requires r < NumberPool.Max
    ensures o.Exit? <==> IsUnexpectedClose(rr)
    ensures o.Exit? ==>
      && addr !in o.after.conns
      && o.after.conns <= s.conns && s.conns - o.after.conns <= {addr}
      && o.after.seen == s.seen
    ensures o.Sent? ==>
      && Decimal.Canonical(o.frame.number)
      && Decimal.Parse(o.frame.number) == r
      && o.after.conns == s.conns
      && o.frame.number in o.after.seen
      && s.seen <= o.after.seen && o.after.seen - s.seen <= {o.frame.number}
  {
    if IsUnexpectedClose(rr) then
      Exit(Shared(Registry.Release(s.conns, addr), s.seen))
    else
      var d := NumberPool.Draw(s.seen, r);
      Decimal.ParseRender(d.n);
      Sent(Frame(Decimal.Render(d.n)), Shared(s.conns, d.seen))
  }

  /** Index of the first read that ends the loop, or |results| if none does. */
  function FirstExit(results: seq<ReadResult>): (k: nat)
    ensures k <= |results|
    ensures forall j :: 0 <= j < k ==> !IsUnexpectedClose(results[j])
    ensures k < |results| ==> IsUnexpectedClose(results[k])
    decreases |results|
  {
    if |results| == 0 || IsUnexpectedClose(results[0]) then 0 else 1 + FirstExit(results[1..])
  }

  /** The frames sent, the shared state afterwards, and whether the loop ended. */
  datatype Trace = Trace(frames: seq<Frame>, after: Shared, exited: bool)

  /** The loop fed a sequence of read results; `draws[i]` is the random value
      iteration `i` would draw. Reading stops at the first iteration that exits. */
  function RunSession(s: Shared, addr: string, results: seq<ReadResult>, draws: seq<nat>): (run: Trace)
    requires |draws| == |results|
    requires forall i :: 0 <= i < |draws| ==> draws[i] < NumberPool.Max
    ensures |run.frames| == FirstExit(results)
    ensures run.exited <==> FirstExit(results) < |results|
    ensures forall j :: 0 <= j < |run.frames| ==>
      Decimal.Canonical(run.frames[j].number) && Decimal.Parse(run.frames[j].number) == draws[j]
    ensures forall a :: a != addr ==> (a in run.after.conns <==> a in s.conns)
    ensures addr in run.after.conns <==> addr in s.conns && !run.exited
    ensures s.seen <= run.after.seen
    ensures forall j :: 0 <= j < |run.frames| ==> run.frames[j].number in run.after.seen
    decreases |results|
  {
    if |results| == 0 then Trace([], s, false)
    else
      var step := SessionStep(s, addr, results[0], draws[0]);
      if step.Exit? then
        assert FirstExit(results) == 0;
        Trace([], step.after, true)
      else
        var rest := RunSession(step.after, addr, results[1..], draws[1..]);
        assert FirstExit(results) == 1 + FirstExit(results[1..]);
        PrependFrame(step.frame, rest.frames, draws, rest.after.seen);
        Trace([step.frame] + rest.frames, rest.after, rest.exited)
  }

  /** Putting the frame of draw 0 in front of the frames of draws 1, 2, ...
      gives the frames of draws 0, 1, 2, ... */
  lemma PrependFrame(frame: Frame, rest: seq<Frame>, draws: seq<nat>, seen: set<string>)
    requires |rest| < |draws|
    requires Decimal.Canonical(frame.number) && Decimal.Parse(frame.number) == draws[0] && frame.number in seen
    requires forall j :: 0 <= j < |rest| ==>
      Decimal.Canonical(rest[j].number) && Decimal.Parse(rest[j].number) == draws[1..][j]
    requires forall j :: 0 <= j < |rest| ==> rest[j].number in seen
    ensures forall j :: 0 <= j < |[frame] + rest| ==>
      Decimal.Canonical(([frame] + rest)[j].number) && Decimal.Parse(([frame] + rest)[j].number) == draws[j]
    ensures forall j :: 0 <= j < |[frame] + rest| ==> ([frame] + rest)[j].number in seen
  {
    forall j | 1 <= j < |[frame] + rest|
      ensures ([frame] + rest)[j] == rest[j - 1] && draws[j] == draws[1..][j - 1]
    {
    }
  }

  /** Only a close error with a code other than 1001 and 1006 ends the loop: a
      message, any other error, and the two expected close codes all lead to a
      draw and a send and leave the address registered; every other close code
      removes it. */
  lemma OnlyUnexpectedCloseReleases(s: Shared, addr: string, code: int, r: nat)
    requires r < NumberPool.Max
    requires addr in s.conns
    ensures SessionStep(s, addr, Message, r).Sent?
    ensures SessionStep(s, addr, OtherError, r).Sent?
    ensures addr in SessionStep(s, addr, Message, r).after.conns
    ensures addr in SessionStep(s, addr, OtherError, r).after.conns
    ensures SessionStep(s, addr, CloseError(code), r).Sent? <==>
      code == CloseGoingAway || code == CloseAbnormalClosure
    ensures addr in SessionStep(s, addr, CloseError(code), r).after.conns <==>
      code == CloseGoingAway || code == CloseAbnormalClosure
  {
  }

  /** A read error is sticky in the WebSocket library: once a read fails, every
      further read returns the same error. A loop fed only a repeated error that
      is not an unexpected close (a 1001 or 1006 close, or any non-close error
      such as a reset connection) never exits, sends one frame per read, and
      never releases its address. */
  lemma StickyReadErrorNeverReleases(s: Shared, addr: string, rr: ReadResult, results: seq<ReadResult>, draws: seq<nat>)
    requires !IsUnexpectedClose(rr)
    requires forall i :: 0 <= i < |results| ==> results[i] == rr
    requires |draws| == |results|
    requires forall i :: 0 <= i < |draws| ==> draws[i] < NumberPool.Max
    ensures !RunSession(s, addr, results, draws).exited
    ensures |RunSession(s, addr, results, draws).frames| == |results|
    ensures addr in RunSession(s, addr, results, draws).after.conns <==> addr in s.conns
  {
  }

  /** Every emitted number reads back as a value below 2^256. */
  lemma {:induction false} EmittedNumbersBelowBound(s: Shared, addr: string, results: seq<ReadResult>, draws: seq<nat>)
    requires |draws| == |results|
    requires forall i :: 0 <= i < |draws| ==> draws[i] < NumberPool.Max
    ensures forall j :: 0 <= j < |RunSession(s, addr, results, draws).frames| ==>
      Decimal.Parse(RunSession(s, addr, results, draws).frames[j].number) < NumberPool.Pow2(256)
  {
    var run := RunSession(s, addr, results, draws);
    forall j | 0 <= j < |run.frames|
      ensures Decimal.Parse(run.frames[j].number) < NumberPool.Pow2(256)
    {
      assert j < FirstExit(results) <= |draws|;
      assert Decimal.Parse(run.frames[j].number) == draws[j];
    }
  }

  /** Two messages with two different draws yield two frames with different
      numbers; two equal draws yield two equal frames, since nothing redraws. */
  lemma TwoMessagesTwoFrames(s: Shared, addr: string, r1: nat, r2: nat)
    requires r1 < NumberPool.Max && r2 < NumberPool.Max
    ensures |RunSession(s, addr, [Message, Message], [r1, r2]).frames| == 2
    ensures !RunSession(s, addr, [Message, Message], [r1, r2]).exited
    ensures (RunSession(s, addr, [Message, Message], [r1, r2]).frames[0]
             == RunSession(s, addr, [Message, Message], [r1, r2]).frames[1]) <==> r1 == r2
  {
    var run := RunSession(s, addr, [Message, Message], [r1, r2]);
    assert FirstExit([Message, Message]) == 2;
    if run.frames[0] == run.frames[1] {
      assert Decimal.Parse(run.frames[0].number) == r1;
      assert Decimal.Parse(run.frames[1].number) == r2;
    } else {
      Decimal.RenderParse(run.frames[0].number);
      Decimal.RenderParse(run.frames[1].number);
    }
  }
}
