/**
 ICS-20 denom traces as the destination callback rewrites them
 (x/wasm/ibc.go, IBCReceivePacketCallback), over arbitrary networks of channels
 and arbitrary runs of transfers.

 A hop is a (port, channel) pair and only means something on one chain, so the
 network is a pairing of channel ends (chain, hop). A token's journey is a walk:
 the list of ends it departed through.
 */
module DenomTrace {
  import opened Types

  datatype Hop = Hop(port: string, channel: string)

  datatype End = End(chain: string, hop: Hop)

  /** Maps each channel end to its counterpart end. */
  type Network = map<End, End>

  ghost predicate ValidNetwork(net: Network) {
    forall e :: e in net ==> net[e] in net && net[net[e]] == e && net[e] != e
  }

  /** Denom.HasPrefix. */
  predicate HasPrefix(trace: seq<Hop>, hop: Hop) { |trace| > 0 && trace[0] == hop }

  /** The trace on the destination chain of a packet sent over src -> dst. */
  function Receive(src: Hop, dst: Hop, trace: seq<Hop>): seq<Hop> {
    if HasPrefix(trace, src) then trace[1..] else [dst] + trace
  }

  // ---------------------------------------------------------------- the callback

  datatype TransferData = TransferData(sender: string, receiver: string, base: string, trace: seq<Hop>, amount: nat)

  datatype Transfer = Transfer(receiver: string, sender: string, base: string, trace: seq<Hop>, amount: nat)

  datatype Failure = BadContract | BadPacketData | BadReceiver | CallbackFailed

  datatype Callback = Failed(why: Failure) | Delivered(transfer: Option<Transfer>)

  /**
   IBCReceivePacketCallback. Address checks, packet decoding and the contract call
   are inputs: `contractOk`, `data` (None when decoding fails), `receiverAddr`
   (the receiver's address encoded again, None when it is no address), `callOk`.
   The contract sees a transfer exactly for a successfully acknowledged packet to
   the transfer port, and then with the destination chain's trace.
   */
  method ReceivePacketCallback(contractOk: bool, toTransferPort: bool, ackSuccess: bool, src: Hop, dst: Hop,
                               data: Option<TransferData>, receiverAddr: Option<string>, callOk: bool)
    returns (r: Callback)
    ensures r.Delivered? <==>
              contractOk && callOk && (toTransferPort && ackSuccess ==> data.Some? && receiverAddr.Some?)
    ensures r.Delivered? ==>
              (r.transfer.Some? <==> toTransferPort && ackSuccess)
    ensures r.Delivered? && r.transfer.Some? ==>
              r.transfer.value == Transfer(receiverAddr.value, data.value.sender, data.value.base,
                                           Receive(src, dst, data.value.trace), data.value.amount)
    ensures r == Failed(BadContract) <==> !contractOk
    ensures r == Failed(BadPacketData) <==> contractOk && toTransferPort && ackSuccess && data.None?
    ensures r == Failed(BadReceiver) <==> contractOk && toTransferPort && ackSuccess && data.Some? && receiverAddr.None?
    ensures r == Failed(CallbackFailed) <==>
              contractOk && (toTransferPort && ackSuccess ==> data.Some? && receiverAddr.Some?) && !callOk
  {
    if !contractOk {
      return Failed(BadContract);
    }
    var transfer: Option<Transfer> := None;
    if toTransferPort && ackSuccess {
      if data.None? {
        return Failed(BadPacketData);
      }
      if receiverAddr.None? {
        return Failed(BadReceiver);
      }
      var trace := data.value.trace;
      if HasPrefix(trace, src) {
        trace := trace[1..];
      } else {
        trace := [dst] + trace;
      }
      var d := data.value;
      transfer := Some(Transfer(receiverAddr.value, d.sender, d.base, trace, d.amount));
    }
    if !callOk {
      return Failed(CallbackFailed);
    }
    r := Delivered(transfer);
  }

  // ---------------------------------------------------------------- walks

  /** Where a walk that started on `start` has arrived. */
  function Position(net: Network, start: string, w: seq<End>): string
    requires w != [] ==> w[|w| - 1] in net
  {
    if w == [] then start else net[w[|w| - 1]].chain
  }

  /** Each departure is from the chain the token is on. */
  ghost predicate ValidWalk(net: Network, start: string, w: seq<End>) {
    w != [] ==>
      && ValidWalk(net, start, w[..|w| - 1])
      && w[|w| - 1] in net
      && w[|w| - 1].chain == Position(net, start, w[..|w| - 1])
  }

  /** The trace after a walk, one callback per transfer, for a token native to the first chain. */
  function RunTrace(net: Network, w: seq<End>): seq<Hop>
    requires forall e :: e in w ==> e in net
  {
    if w == [] then []
    else
      var e := w[|w| - 1];
      Receive(e.hop, net[e].hop, RunTrace(net, w[..|w| - 1]))
  }

  /** Two consecutive steps cancel: the second goes straight back over the same channel. */
  predicate Cancels(net: Network, a: End, b: End) { a in net && net[a] == b }

  ghost predicate Reduced(net: Network, w: seq<End>) {
    forall i :: 0 <= i < |w| - 1 ==> !Cancels(net, w[i], w[i + 1])
  }

  /** Free reduction, left to right. */
  function Reduce(net: Network, w: seq<End>): seq<End> {
    if w == [] then [] else Push(net, Reduce(net, w[..|w| - 1]), w[|w| - 1])
  }

  function Push(net: Network, r: seq<End>, e: End): seq<End> {
    if r != [] && Cancels(net, r[|r| - 1], e) then r[..|r| - 1] else r + [e]
  }

  /** The arrival hops of a walk, latest first. */
  function TraceOf(net: Network, r: seq<End>): seq<Hop>
    requires forall e :: e in r ==> e in net
  {
    if r == [] then [] else [net[r[|r| - 1]].hop] + TraceOf(net, r[..|r| - 1])
  }

  lemma {:induction false} WalkInNetwork(net: Network, start: string, w: seq<End>)
    requires ValidWalk(net, start, w)
    ensures forall e :: e in w ==> e in net
  {
    if w != [] {
      WalkInNetwork(net, start, w[..|w| - 1]);
      assert w == w[..|w| - 1] + [w[|w| - 1]];
    }
  }

  lemma {:induction false} ReduceIsReduced(net: Network, w: seq<End>)
    ensures Reduced(net, Reduce(net, w))
  {
    if w != [] { ReduceIsReduced(net, w[..|w| - 1]); }
  }

  lemma PushIsWalk(net: Network, start: string, r: seq<End>, e: End)
    requires ValidNetwork(net) && ValidWalk(net, start, r)
    requires e in net && e.chain == Position(net, start, r)
    ensures ValidWalk(net, start, Push(net, r, e))
    ensures Push(net, r, e) != [] ==> Push(net, r, e)[|Push(net, r, e)| - 1] in net
    ensures Position(net, start, Push(net, r, e)) == net[e].chain
  {
    if r != [] && Cancels(net, r[|r| - 1], e) {
      assert net[e] == r[|r| - 1];
    } else {
      assert (r + [e])[..|r|] == r;
    }
  }

  /** Reduction keeps a walk a walk, with the same two ends, and leaves nothing to cancel. */
  lemma {:induction false} ReduceIsWalk(net: Network, start: string, w: seq<End>)
    requires ValidNetwork(net) && ValidWalk(net, start, w)
    ensures ValidWalk(net, start, Reduce(net, w))
    ensures forall e :: e in Reduce(net, w) ==> e in net
    ensures Position(net, start, Reduce(net, w)) == Position(net, start, w)
    ensures Reduced(net, Reduce(net, w))
  {
    if w != [] {
      ReduceIsWalk(net, start, w[..|w| - 1]);
      PushIsWalk(net, start, Reduce(net, w[..|w| - 1]), w[|w| - 1]);
    }
    WalkInNetwork(net, start, Reduce(net, w));
    ReduceIsReduced(net, w);
  }

  /** The trace a run leaves is the trace of the freely reduced walk. */
  lemma {:induction false} TraceIsReducedWalk(net: Network, start: string, w: seq<End>)
    requires ValidNetwork(net) && ValidWalk(net, start, w)
    ensures (forall e :: e in w ==> e in net) && (forall e :: e in Reduce(net, w) ==> e in net)
    ensures RunTrace(net, w) == TraceOf(net, Reduce(net, w))
  {
    WalkInNetwork(net, start, w);
    ReduceIsWalk(net, start, w);
    if w != [] {
      var n := |w| - 1;
      var e := w[n];
      var r := Reduce(net, w[..n]);
      TraceIsReducedWalk(net, start, w[..n]);
      ReduceIsWalk(net, start, w[..n]);
      PushReceives(net, start, r, e);
    }
  }

  /** One transfer: pushing its departure on a walk is what receiving it does to the trace. */
  lemma PushReceives(net: Network, start: string, r: seq<End>, e: End)
    requires ValidNetwork(net) && ValidWalk(net, start, r) && (forall x :: x in r ==> x in net)
    requires e in net && e.chain == Position(net, start, r)
    ensures forall x :: x in Push(net, r, e) ==> x in net
    ensures TraceOf(net, Push(net, r, e)) == Receive(e.hop, net[e].hop, TraceOf(net, r))
  {
    var t := TraceOf(net, r);
    if r != [] {
      var last := net[r[|r| - 1]];
      assert last.chain == e.chain;
      assert t[0] == e.hop <==> last == e;
      assert t[1..] == TraceOf(net, r[..|r| - 1]);
    }
    assert (r + [e])[..|r|] == r;
  }

  // ---------------------------------------------------------------- reading a trace

  /** Read from `chain`, every hop of the trace is an end of that chain, and none is followed by its own counterpart. */
  ghost predicate TraceReduced(net: Network, chain: string, t: seq<Hop>)
    decreases |t|
  {
    t != [] ==>
      && End(chain, t[0]) in net
      && (|t| > 1 ==> t[1] != net[End(chain, t[0])].hop)
      && TraceReduced(net, net[End(chain, t[0])].chain, t[1..])
  }

  /** The chain a trace leads back to. */
  ghost function Origin(net: Network, chain: string, t: seq<Hop>): string
    decreases |t|
  {
    if t == [] || End(chain, t[0]) !in net then chain
    else Origin(net, net[End(chain, t[0])].chain, t[1..])
  }

  lemma {:induction false} ReducedWalkReads(net: Network, start: string, r: seq<End>)
    requires ValidNetwork(net) && ValidWalk(net, start, r) && Reduced(net, r)
    ensures forall e :: e in r ==> e in net
    ensures TraceReduced(net, Position(net, start, r), TraceOf(net, r))
    ensures Origin(net, Position(net, start, r), TraceOf(net, r)) == start
  {
    WalkInNetwork(net, start, r);
    if r != [] {
      var k := |r| - 1;
      var q := r[..k];
      var t := TraceOf(net, r);
      ReducedWalkReads(net, start, q);
      var arrived := net[r[k]];
      assert arrived == End(arrived.chain, t[0]) && net[arrived] == r[k];
      assert t[1..] == TraceOf(net, q);
      if q != [] {
        assert !Cancels(net, r[k - 1], r[k]);
        assert t[1] == net[q[k - 1]].hop;
      }
    }
  }

  /**
   Traces stay reduced and point home: after any run the trace, read from the
   chain the token is on, never holds a hop followed by its own channel's other
   end, and following it leads back to the chain the token came from.
   */
  lemma TraceStaysReduced(net: Network, start: string, w: seq<End>)
    requires ValidNetwork(net) && ValidWalk(net, start, w)
    ensures forall e :: e in w ==> e in net
    ensures TraceReduced(net, Position(net, start, w), RunTrace(net, w))
    ensures Origin(net, Position(net, start, w), RunTrace(net, w)) == start
  {
    TraceIsReducedWalk(net, start, w);
    ReduceIsWalk(net, start, w);
    ReducedWalkReads(net, start, Reduce(net, w));
  }

  // ---------------------------------------------------------------- sending back

  /**
   For arbitrary hops and an arbitrary trace, there and back restores the trace
   exactly when the trace did not start with both ends of the channel in a row.
   */
  lemma ThereAndBack(src: Hop, dst: Hop, t: seq<Hop>)
    ensures Receive(dst, src, Receive(src, dst, t)) == t <==> !(|t| >= 2 && t[0] == src && t[1] == dst)
  {
    var u := Receive(src, dst, t);
    if HasPrefix(t, src) {
      assert u == t[1..];
      if HasPrefix(u, dst) {
        assert |Receive(dst, src, u)| == |t| - 2;
      } else {
        assert [src] + t[1..] == t;
      }
    } else {
      assert u[1..] == t;
    }
  }

  /** After any run, a transfer followed by the transfer straight back restores the trace. */
  lemma SendBackRestores(net: Network, start: string, w: seq<End>, e: End)
    requires ValidNetwork(net) && ValidWalk(net, start, w)
    requires e in net && e.chain == Position(net, start, w)
    ensures forall x :: x in w + [e, net[e]] ==> x in net
    ensures RunTrace(net, w + [e, net[e]]) == RunTrace(net, w)
  {
    WalkInNetwork(net, start, w);
    var t := RunTrace(net, w);
    TraceStaysReduced(net, start, w);
    assert (w + [e, net[e]])[..|w| + 1] == w + [e];
    assert (w + [e])[..|w|] == w;
    ThereAndBack(e.hop, net[e].hop, t);
    if |t| >= 2 && t[0] == e.hop { assert End(e.chain, t[0]) == e; }
  }

  // ---------------------------------------------------------------- which reduction

  /** Removes the cancelling pair at position i; None when the pair there does not cancel. */
  function CancelAt(net: Network, w: seq<End>, i: nat): Option<seq<End>> {
    if i + 1 < |w| && Cancels(net, w[i], w[i + 1]) then Some(w[..i] + w[i + 2..]) else None
  }

  function CancelAll(net: Network, w: seq<End>, at: seq<nat>): Option<seq<End>> {
    if at == [] then Some(w)
    else
      var v := CancelAll(net, w, at[..|at| - 1]);
      if v.None? then None else CancelAt(net, v.value, at[|at| - 1])
  }

  ghost predicate InNetwork(net: Network, w: seq<End>) { forall e :: e in w ==> e in net }

  lemma {:induction false} ReduceKeepsReduced(net: Network, w: seq<End>)
    requires Reduced(net, w)
    ensures Reduce(net, w) == w
  {
    if w != [] {
      var n := |w| - 1;
      ReduceKeepsReduced(net, w[..n]);
      assert n > 0 ==> w[..n][n - 1] == w[n - 1];
      assert w[..n] + [w[n]] == w;
    }
  }

  lemma {:induction false} ReduceMembers(net: Network, w: seq<End>)
    requires InNetwork(net, w)
    ensures InNetwork(net, Reduce(net, w))
  {
    if w != [] {
      ReduceMembers(net, w[..|w| - 1]);
      assert w[|w| - 1] in w;
    }
  }

  /** A step and its return, pushed on a reduced walk, leave it as it was. */
  lemma PushTwice(net: Network, r: seq<End>, e: End)
    requires ValidNetwork(net) && Reduced(net, r) && InNetwork(net, r) && e in net
    ensures Push(net, Push(net, r, e), net[e]) == r
  {
    if r != [] && Cancels(net, r[|r| - 1], e) {
      var k := |r| - 1;
      var q := r[..k];
      assert net[e] == r[k];
      if q != [] { assert !Cancels(net, r[k - 1], r[k]); }
      assert q + [r[k]] == r;
    } else {
      assert (r + [e])[..|r|] == r;
    }
  }

  /** Reducing depends only on the reduced front. */
  lemma {:induction false} ReduceAfter(net: Network, x: seq<End>, y: seq<End>, tail: seq<End>)
    requires Reduce(net, x) == Reduce(net, y)
    ensures Reduce(net, x + tail) == Reduce(net, y + tail)
  {
    if tail == [] {
      assert x + tail == x && y + tail == y;
    } else {
      var k := |tail| - 1;
      assert (x + tail)[..|x + tail| - 1] == x + tail[..k];
      assert (y + tail)[..|y + tail| - 1] == y + tail[..k];
      ReduceAfter(net, x, y, tail[..k]);
    }
  }

  lemma CancelKeepsReduce(net: Network, w: seq<End>, i: nat)
    requires ValidNetwork(net) && InNetwork(net, w) && CancelAt(net, w, i).Some?
    ensures InNetwork(net, CancelAt(net, w, i).value)
    ensures Reduce(net, CancelAt(net, w, i).value) == Reduce(net, w)
  {
    hide Reduce;
    var front := w[..i];
    PairReduces(net, front, w[i]);
    ReduceAfter(net, front + [w[i], w[i + 1]], front, w[i + 2..]);
    assert w == front + [w[i], w[i + 1]] + w[i + 2..];
  }

  lemma PairReduces(net: Network, front: seq<End>, e: End)
    requires ValidNetwork(net) && InNetwork(net, front) && e in net
    ensures Reduce(net, front + [e, net[e]]) == Reduce(net, front)
  {
    ReduceSnoc(net, front, e);
    ReduceSnoc(net, front + [e], net[e]);
    assert front + [e] + [net[e]] == front + [e, net[e]];
    ReduceIsReduced(net, front);
    ReduceMembers(net, front);
    PushTwice(net, Reduce(net, front), e);
  }

  lemma ReduceSnoc(net: Network, w: seq<End>, e: End)
    ensures Reduce(net, w + [e]) == Push(net, Reduce(net, w), e)
  {
    assert (w + [e])[..|w|] == w;
  }

  /**
   The reduced walk does not depend on how one reduces: cancelling pairs in any
   order until none is left ends in Reduce(w).
   */
  lemma {:induction false} ReductionIsUnique(net: Network, w: seq<End>, at: seq<nat>)
    requires ValidNetwork(net) && InNetwork(net, w) && CancelAll(net, w, at).Some?
    ensures InNetwork(net, CancelAll(net, w, at).value)
    ensures Reduce(net, CancelAll(net, w, at).value) == Reduce(net, w)
    ensures Reduced(net, CancelAll(net, w, at).value) ==> CancelAll(net, w, at).value == Reduce(net, w)
  {
    if at != [] {
      ReductionIsUnique(net, w, at[..|at| - 1]);
      CancelKeepsReduce(net, CancelAll(net, w, at[..|at| - 1]).value, at[|at| - 1]);
    }
    if Reduced(net, CancelAll(net, w, at).value) { ReduceKeepsReduced(net, CancelAll(net, w, at).value); }
  }

  /** Reduce(w) is reached by cancelling pairs. */
  lemma {:induction false} ReductionByCancelling(net: Network, w: seq<End>) returns (at: seq<nat>)
    ensures CancelAll(net, w, at) == Some(Reduce(net, w))
  {
    hide CancelAll;
    if w == [] {
      at := [];
      CancelNothing(net, w);
    } else {
      var n := |w| - 1;
      var e := w[n];
      var front := ReductionByCancelling(net, w[..n]);
      var r := Reduce(net, w[..n]);
      CancelWithTail(net, w[..n], front, e);
      assert w[..n] + [e] == w;
      at := front;
      if r != [] && Cancels(net, r[|r| - 1], e) {
        CancelLast(net, w, front, r, e);
        at := front + [|r| - 1];
      }
    }
  }

  lemma CancelNothing(net: Network, w: seq<End>)
    ensures CancelAll(net, w, []) == Some(w)
  {
  }

  lemma CancelLast(net: Network, w: seq<End>, front: seq<nat>, r: seq<End>, e: End)
    requires CancelAll(net, w, front) == Some(r + [e]) && r != [] && Cancels(net, r[|r| - 1], e)
    ensures CancelAll(net, w, front + [|r| - 1]) == Some(r[..|r| - 1])
  {
    assert (front + [|r| - 1])[..|front|] == front;
    assert (r + [e])[..|r| - 1] + (r + [e])[|r| + 1..] == r[..|r| - 1];
  }

  lemma {:induction false} CancelWithTail(net: Network, w: seq<End>, at: seq<nat>, e: End)
    requires CancelAll(net, w, at).Some?
    ensures CancelAll(net, w + [e], at) == Some(CancelAll(net, w, at).value + [e])
  {
    if at != [] {
      var k := |at| - 1;
      CancelWithTail(net, w, at[..k], e);
      var v := CancelAll(net, w, at[..k]).value;
      var i := at[k];
      assert (v + [e])[..i] + (v + [e])[i + 2..] == v[..i] + v[i + 2..] + [e];
    }
  }

  // ---------------------------------------------------------------- identity of denoms

  lemma TraceHead(net: Network, r: seq<End>)
    requires InNetwork(net, r)
    ensures r == [] <==> TraceOf(net, r) == []
    ensures r != [] ==>
              && TraceOf(net, r)[0] == net[r[|r| - 1]].hop
              && TraceOf(net, r)[1..] == TraceOf(net, r[..|r| - 1])
  {
  }

  lemma {:induction false} TraceDeterminesWalk(net: Network, a: string, r: seq<End>, b: string, s: seq<End>)
    requires ValidNetwork(net) && ValidWalk(net, a, r) && ValidWalk(net, b, s)
    requires Position(net, a, r) == Position(net, b, s)
    ensures InNetwork(net, r) && InNetwork(net, s)
    ensures TraceOf(net, r) == TraceOf(net, s) ==> r == s && a == b
  {
    WalkInNetwork(net, a, r);
    WalkInNetwork(net, b, s);
    hide TraceOf, ValidWalk, Position;
    TraceHead(net, r);
    TraceHead(net, s);
    StepBack(net, a, r);
    StepBack(net, b, s);
    if TraceOf(net, r) == TraceOf(net, s) && r != [] {
      var i, j := |r| - 1, |s| - 1;
      SameArrival(net, r[i], s[j]);
      TraceDeterminesWalk(net, a, r[..i], b, s[..j]);
      assert r == r[..i] + [r[i]] && s == s[..j] + [s[j]];
    }
  }

  /** The last departure of a walk, and the walk before it. */
  lemma StepBack(net: Network, start: string, r: seq<End>)
    requires ValidWalk(net, start, r) && InNetwork(net, r)
    ensures r == [] ==> Position(net, start, r) == start
    ensures r != [] ==>
              && ValidWalk(net, start, r[..|r| - 1]) && InNetwork(net, r[..|r| - 1])
              && Position(net, start, r) == net[r[|r| - 1]].chain
              && Position(net, start, r[..|r| - 1]) == r[|r| - 1].chain
  {
  }

  lemma SameArrival(net: Network, e: End, f: End)
    requires ValidNetwork(net) && e in net && f in net
    requires net[e].chain == net[f].chain && net[e].hop == net[f].hop
    ensures e == f
  {
    assert net[net[e]] == e && net[net[f]] == f;
  }

  /**
   Fungibility. Two tokens on the same chain carry the same trace exactly when
   they come from the same chain over the same freely reduced walk.
   */
  lemma SameTraceSameRoute(net: Network, a: string, v: seq<End>, b: string, w: seq<End>)
    requires ValidNetwork(net) && ValidWalk(net, a, v) && ValidWalk(net, b, w)
    requires Position(net, a, v) == Position(net, b, w)
    ensures InNetwork(net, v) && InNetwork(net, w)
    ensures RunTrace(net, v) == RunTrace(net, w) <==> Reduce(net, v) == Reduce(net, w) && a == b
  {
    TraceIsReducedWalk(net, a, v);
    TraceIsReducedWalk(net, b, w);
    ReduceIsWalk(net, a, v);
    ReduceIsWalk(net, b, w);
    TraceDeterminesWalk(net, a, Reduce(net, v), b, Reduce(net, w));
  }
}
