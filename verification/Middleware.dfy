/** The two response-writer wrappers, stacked as the router stacks them: RequestID's recorder
    around net/http's writer, Recover's recorder around that. */
module Middleware {
  import opened Common

  /** What a handler does to its writer. A write hands over some bytes, of which the connection
      accepts `accepted`. */
  datatype Event = WriteHeader(status: int) | Write(accepted: nat) | Panic

  /** Final statuses and statuses net/http refuses; informational ones are not modelled. */
  predicate Modelled(e: Event) { e.WriteHeader? ==> !(100 <= e.status < 200) }

  predicate Refused(e: Event) { e.WriteHeader? && (e.status < 100 || e.status > 999) }

  /** What reached the connection. */
  datatype Sent = Sent(status: Option<int>, bytes: nat, headerCalls: nat)

  /** net/http's own writer: the first final status wins, the first write implies 200, and an
      impossible status panics unless a header is out already. */
  class NetWriter {
    var sent: Sent

    constructor ()
      ensures sent == Sent(None, 0, 0)
    {
      sent := Sent(None, 0, 0);
    }

    method WriteHeader(status: int) returns (panicked: bool)
      modifies this
      ensures panicked <==> old(sent.status).None? && Refused(Event.WriteHeader(status))
      ensures sent == old(sent).(headerCalls := old(sent.headerCalls) + 1,
                                 status := if old(sent.status).None? && !panicked
                                           then Some(status) else old(sent.status))
    {
      sent := sent.(headerCalls := sent.headerCalls + 1);
      if sent.status.Some? {
        return false;
      }
      if status < 100 || status > 999 {
        return true;
      }
      sent := sent.(status := Some(status));
      panicked := false;
    }

    method Write(accepted: nat) returns (written: nat)
      modifies this
      ensures written == accepted
      ensures sent == old(sent).(bytes := old(sent.bytes) + accepted,
                                 status := if old(sent.status).None? then Some(200) else old(sent.status))
    {
      if sent.status.None? {
        sent := sent.(status := Some(200));
      }
      sent := sent.(bytes := sent.bytes + accepted);
      written := accepted;
    }

    /** When the handler has returned, net/http sends 200 if nothing was sent. */
    method Finish()
      modifies this
      ensures sent == old(sent).(status := if old(sent.status).None? then Some(200) else old(sent.status))
    {
      if sent.status.None? {
        sent := sent.(status := Some(200));
      }
    }
  }

  /** RequestID's wrapper. */
  class StatusRecorder {
    const inner: NetWriter
    var status: int
    var bytes: nat
    var wroteHeader: bool

    constructor (inner: NetWriter)
      ensures this.inner == inner && status == 200 && bytes == 0 && !wroteHeader
    {
      this.inner := inner;
      status, bytes, wroteHeader := 200, 0, false;
    }

    method WriteHeader(code: int) returns (panicked: bool)
      modifies this, inner
      ensures bytes == old(bytes) && wroteHeader
      ensures old(wroteHeader) ==> !panicked && status == old(status) && inner.sent == old(inner.sent)
      ensures !old(wroteHeader) ==>
                && status == code
                && (panicked <==> old(inner.sent.status).None? && Refused(Event.WriteHeader(code)))
                && inner.sent == old(inner.sent).(
                     headerCalls := old(inner.sent.headerCalls) + 1,
                     status := if old(inner.sent.status).None? && !panicked then Some(code) else old(inner.sent.status))
    {
      if wroteHeader {
        return false;
      }
      status, wroteHeader := code, true;
      panicked := inner.WriteHeader(code);
    }

    method Write(accepted: nat)
      modifies this, inner
      ensures status == old(status) && wroteHeader == old(wroteHeader) && bytes == old(bytes) + accepted
      ensures inner.sent == old(inner.sent).(
                              bytes := old(inner.sent.bytes) + accepted,
                              status := if old(inner.sent.status).None? then Some(200) else old(inner.sent.status))
    {
      var written := inner.Write(accepted);
      bytes := bytes + written;
    }
  }

  /** Recover's wrapper. */
  class RecoverWriter {
    const inner: StatusRecorder
    var committed: bool

    constructor (inner: StatusRecorder)
      ensures this.inner == inner && !committed
    {
      this.inner := inner;
      committed := false;
    }

    /** What the three layers agree on, whatever the handler did so far. */
    ghost predicate Agree()
      reads this, inner, inner.inner
    {
      var sent := inner.inner.sent;
      && inner.bytes == sent.bytes
      && (!committed ==> sent == Sent(None, 0, 0) && inner.status == 200 && !inner.wroteHeader)
      && (committed && inner.wroteHeader ==> sent.headerCalls == 1 && sent.status == Some(inner.status))
      && (committed && !inner.wroteHeader ==> sent.headerCalls == 0 && sent.status == Some(200) && inner.status == 200)
    }

    method WriteHeader(code: int) returns (panicked: bool)
      requires Agree()
      modifies this, inner, inner.inner
      ensures committed && inner.bytes == inner.inner.sent.bytes
      ensures panicked <==> !old(committed) && Refused(Event.WriteHeader(code))
      ensures !panicked ==> Agree()
      ensures old(committed) ==> inner.inner.sent == old(inner.inner.sent) && inner.status == old(inner.status)
      ensures !old(committed) ==>
                inner.status == code && inner.inner.sent == Sent(if panicked then None else Some(code), 0, 1)
    {
      if committed {
        return false;
      }
      committed := true;
      panicked := inner.WriteHeader(code);
    }

    method Write(accepted: nat)
      requires Agree()
      modifies this, inner, inner.inner
      ensures Agree() && committed
      ensures inner.inner.sent == old(inner.inner.sent).(
                                    bytes := old(inner.inner.sent.bytes) + accepted,
                                    status := if old(committed) then old(inner.inner.sent.status) else Some(200))
    {
      if !committed {
        committed := true;
      }
      inner.Write(accepted);
    }
  }

  // What a client should get, said of the trace alone.

  /** The events before the handler's first panic. */
  function UpToPanic(trace: seq<Event>): seq<Event> {
    if trace == [] || trace[0].Panic? then [] else [trace[0]] + UpToPanic(trace[1..])
  }

  function Bytes(trace: seq<Event>): nat {
    if trace == [] then 0 else Bytes(trace[1..]) + if trace[0].Write? then trace[0].accepted else 0
  }

  /** The first event decides: nothing at all is an empty 200, a panic is one error response, a
      refused status loses the response, and anything else fixes the status for good. */
  function Response(trace: seq<Event>, errorBytes: nat): Sent {
    if trace == [] then Sent(Some(200), 0, 0)
    else if trace[0].Panic? then Sent(Some(500), errorBytes, 1)
    else if Refused(trace[0]) then Sent(Some(200), 0, 1)
    else if trace[0].WriteHeader? then Sent(Some(trace[0].status), Bytes(UpToPanic(trace)), 1)
    else Sent(Some(200), Bytes(UpToPanic(trace)), 0)
  }

  /** One request through RequestID and Recover. The client gets Response, net/http sees at most one
      WriteHeader, the logged byte count is what was sent, and the logged status is what was sent
      exactly when the handler did not open with a status that net/http refuses. */
  method Serve(trace: seq<Event>, errorBytes: nat) returns (sent: Sent, loggedStatus: int, loggedBytes: nat)
    requires forall i :: 0 <= i < |trace| ==> Modelled(trace[i])
    ensures sent == Response(trace, errorBytes)
    ensures sent.headerCalls <= 1 && loggedBytes == sent.bytes
    ensures Some(loggedStatus) == sent.status <==> !(trace != [] && Refused(trace[0]))
  {
    var net := new NetWriter();
    var recorder := new StatusRecorder(net);
    var writer := new RecoverWriter(recorder);
    var i, panicked := 0, false;
    while i < |trace| && !panicked
      invariant 0 <= i <= |trace| && writer.inner == recorder && recorder.inner == net
      invariant fresh(net) && fresh(recorder) && fresh(writer)
      invariant recorder.bytes == net.sent.bytes && (panicked ==> i > 0)
      invariant !panicked ==> writer.Agree() && recorder.bytes + Bytes(UpToPanic(trace[i..])) == Bytes(UpToPanic(trace))
      invariant panicked && trace[i - 1].Panic? ==> writer.Agree() && Bytes(UpToPanic(trace)) == recorder.bytes
      invariant panicked && !trace[i - 1].Panic? ==>
                  i == 1 && Refused(trace[0]) && writer.committed && recorder.status == trace[0].status
                  && net.sent == Sent(None, 0, 1)
      invariant writer.committed <==> i > 0 && !trace[0].Panic?
      invariant i > 1 ==> !trace[0].Panic? && !Refused(trace[0])
      invariant !panicked && i > 0 ==> !trace[0].Panic? && !Refused(trace[0])
      invariant i > 0 && !trace[0].Panic? && !Refused(trace[0]) ==>
                  net.sent.status == Some(if trace[0].WriteHeader? then trace[0].status else 200)
                  && net.sent.headerCalls == if trace[0].WriteHeader? then 1 else 0
      decreases |trace| - i
    {
      assert trace[i..][1..] == trace[i + 1..];
      match trace[i] {
        case WriteHeader(status) => panicked := writer.WriteHeader(status);
        case Write(accepted) => writer.Write(accepted);
        case Panic => panicked := true;
      }
      i := i + 1;
    }
    if panicked && !writer.committed {
      var again := writer.WriteHeader(500);
      writer.Write(errorBytes);
    }
    loggedStatus, loggedBytes := recorder.status, recorder.bytes;
    net.Finish();
    sent := net.sent;
  }

  /** A panic after the response is committed adds nothing to it. */
  lemma {:induction false} PanicAfterCommitAddsNothing(before: seq<Event>, after: seq<Event>, errorBytes: nat)
    requires before != [] && forall i :: 0 <= i < |before| ==> !before[i].Panic?
    ensures Response(before + [Panic] + after, errorBytes) == Response(before, errorBytes)
  {
    PrefixBeforePanic(before, after);
    PrefixBeforePanic(before, []);
    assert before + [Panic] + after == [before[0]] + (before[1..] + [Panic] + after);
  }

  lemma {:induction false} PrefixBeforePanic(before: seq<Event>, after: seq<Event>)
    requires forall i :: 0 <= i < |before| ==> !before[i].Panic?
    ensures UpToPanic(before + [Panic] + after) == before && UpToPanic(before) == before
  {
    if before != [] {
      PrefixBeforePanic(before[1..], after);
      assert (before + [Panic] + after)[1..] == before[1..] + [Panic] + after;
    }
  }

  /** The position of the first WriteHeader, or the length. */
  function FirstHeader(trace: seq<Event>): (n: nat)
    ensures n <= |trace|
    ensures forall i :: 0 <= i < n ==> !trace[i].WriteHeader?
    ensures n < |trace| ==> trace[n].WriteHeader?
  {
    if trace == [] || trace[0].WriteHeader? then 0 else 1 + FirstHeader(trace[1..])
  }

  /** RequestID's recorder alone gets the bytes right, but its status only when no write precedes
      the first explicit header, or that header says 200 anyway: net/http has already sent 200. */
  method ServeRecorderOnly(trace: seq<Event>) returns (sent: Sent, loggedStatus: int, loggedBytes: nat)
    requires forall i :: 0 <= i < |trace| ==> Modelled(trace[i]) && !trace[i].Panic?
    requires !(trace != [] && Refused(trace[0]))
    ensures loggedBytes == sent.bytes == Bytes(trace)
    ensures sent.status == Some(if trace != [] && trace[0].WriteHeader? then trace[0].status else 200)
    ensures Some(loggedStatus) == sent.status <==>
              (var n := FirstHeader(trace); n == 0 || n == |trace| || trace[n].status == 200)
  {
    var net := new NetWriter();
    var recorder := new StatusRecorder(net);
    var n := FirstHeader(trace);
    for i := 0 to |trace|
      invariant recorder.inner == net && fresh(net) && fresh(recorder)
      invariant recorder.bytes == net.sent.bytes && recorder.bytes + Bytes(trace[i..]) == Bytes(trace)
      invariant recorder.wroteHeader <==> n < i
      invariant recorder.status == if n < i then trace[n].status else 200
      invariant net.sent.status == if i == 0 then None else if n == 0 then Some(trace[0].status) else Some(200)
    {
      assert trace[i..][1..] == trace[i + 1..];
      match trace[i]
      case WriteHeader(status) => var p := recorder.WriteHeader(status);
      case Write(accepted) => recorder.Write(accepted);
    }
    loggedStatus, loggedBytes := recorder.status, recorder.bytes;
    net.Finish();
    sent := net.sent;
  }
}
