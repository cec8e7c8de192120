/** Notifications about a decision: who is told, and what their failures do to the request. */
module Alert {
  import opened Wrappers
  import opened FanOut
  import opened GoStrings

  const SUCCESS := "success"
  const ERROR := "error"
  const SKIP := "skip"
  const TIMEOUT := "timeout"
  const INVALID := "invalid"

  class NotificationValues {
    var result: string
    var error: Option<string>
    var images: seq<string>
    const requestId: string
    var cluster: string
    var alertMessage: string

    constructor (requestId: string)
      ensures this.requestId == requestId && result == "" && error.None? && images == []
    {
      this.requestId := requestId;
      result, error, images, cluster, alertMessage := "", None, [], "", "";
    }
  }

  /** fail: a failure to send denies the request. */
  datatype Receiver = Receiver(name: string, fail: bool)

  datatype AlertError =
    | UnknownResult(result: string)
    | SendingFailed(receiver: string, cause: string)
    | TimedOut(after: nat, receivers: nat, stream: string)

  class Config {
    var clusterId: string
    const admitRequests: seq<Receiver>
    const rejectRequests: seq<Receiver>

    constructor (clusterId: string, admitRequests: seq<Receiver>, rejectRequests: seq<Receiver>)
      ensures this.clusterId == clusterId
      ensures this.admitRequests == admitRequests && this.rejectRequests == rejectRequests
    {
      this.clusterId := clusterId;
      this.admitRequests := admitRequests;
      this.rejectRequests := rejectRequests;
    }

    /** The receivers for a result; None if the result is none of the five. */
    function Receivers(result: string): (r: Option<seq<Receiver>>)
      ensures result in {"success", "skip"} ==> r == Some(admitRequests)
      ensures result in {"error", "timeout", "invalid"} ==> r == Some(rejectRequests)
      ensures r.None? <==> result !in {"success", "skip", "error", "timeout", "invalid"}
    {
      if result == SUCCESS || result == SKIP then Some(admitRequests)
      else if result == ERROR || result == TIMEOUT || result == INVALID then Some(rejectRequests)
      else None
    }

    /**
     The select loop receives these messages, in this order (None for nil), and finds the context
     done when they are used up.
     */
    method EvalAndSendNotifications(opts: NotificationValues, arrivals: seq<Option<string>>)
      returns (err: Option<AlertError>)
      requires opts.result == ERROR ==> opts.error.Some?
      modifies this`clusterId, opts`cluster, opts`alertMessage
      ensures clusterId == if old(clusterId) == "" then "not specified" else old(clusterId)
      ensures opts.cluster == clusterId
      ensures Receivers(opts.result).None? ==> err == Some(UnknownResult(opts.result))
      ensures Receivers(opts.result).Some? ==>
                var receivers := Receivers(opts.result).value;
                match Consume(Failures(arrivals), |receivers|)
                case AllReceived => err == None
                case FailedAt(i) => err == Some(SendingFailed(receivers[i].name, arrivals[i].value))
                case LeftAt(i) => err == Some(AlertError.TimedOut(i, |receivers|, Stream(opts.result)))
      ensures Receivers(opts.result).Some? ==> opts.alertMessage == AlertText(opts.result, opts.error, opts.requestId)
    {
      if clusterId == "" {
        clusterId := "not specified";
      }
      opts.cluster := clusterId;
      var receivers: seq<Receiver>, stream;
      if opts.result == SUCCESS || opts.result == SKIP {
        receivers, stream := admitRequests, "admit";
        opts.alertMessage := "CONNAISSEUR admitted a request";
      } else if opts.result == ERROR {
        receivers, stream := rejectRequests, "reject";
        opts.alertMessage := "CONNAISSEUR rejected a request: " + opts.error.value;
      } else if opts.result == TIMEOUT {
        receivers, stream := rejectRequests, "reject";
        opts.alertMessage := "CONNAISSEUR validation timed out for admission request " + opts.requestId;
      } else if opts.result == INVALID {
        receivers, stream := rejectRequests, "reject";
        opts.alertMessage := "CONNAISSEUR failed to parse admission request " + opts.requestId;
      } else {
        return Some(UnknownResult(opts.result));
      }
      err := Await(receivers, arrivals, stream);
    }
  }

  function Stream(result: string): (r: string)
    ensures r == "admit" <==> result in {"success", "skip"}
  {
    if result == SUCCESS || result == SKIP then "admit" else "reject"
  }

  function AlertText(result: string, error: Option<string>, requestId: string): (r: string)
    requires result == ERROR ==> error.Some?
    ensures result == "error" ==> IsSuffix(error.value, r)
    ensures result in {"timeout", "invalid"} ==> IsSuffix(requestId, r)
  {
    if result == SUCCESS || result == SKIP then "CONNAISSEUR admitted a request"
    else if result == ERROR then "CONNAISSEUR rejected a request: " + error.value
    else if result == TIMEOUT then "CONNAISSEUR validation timed out for admission request " + requestId
    else "CONNAISSEUR failed to parse admission request " + requestId
  }

  /** The last loop of EvalAndSendNotifications. */
  method Await(receivers: seq<Receiver>, arrivals: seq<Option<string>>, stream: string)
    returns (err: Option<AlertError>)
    ensures match Consume(Failures(arrivals), |receivers|)
            case AllReceived => err == None
            case FailedAt(i) => err == Some(SendingFailed(receivers[i].name, arrivals[i].value))
            case LeftAt(i) => err == Some(AlertError.TimedOut(i, |receivers|, stream))
  {
    ghost var failing := Failures(arrivals);
    for i := 0 to |receivers|
      invariant i <= |arrivals| && forall j :: 0 <= j < i ==> !failing[j]
    {
      if i == |arrivals| {
        return Some(AlertError.TimedOut(i, |receivers|, stream));
      }
      assert failing[i] <==> arrivals[i].Some?;
      if arrivals[i].Some? {
        return Some(SendingFailed(receivers[i].name, arrivals[i].value));
      }
    }
    return None;
  }

  function Failures(arrivals: seq<Option<string>>): seq<bool> {
    seq(|arrivals|, i requires 0 <= i < |arrivals| => arrivals[i].Some?)
  }

  // ---------- the senders ----------

  /**
   One goroutine per receiver. A receiver that may not fail the request reports nil at once and
   ignores the context; any other reports how sending went, unless the context is done by then.
   outcome says how sending goes for each receiver.
   */
  function SenderSetup(receivers: seq<Receiver>, outcome: seq<Option<string>>): (c: Setup)
    requires |outcome| == |receivers|
    ensures |c.workers| == |receivers| && c.leaves
    ensures forall i :: 0 <= i < |receivers| ==>
                          && (c.workers[i].fails <==> Message(receivers[i], outcome[i]).Some?)
                          && (c.workers[i].cancellable <==> receivers[i].fail)
  {
    Setup(seq(|receivers|, i requires 0 <= i < |receivers| =>
                Worker(receivers[i].fail && outcome[i].Some?, receivers[i].fail)),
          true)
  }

  function Message(r: Receiver, outcome: Option<string>): Option<string> {
    if r.fail then outcome else None
  }

  /**
   One sender from start to end, with both places where it writes to the channel; done says whether
   the request's context is done when the deferred block looks at the context it was given.
   */
  method Send(r: Receiver, outcome: Option<string>, done: bool) returns (sent: seq<Option<string>>)
    ensures |sent| <= 1
    ensures sent == [] <==> r.fail && done
    ensures sent != [] ==> sent[0] == Message(r, outcome)
  {
    sent := [];
    if !r.fail {
      sent := sent + [None];
    }
    var errOut := outcome;
    var contextDone := r.fail && done;
    if contextDone {
      return;
    }
    if r.fail {
      sent := sent + [errOut];
    }
  }

  /** The messages a run of the senders delivered, in order of arrival. */
  function Messages(receivers: seq<Receiver>, outcome: seq<Option<string>>, t: State): seq<Option<string>>
    requires |outcome| == |receivers|
  {
    seq(|t.received|, i requires 0 <= i < |t.received| =>
      var w := t.received[i];
      if w < |receivers| then Message(receivers[w], outcome[w]) else None)
  }

  /** A nil result: every receiver that may fail the request has finished, and without an error. */
  lemma NilMeansDelivered(receivers: seq<Receiver>, outcome: seq<Option<string>>, steps: seq<Step>, t: State)
    requires |outcome| == |receivers|
    requires Reachable(SenderSetup(receivers, outcome), steps, t)
    requires t.collector.Accepted?
    ensures Consume(Failures(Messages(receivers, outcome, t)), |receivers|).AllReceived?
    ensures |t.phase| == |receivers|
    ensures forall i :: 0 <= i < |receivers| && receivers[i].fail ==> outcome[i].None? && t.phase[i].Sent?
  {
    var c := SenderSetup(receivers, outcome);
    LoopMatchesRun(c, steps, t);
    assert Failures(Messages(receivers, outcome, t)) == Delivered(c, t);
    AcceptedMeansAllGood(c, steps, t);
    forall i: nat | i < |receivers| && receivers[i].fail
      ensures outcome[i].None?
    {
      assert !c.workers[i].fails;
    }
  }

  /** An error: the context was cancelled, or a receiver that may fail the request did fail. */
  lemma ErrorHasACause(receivers: seq<Receiver>, outcome: seq<Option<string>>, steps: seq<Step>, t: State)
    requires |outcome| == |receivers|
    requires Reachable(SenderSetup(receivers, outcome), steps, t)
    requires !t.collector.Waiting? && !t.collector.Accepted?
    ensures !Consume(Failures(Messages(receivers, outcome, t)), |receivers|).AllReceived?
    ensures t.cancelled || exists i :: 0 <= i < |receivers| && receivers[i].fail && outcome[i].Some?
  {
    var c := SenderSetup(receivers, outcome);
    LoopMatchesRun(c, steps, t);
    assert Failures(Messages(receivers, outcome, t)) == Delivered(c, t);
    RefusalHasACause(c, steps, t);
  }

  /** Without cancellation the result of a complete run is nil exactly if no such receiver fails. */
  lemma AlertsIgnoreSchedule(receivers: seq<Receiver>, outcome: seq<Option<string>>, steps: seq<Step>, t: State)
    requires |outcome| == |receivers|
    requires Reachable(SenderSetup(receivers, outcome), steps, t)
    requires Terminal(SenderSetup(receivers, outcome), t) && !t.cancelled
    ensures t.collector.Accepted? <==> forall i :: 0 <= i < |receivers| && receivers[i].fail ==> outcome[i].None?
  {
    var c := SenderSetup(receivers, outcome);
    VerdictIgnoresSchedule(c, steps, t);
    assert forall i :: 0 <= i < |receivers| ==> (c.workers[i].fails <==> receivers[i].fail && outcome[i].Some?);
  }

  /**
   The error carries the failing receiver's message but the name of the receiver whose turn it was in
   the loop; this is the failing one exactly if messages had come in the order of the receivers so far.
   */
  lemma NamedReceiver(receivers: seq<Receiver>, outcome: seq<Option<string>>, steps: seq<Step>, t: State)
    requires |outcome| == |receivers| && Reachable(SenderSetup(receivers, outcome), steps, t)
    requires t.collector.Failed?
    requires forall i, j :: 0 <= i < j < |receivers| ==> receivers[i].name != receivers[j].name
    ensures t.collector.worker < |receivers| && 0 < |t.received| <= |receivers|
    ensures
      var w, i := t.collector.worker, |t.received| - 1;
      && Consume(Failures(Messages(receivers, outcome, t)), |receivers|) == FailedAt(i)
      && receivers[w].fail && Messages(receivers, outcome, t)[i] == outcome[w]
      && (receivers[i].name == receivers[w].name <==> t.received[i] == i)
  {
    var c := SenderSetup(receivers, outcome);
    LoopMatchesRun(c, steps, t);
    ReachableInv(c, steps, t);
    assert Failures(Messages(receivers, outcome, t)) == Delivered(c, t);
    assert c.workers[t.collector.worker].fails;
  }

  /** Of two receivers the second fails first, and the error names the first one. */
  lemma WrongReceiverNamed(a: string, b: string, e: string)
    requires a != b
    ensures
      var receivers, outcome := [Receiver(a, true), Receiver(b, true)], [None, Some(e)];
      exists steps, t ::
        && Reachable(SenderSetup(receivers, outcome), steps, t) && t.collector == Failed(1)
        && Consume(Failures(Messages(receivers, outcome, t)), 2) == FailedAt(0)
        && receivers[0].name == a
  {
    var receivers, outcome: seq<Option<string>> := [Receiver(a, true), Receiver(b, true)], [None, Some(e)];
    var c := SenderSetup(receivers, outcome);
    var s1 := Apply(c, Initial(c), Finish(1));
    var s2 := Apply(c, s1, Step.Send(1));
    var t := Apply(c, s2, Receive);
    var steps := [Finish(1), Step.Send(1), Receive];
    assert steps[1..] == [Step.Send(1), Receive] && steps[1..][1..] == [Receive] && steps[1..][1..][1..] == [];
    assert Run(c, t, [], t);
    assert Run(c, s2, [Receive], t);
    assert Run(c, s1, [Step.Send(1), Receive], t);
    assert Reachable(c, steps, t);
    NamedReceiver(receivers, outcome, steps, t);
  }
}
