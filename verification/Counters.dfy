/** The metrics: counters that many requests and many validations increment in any interleaving. */
module Counters {
  import opened Wrappers
  import opened Admission
  import opened Outputs
  import Alert

  // ---------- counting ----------

  function Count<T>(s: seq<T>, p: T -> bool): nat {
    if s == [] then 0 else Count(s[..|s| - 1], p) + if p(s[|s| - 1]) then 1 else 0
  }

  lemma {:induction false} CountUpdate<T>(s: seq<T>, k: nat, x: T, p: T -> bool)
    requires k < |s|
    ensures Count(s[k := x], p) + (if p(s[k]) then 1 else 0) == Count(s, p) + (if p(x) then 1 else 0)
  {
    var last := |s| - 1;
    if k == last {
      assert s[k := x][..last] == s[..last];
    } else {
      assert s[k := x][..last] == s[..last][k := x];
      CountUpdate(s[..last], k, x, p);
    }
  }

  lemma {:induction false} CountZero<T>(s: seq<T>, p: T -> bool)
    ensures Count(s, p) == 0 <==> forall x :: x in s ==> !p(x)
  {
    if s != [] {
      CountZero(s[..|s| - 1], p);
      assert s == s[..|s| - 1] + [s[|s| - 1]];
    }
  }

  // ---------- one request ----------

  /** body: None if it cannot be read. */
  datatype HttpRequest = HttpRequest(verb: string, contentType: string, body: Option<string>)

  /**
   status: the HTTP error a request was rejected with before any decision.
   Aborted: the handler crashed, and the server dropped the connection.
   */
  datatype Decision = Rejected(status: nat) | Admitted | Denied(timeout: bool) | Aborted

  /** json.Unmarshal; the review may lack a request. */
  type ReviewDecoder = string -> Result<Option<Request>>

  /** What precedes the decision, and lets only well-formed reviews through. */
  function Screened(http: HttpRequest, decode: ReviewDecoder): Result<Request> {
    if http.verb == "POST" && http.contentType == "application/json" && http.body.Some?
       && decode(http.body.value).Success? && decode(http.body.value).value.Some?
    then Success(decode(http.body.value).value.value)
    else Failure("rejected")
  }

  datatype AdmissionTotals = AdmissionTotals(received: nat, admitted: nat, deniedInTime: nat, deniedTimeout: nat)

  function Arrived(t: AdmissionTotals): AdmissionTotals {
    t.(received := t.received + 1)
  }

  /** A rejection is not counted again. */
  function Counted(t: AdmissionTotals, d: Decision): AdmissionTotals {
    match d
    case Rejected(_) => t
    case Aborted => t
    case Admitted => t.(admitted := t.admitted + 1)
    case Denied(timeout) =>
      if timeout then t.(deniedTimeout := t.deniedTimeout + 1) else t.(deniedInTime := t.deniedInTime + 1)
  }

  class AdmissionMetrics {
    var received: nat
    var admitted: nat
    var deniedInTime: nat
    var deniedTimeout: nat

    constructor ()
      ensures received == admitted == deniedInTime == deniedTimeout == 0
    {
      received, admitted, deniedInTime, deniedTimeout := 0, 0, 0, 0;
    }

    method IncAdmissionsReceived()
      modifies this`received
      ensures received == old(received) + 1
    {
      received := received + 1;
    }

    method IncAdmissionsAdmitted()
      modifies this`admitted
      ensures admitted == old(admitted) + 1
    {
      admitted := admitted + 1;
    }

    method IncAdmissionsDenied(timeout: bool)
      modifies this`deniedInTime, this`deniedTimeout
      ensures deniedTimeout == old(deniedTimeout) + if timeout then 1 else 0
      ensures deniedInTime == old(deniedInTime) + if timeout then 0 else 1
    {
      if timeout {
        deniedTimeout := deniedTimeout + 1;
      } else {
        deniedInTime := deniedInTime + 1;
      }
    }

    function Totals(): AdmissionTotals
      reads this
    {
      AdmissionTotals(received, admitted, deniedInTime, deniedTimeout)
    }

    /** A whole request: received once, and decided once unless it is rejected or crashes. */
    method Handle(
      http: HttpRequest, decode: ReviewDecoder, arrivals: seq<ValidationOutput>,
      alerting: Alert.Config, alerts: seq<Option<string>>, f: Features, done: bool)
      returns (d: Decision)
      modifies this, alerting
      ensures Totals() == Counted(Arrived(old(Totals())), d)
      ensures received == old(received) + 1
      ensures admitted == old(admitted) + if d.Admitted? then 1 else 0
      ensures deniedTimeout == old(deniedTimeout) + if d == Denied(true) then 1 else 0
      ensures deniedInTime == old(deniedInTime) + if d == Denied(false) then 1 else 0
      ensures http.verb != "POST" || http.contentType != "application/json" || http.body.None? ==> d.Rejected?
      ensures d.Rejected? <==> Screened(http, decode).Failure?
      ensures d.Aborted? <==> Screened(http, decode).Success? && Crashes(Screened(http, decode).value)
      ensures d.Denied? ==> d.timeout == done
      ensures Screened(http, decode).Success? && !Crashes(Screened(http, decode).value) ==>
                var req := Screened(http, decode).value;
                (d.Admitted?
                 <==> PodOnly(req, f) || f.detection || Approved(req, arrivals, |alerting.admitRequests|, alerts))
    {
      IncAdmissionsReceived();
      if http.verb != "POST" {
        return Rejected(405);
      }
      if http.contentType != "application/json" {
        return Rejected(400);
      }
      if http.body.None? {
        return Rejected(500);
      }
      var review := decode(http.body.value);
      if review.Failure? || review.value.None? {
        return Rejected(400);
      }
      var resp := HandleMutate(review.value.value, arrivals, alerting, alerts, f);
      if resp == null {
        return Aborted;
      }
      if resp.allowed {
        IncAdmissionsAdmitted();
        return Admitted;
      }
      IncAdmissionsDenied(done);
      return Denied(done);
    }
  }

  // ---------- many requests ----------

  datatype RequestPhase = NotArrived | InFlight | Over(decision: Decision)

  datatype Requests = Requests(phase: seq<RequestPhase>, totals: AdmissionTotals)

  /** The two points in time at which Handle counts; anything may happen in between. */
  datatype RequestStep = Arrive(r: nat) | Decide(r: nat, decision: Decision)

  predicate CanRequest(s: Requests, step: RequestStep) {
    step.r < |s.phase| && s.phase[step.r] == if step.Arrive? then NotArrived else InFlight
  }

  function AfterRequest(s: Requests, step: RequestStep): Requests
    requires CanRequest(s, step)
  {
    match step
    case Arrive(r) => Requests(s.phase[r := InFlight], Arrived(s.totals))
    case Decide(r, d) => Requests(s.phase[r := Over(d)], Counted(s.totals, d))
  }

  ghost predicate RequestRun(s: Requests, steps: seq<RequestStep>, t: Requests)
    decreases |steps|
  {
    if steps == [] then s == t
    else CanRequest(s, steps[0]) && RequestRun(AfterRequest(s, steps[0]), steps[1..], t)
  }

  function RejectedEarly(s: Requests): nat {
    Count(s.phase, (p: RequestPhase) => p.Over? && p.decision.Rejected?)
  }

  function Dropped(s: Requests): nat {
    Count(s.phase, (p: RequestPhase) => p.Over? && p.decision.Aborted?)
  }

  function Flying(s: Requests): nat {
    Count(s.phase, (p: RequestPhase) => p.InFlight?)
  }

  predicate RequestsBalance(s: Requests) {
    var c := s.totals;
    c.received == c.admitted + c.deniedInTime + c.deniedTimeout + RejectedEarly(s) + Dropped(s) + Flying(s)
  }

  lemma {:induction false} BalanceKept(s: Requests, steps: seq<RequestStep>, t: Requests)
    requires RequestsBalance(s) && RequestRun(s, steps, t)
    ensures RequestsBalance(t)
    decreases |steps|
  {
    if steps != [] {
      var next := AfterRequest(s, steps[0]);
      var r := steps[0].r;
      CountUpdate(s.phase, r, next.phase[r], (p: RequestPhase) => p.Over? && p.decision.Rejected?);
      CountUpdate(s.phase, r, next.phase[r], (p: RequestPhase) => p.Over? && p.decision.Aborted?);
      CountUpdate(s.phase, r, next.phase[r], (p: RequestPhase) => p.InFlight?);
      BalanceKept(next, steps[1..], t);
    }
  }

  /**
   At any moment every request received is admitted, denied, rejected early, crashed, or in flight. So
   the first three and those in flight add up to the received ones exactly as long as none has crashed.
   */
  lemma EveryRequestIsAccountedFor(n: nat, steps: seq<RequestStep>, t: Requests)
    requires RequestRun(Requests(seq(n, _ => NotArrived), AdmissionTotals(0, 0, 0, 0)), steps, t)
    ensures RequestsBalance(t)
    ensures
      var c := t.totals;
      c.received == c.admitted + c.deniedInTime + c.deniedTimeout + RejectedEarly(t) + Flying(t)
      <==> forall p :: p in t.phase ==> p != Over(Aborted)
  {
    var s := Requests(seq(n, _ => NotArrived), AdmissionTotals(0, 0, 0, 0));
    CountZero(s.phase, (p: RequestPhase) => p.Over? && p.decision.Rejected?);
    CountZero(s.phase, (p: RequestPhase) => p.Over? && p.decision.Aborted?);
    CountZero(s.phase, (p: RequestPhase) => p.InFlight?);
    BalanceKept(s, steps, t);
    CountZero(t.phase, (p: RequestPhase) => p.Over? && p.decision.Aborted?);
  }

  // ---------- many validations ----------

  datatype Label = Label(vtype: string, name: string)

  datatype Outcome = Successful | Failed | TimedOut

  /** What is counted for one label; the total is kept per result, success or error. */
  datatype LabelTotals = LabelTotals(success: nat, error: nat, successful: nat, failed: nat, timedOut: nat)

  function TotalsOf(m: map<Label, LabelTotals>, l: Label): LabelTotals {
    if l in m then m[l] else LabelTotals(0, 0, 0, 0, 0)
  }

  /** The first of the two increments of an outcome. */
  function CountTotal(m: map<Label, LabelTotals>, l: Label, o: Outcome): map<Label, LabelTotals> {
    var t := TotalsOf(m, l);
    m[l := if o.Successful? then t.(success := t.success + 1) else t.(error := t.error + 1)]
  }

  /** The second. */
  function CountOutcome(m: map<Label, LabelTotals>, l: Label, o: Outcome): map<Label, LabelTotals> {
    var t := TotalsOf(m, l);
    m[l := match o
           case Successful => t.(successful := t.successful + 1)
           case Failed => t.(failed := t.failed + 1)
           case TimedOut => t.(timedOut := t.timedOut + 1)]
  }

  class ValidationMetrics {
    var totals: map<Label, LabelTotals>

    constructor ()
      ensures totals == map[]
    {
      totals := map[];
    }

    /** The counters of the deferred block of ValidateImage: exactly one outcome, counted twice. */
    method Report(l: Label, done: bool, error: Option<string>)
      modifies this
      ensures
        var o := if done then TimedOut else if error.None? then Successful else Failed;
        totals == CountOutcome(CountTotal(old(totals), l, o), l, o)
      ensures
        var was, now := TotalsOf(old(totals), l), TotalsOf(totals, l);
        && now.success + now.error == was.success + was.error + 1
        && now.success - was.success == now.successful - was.successful == (if !done && error.None? then 1 else 0)
        && now.failed - was.failed == (if !done && error.Some? then 1 else 0)
        && now.timedOut - was.timedOut == (if done then 1 else 0)
      ensures forall other :: other != l ==> TotalsOf(totals, other) == TotalsOf(old(totals), other)
    {
      if done {
        IncValidationsTimeouted(l);
      } else if error.None? {
        IncValidationsSuccessful(l);
      } else {
        IncValidationsFailed(l);
      }
    }

    method IncValidationsSuccessful(l: Label)
      modifies this
      ensures totals == CountOutcome(CountTotal(old(totals), l, Successful), l, Successful)
    {
      var t := TotalsOf(totals, l);
      totals := totals[l := t.(success := t.success + 1)];
      t := TotalsOf(totals, l);
      totals := totals[l := t.(successful := t.successful + 1)];
    }

    method IncValidationsFailed(l: Label)
      modifies this
      ensures totals == CountOutcome(CountTotal(old(totals), l, Failed), l, Failed)
    {
      var t := TotalsOf(totals, l);
      totals := totals[l := t.(error := t.error + 1)];
      t := TotalsOf(totals, l);
      totals := totals[l := t.(failed := t.failed + 1)];
    }

    method IncValidationsTimeouted(l: Label)
      modifies this
      ensures totals == CountOutcome(CountTotal(old(totals), l, TimedOut), l, TimedOut)
    {
      var t := TotalsOf(totals, l);
      totals := totals[l := t.(error := t.error + 1)];
      t := TotalsOf(totals, l);
      totals := totals[l := t.(timedOut := t.timedOut + 1)];
    }
  }

  /** Half: the total is incremented, the counter of the outcome is not yet. */
  datatype ValidationPhase = Running | Half(series: Label, outcome: Outcome) | Reported

  datatype Validations = Validations(phase: seq<ValidationPhase>, totals: map<Label, LabelTotals>)

  datatype ValidationStep = First(v: nat, series: Label, outcome: Outcome) | Second(v: nat)

  predicate CanReport(s: Validations, step: ValidationStep) {
    step.v < |s.phase| && if step.First? then s.phase[step.v].Running? else s.phase[step.v].Half?
  }

  function AfterReport(s: Validations, step: ValidationStep): Validations
    requires CanReport(s, step)
  {
    match step
    case First(v, l, o) => Validations(s.phase[v := Half(l, o)], CountTotal(s.totals, l, o))
    case Second(v) => Validations(s.phase[v := Reported], CountOutcome(s.totals, s.phase[v].series, s.phase[v].outcome))
  }

  ghost predicate ReportRun(s: Validations, steps: seq<ValidationStep>, t: Validations)
    decreases |steps|
  {
    if steps == [] then s == t
    else CanReport(s, steps[0]) && ReportRun(AfterReport(s, steps[0]), steps[1..], t)
  }

  function HalfOf(l: Label, good: bool): ValidationPhase -> bool {
    (p: ValidationPhase) => p.Half? && p.series == l && p.outcome.Successful? == good
  }

  /** Validations of a label that stand between the two increments. */
  function Between(s: Validations, l: Label, good: bool): nat {
    Count(s.phase, HalfOf(l, good))
  }

  predicate LabelBalance(s: Validations, l: Label) {
    var t := TotalsOf(s.totals, l);
    t.success == t.successful + Between(s, l, true) && t.error == t.failed + t.timedOut + Between(s, l, false)
  }

  lemma {:induction false} LabelBalanceKept(s: Validations, steps: seq<ValidationStep>, t: Validations, l: Label)
    requires LabelBalance(s, l) && ReportRun(s, steps, t)
    ensures LabelBalance(t, l)
    decreases |steps|
  {
    if steps != [] {
      var next := AfterReport(s, steps[0]);
      var v := steps[0].v;
      CountUpdate(s.phase, v, next.phase[v], HalfOf(l, true));
      CountUpdate(s.phase, v, next.phase[v], HalfOf(l, false));
      LabelBalanceKept(next, steps[1..], t, l);
    }
  }

  /**
   For each label, at any moment: the successes counted in the total are the successful validations,
   and the errors are the failed and the timed out ones, up to those that stand between their increments.
   */
  lemma TotalsAreSums(n: nat, steps: seq<ValidationStep>, t: Validations, l: Label)
    requires ReportRun(Validations(seq(n, _ => Running), map[]), steps, t)
    ensures
      var c := TotalsOf(t.totals, l);
      && c.successful <= c.success && c.failed + c.timedOut <= c.error
      && c.success + c.error == c.successful + c.failed + c.timedOut + Between(t, l, true) + Between(t, l, false)
      && ((forall p :: p in t.phase ==> !p.Half?) ==> c.success == c.successful && c.error == c.failed + c.timedOut)
  {
    var s := Validations(seq(n, _ => Running), map[]);
    CountZero(s.phase, HalfOf(l, true));
    CountZero(s.phase, HalfOf(l, false));
    LabelBalanceKept(s, steps, t, l);
    if forall p :: p in t.phase ==> !p.Half? {
      CountZero(t.phase, HalfOf(l, true));
      CountZero(t.phase, HalfOf(l, false));
    }
  }
}
