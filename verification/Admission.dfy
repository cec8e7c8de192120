/** The admission handler: from a review request to the response the API server gets. */
module Admission {
  import opened Wrappers
  import opened Distinct
  import opened JsonTree
  import opened Workload
  import opened Outputs
  import opened Patch
  import opened FanOut
  import opened GoStrings
  import Alert

  datatype Request = Request(
    uid: string,
    kind: string,
    update: bool,
    raw: Json,
    oldRaw: Json)

  /** Crashed: reading one of the objects never returns. */
  datatype Reading =
    | Objects(newObj: WorkloadObject, oldObj: WorkloadObject)
    | Unreadable(error: string)
    | Crashed

  const NO_OBJECT := WorkloadObject("", [], [], [], false)

  /** NewAdmissionRequestObjects: the old object matters for updates only. */
  function ObjectsOf(req: Request): Reading {
    var previous := if req.update then Decode(req.oldRaw, req.kind) else Decoded(NO_OBJECT);
    match previous
    case Refused(e) => Unreadable("error decoding old workload object: " + e)
    case Crashed => Reading.Crashed
    case Decoded(o) =>
      match Decode(req.raw, req.kind)
      case Refused(e) => Unreadable("error decoding new workload object: " + e)
      case Crashed => Reading.Crashed
      case Decoded(n) => Objects(n, o)
  }

  /** Both objects come from their own field; without an update there is no old one, and no mark. */
  lemma ObjectsExactly(req: Request)
    ensures ObjectsOf(req).Objects?
       <==> Decode(req.raw, req.kind).Decoded? && (req.update ==> Decode(req.oldRaw, req.kind).Decoded?)
    ensures ObjectsOf(req).Objects? ==>
              && Decode(req.raw, req.kind) == Decoded(ObjectsOf(req).newObj)
              && (req.update ==> Decode(req.oldRaw, req.kind) == Decoded(ObjectsOf(req).oldObj))
              && (!req.update ==> ObjectsOf(req).oldObj.Images() == [] && !ObjectsOf(req).oldObj.deleted)
  {
  }

  /**
   A readable request is answered without validation exactly if it updates an object that is marked for
   deletion; so every creation, and every update of any other object, is reviewed.
   */
  lemma ReviewedExactly(req: Request)
    requires ObjectsOf(req).Objects?
    ensures Reviewed(req) <==> !(req.update && MarkedForDeletion(req.oldRaw))
    ensures AnsweredEarly(req) <==> !Reviewed(req)
  {
    if req.update {
      DeletedExactly(req.oldRaw, req.kind, ObjectsOf(req).oldObj);
    }
  }

  /** The handler does not survive the request, so nobody gets an answer. */
  predicate Crashes(req: Request) {
    ObjectsOf(req).Crashed?
  }

  /** The creation of a replication controller without a template is never answered. */
  lemma EmptyControllerIsNotAnswered(req: Request)
    requires !req.update && req.kind == "ReplicationController" && req.raw == Obj(map["spec" := Obj(map[])])
    ensures Crashes(req)
  {
    EmptyControllerCrashes();
  }

  /** Exactly if the old object crashes on an update, or the new one does and the old one can be read. */
  lemma CrashesExactlyOn(req: Request)
    ensures Crashes(req)
       <==> || (req.update && Decode(req.oldRaw, req.kind).Crashed?)
            || ((req.update ==> Decode(req.oldRaw, req.kind).Decoded?) && Decode(req.raw, req.kind).Crashed?)
  {
  }

  class AdmissionResponse {
    const uid: string
    var allowed: bool
    var result: Option<string>
    var patch: Option<seq<Op>>
    var warnings: seq<string>

    constructor (uid: string, allowed: bool, result: Option<string>)
      ensures this.uid == uid && this.allowed == allowed && this.result == result
      ensures patch.None? && warnings == []
    {
      this.uid := uid;
      this.allowed := allowed;
      this.result := result;
      this.patch := None;
      this.warnings := [];
    }

    /** A denial says why, and offers nothing to change. */
    predicate Explained()
      reads this
    {
      !allowed ==> result.Some? && patch.None?
    }
  }

  function Decimal(n: nat): string {
    var digit := [('0' as int + n % 10) as char];
    if n < 10 then digit else Decimal(n / 10) + digit
  }

  /** Reading the digits back gives the number. */
  function ReadDecimal(s: string): int {
    if s == "" then 0 else 10 * ReadDecimal(s[..|s| - 1]) + (s[|s| - 1] as int - '0' as int)
  }

  lemma {:induction false} DecimalReadsBack(n: nat)
    ensures ReadDecimal(Decimal(n)) == n
    ensures forall i :: 0 <= i < |Decimal(n)| ==> '0' <= Decimal(n)[i] <= '9'
  {
    if n >= 10 {
      DecimalReadsBack(n / 10);
      assert Decimal(n)[..|Decimal(n)| - 1] == Decimal(n / 10);
    } else {
      assert Decimal(n)[..0] == "";
    }
  }

  function TimeoutText(uid: string, i: nat, n: nat): (r: string)
    ensures IsSuffix(Decimal(i) + "/" + Decimal(n) + " images", r)
  {
    "validation of admission request " + uid
    + " timed out after validating " + Decimal(i) + "/" + Decimal(n) + " images"
  }

  function Errors(arrivals: seq<ValidationOutput>): seq<bool> {
    seq(|arrivals|, i requires 0 <= i < |arrivals| => arrivals[i].error.Some?)
  }

  /** Requests that are answered without validating any image. */
  predicate AnsweredEarly(req: Request) {
    ObjectsOf(req).Unreadable? || (ObjectsOf(req).Objects? && ObjectsOf(req).oldObj.deleted)
  }

  /** Requests whose images are validated. */
  predicate Reviewed(req: Request) {
    ObjectsOf(req).Objects? && !ObjectsOf(req).oldObj.deleted
  }

  /** How many goroutines validate, and how many results are awaited. */
  function Awaited(req: Request): nat
    requires Reviewed(req)
  {
    |Elements(ObjectsOf(req).newObj.Images())|
  }

  function NonEmpty<T>(s: seq<T>): (r: Option<seq<T>>)
    ensures r.None? <==> s == []
    ensures r.Some? ==> r.value == s
  {
    if s == [] then None else Some(s)
  }

  /**
   The select loop receives these results, in this order, and finds the context done when they are
   used up. There is no response exactly if reading the objects crashes.
   */
  method MutateReview(req: Request, arrivals: seq<ValidationOutput>)
    returns (resp: AdmissionResponse?, note: Alert.NotificationValues)
    ensures resp == null <==> Crashes(req)
    ensures fresh(note) && note.requestId == req.uid
    ensures resp != null ==> fresh(resp) && resp.uid == req.uid && resp.Explained() && resp.warnings == []
    ensures note.result == Alert.ERROR ==> note.error.Some?
    ensures ObjectsOf(req).Unreadable? ==>
              resp != null && !resp.allowed && resp.result == Some(ObjectsOf(req).error) && note.result == Alert.INVALID
    ensures ObjectsOf(req).Objects? && AnsweredEarly(req) ==>
              resp != null && resp.allowed && resp.patch == None && note.result == Alert.SUCCESS
    ensures Reviewed(req) ==>
              var n := Awaited(req);
              resp != null &&
              match Consume(Errors(arrivals), n)
              case AllReceived =>
                && resp.allowed && resp.patch == NonEmpty(PatchOps(arrivals[..n], req.kind))
                && note.images == PatchedImages(arrivals[..n])
                && note.result == if forall o :: o in arrivals[..n] ==> o.skipped then Alert.SKIP else Alert.SUCCESS
              case FailedAt(i) =>
                && !resp.allowed && resp.result == arrivals[i].error
                && note.result == Alert.ERROR && note.error == arrivals[i].error
                && note.images == [arrivals[i].rawImage]
              case LeftAt(i) =>
                && !resp.allowed && resp.result == Some(TimeoutText(req.uid, i, n)) && note.result == Alert.TIMEOUT
  {
    note := new Alert.NotificationValues(req.uid);
    var aro := ObjectsOf(req);
    if aro.Crashed? {
      return null, note;
    }
    if aro.Unreadable? {
      note.result := Alert.INVALID;
      resp := new AdmissionResponse(req.uid, false, Some(aro.error));
      return;
    }
    if aro.oldObj.deleted {
      note.result := Alert.SUCCESS;
      resp := new AdmissionResponse(req.uid, true, None);
      return;
    }
    resp := Review(req.uid, aro.newObj, arrivals, note);
  }

  /** The rest of MutateReview, for a valid object that is to be validated. */
  method Review(uid: string, w: WorkloadObject, arrivals: seq<ValidationOutput>, note: Alert.NotificationValues)
    returns (resp: AdmissionResponse)
    requires note.error.None?
    modifies note
    ensures fresh(resp) && resp.uid == uid && resp.Explained() && resp.warnings == []
    ensures note.result == Alert.ERROR ==> note.error.Some?
    ensures
      var n := |Elements(w.Images())|;
      match Consume(Errors(arrivals), n)
      case AllReceived =>
        && resp.allowed && resp.patch == NonEmpty(PatchOps(arrivals[..n], w.kind))
        && note.images == PatchedImages(arrivals[..n])
        && note.result == if forall o :: o in arrivals[..n] ==> o.skipped then Alert.SKIP else Alert.SUCCESS
      case FailedAt(i) =>
        && !resp.allowed && resp.result == arrivals[i].error
        && note.result == Alert.ERROR && note.error == arrivals[i].error && note.images == [arrivals[i].rawImage]
      case LeftAt(i) =>
        !resp.allowed && resp.result == Some(TimeoutText(uid, i, n)) && note.result == Alert.TIMEOUT
  {
    var containers := ConsolidatedContainers(w);
    var capacity := |containers.Keys|;
    var results, stopped := Collect(uid, arrivals, capacity, note);
    if stopped.Some? {
      resp := new AdmissionResponse(uid, false, stopped);
      return;
    }
    resp := Admit(uid, results, w.kind, note);
  }

  /** The response once all images are validated. */
  method Admit(uid: string, results: seq<ValidationOutput>, kind: string, note: Alert.NotificationValues)
    returns (resp: AdmissionResponse)
    modifies note
    ensures fresh(resp) && resp.uid == uid && resp.warnings == []
    ensures resp.allowed && resp.patch == NonEmpty(PatchOps(results, kind))
    ensures note.images == PatchedImages(results) && note.error == old(note.error)
    ensures note.result == if forall o :: o in results ==> o.skipped then Alert.SKIP else Alert.SUCCESS
  {
    var jsonPatches, images, skipped := BuildPatch(results, kind);
    resp := new AdmissionResponse(uid, true, None);
    if |jsonPatches| > 0 {
      resp.patch := Some(jsonPatches);
    }
    note.images := images;
    note.result := if skipped then Alert.SKIP else Alert.SUCCESS;
  }

  /** The receive loop: all results, or the message of the denial. */
  method Collect(uid: string, arrivals: seq<ValidationOutput>, capacity: nat, note: Alert.NotificationValues)
    returns (results: seq<ValidationOutput>, stopped: Option<string>)
    modifies note
    ensures match Consume(Errors(arrivals), capacity)
            case AllReceived => stopped == None && results == arrivals[..capacity]
            case FailedAt(i) =>
              && stopped == arrivals[i].error && note.result == Alert.ERROR
              && note.error == arrivals[i].error && note.images == [arrivals[i].rawImage]
            case LeftAt(i) => stopped == Some(TimeoutText(uid, i, capacity)) && note.result == Alert.TIMEOUT
  {
    ghost var failing := Errors(arrivals);
    results := [];
    for i := 0 to capacity
      invariant i <= |arrivals| && results == arrivals[..i]
      invariant forall j :: 0 <= j < i ==> !failing[j]
    {
      if i == |arrivals| {
        note.result := Alert.TIMEOUT;
        return results, Some(TimeoutText(uid, i, capacity));
      }
      var valOut := arrivals[i];
      assert failing[i] <==> valOut.error.Some?;
      if valOut.error.Some? {
        note.result := Alert.ERROR;
        note.error := valOut.error;
        note.images := [valOut.rawImage];
        return results, valOut.error;
      }
      results := results + [valOut];
    }
    return results, None;
  }

  // ---------- the response that is sent ----------

  /** blockAll: resource validation mode "all". detection: detection mode is on. */
  datatype Features = Features(blockAll: bool, detection: bool)

  function AlertMessage(err: Alert.AlertError): string {
    " error sending notifications: "
    + match err
      case UnknownResult(r) => "unknown result type for alerting: " + r
      case SendingFailed(r, cause) =>
        "failed sending a notification for receiver " + r + " with FailOnError set: " + cause
      case TimedOut(i, n, stream) =>
        "timeout during handling of receiver " + Decimal(i) + "/" + Decimal(n) + " of " + stream + " alerts"
  }

  predicate PodOnly(req: Request, f: Features) {
    req.kind != "Pod" && !f.blockAll
  }

  /** Alert failures and features are laid over the decision; every message read is there. */
  method Overlay(req: Request, resp: AdmissionResponse, alertErr: Option<Alert.AlertError>, f: Features)
    requires !resp.allowed ==> resp.result.Some?
    modifies resp
    ensures resp.allowed <==> (old(resp.allowed) && alertErr.None?) || PodOnly(req, f) || f.detection
    ensures resp.result == if alertErr.Some? then Some(AlertMessage(alertErr.value)) else old(resp.result)
    ensures resp.patch == if PodOnly(req, f) then None else old(resp.patch)
    ensures old(resp.allowed) && alertErr.None? ==> resp.warnings == old(resp.warnings)
    ensures !(old(resp.allowed) && alertErr.None?) && resp.allowed ==>
              resp.warnings == [if PodOnly(req, f) then "pod-only validation active" else "detection mode active",
                                resp.result.value]
  {
    if alertErr.Some? {
      resp.allowed := false;
      resp.result := Some(AlertMessage(alertErr.value));
    }
    if req.kind != "Pod" && !f.blockAll {
      if !resp.allowed {
        resp.warnings := ["pod-only validation active", resp.result.value];
      }
      resp.allowed := true;
      resp.patch := None;
    }
    if f.detection && !resp.allowed {
      resp.warnings := ["detection mode active", resp.result.value];
      resp.allowed := true;
    }
  }

  /** All images were heard of, and none was refused. */
  predicate AllValidated(req: Request, arrivals: seq<ValidationOutput>) {
    Reviewed(req) ==> Consume(Errors(arrivals), Awaited(req)).AllReceived?
  }

  /** The object is valid, all results are in and good, and no receiver of admissions failed in time. */
  predicate Approved(req: Request, arrivals: seq<ValidationOutput>, receivers: nat, alerts: seq<Option<string>>) {
    && ObjectsOf(req).Objects? && AllValidated(req, arrivals)
    && Consume(Alert.Failures(alerts), receivers).AllReceived?
  }

  /** The handler once the request has been read; no response exactly if it crashes. */
  method HandleMutate(
    req: Request, arrivals: seq<ValidationOutput>,
    alerting: Alert.Config, alerts: seq<Option<string>>, f: Features)
    returns (resp: AdmissionResponse?)
    modifies alerting
    ensures resp == null <==> Crashes(req)
    ensures Crashes(req) ==> alerting.clusterId == old(alerting.clusterId)
    ensures resp != null ==> fresh(resp)
    ensures resp != null && resp.patch.Some? ==>
              && Reviewed(req) && AllValidated(req, arrivals) && !PodOnly(req, f)
              && resp.patch.value == PatchOps(arrivals[..Awaited(req)], req.kind)
    ensures resp != null && resp.patch.None? && Reviewed(req) && AllValidated(req, arrivals) && !PodOnly(req, f) ==>
              PatchOps(arrivals[..Awaited(req)], req.kind) == []
    ensures resp != null && resp.patch.Some? ==> resp.patch.value != []
    ensures resp != null && !resp.allowed ==> resp.result.Some? && !PodOnly(req, f) && !f.detection
    ensures resp != null && req.kind != "Pod" && !f.blockAll ==> resp.allowed && resp.patch.None?
    ensures resp != null && (req.kind == "Pod" || f.blockAll) ==>
              (resp.allowed <==> f.detection || Approved(req, arrivals, |alerting.admitRequests|, alerts))
    ensures resp != null ==>
              (resp.allowed
               <==> PodOnly(req, f) || f.detection || Approved(req, arrivals, |alerting.admitRequests|, alerts))
    ensures resp != null && alerting.admitRequests == [] == alerting.rejectRequests ==>
              (resp.allowed
               <==> PodOnly(req, f) || f.detection || (ObjectsOf(req).Objects? && AllValidated(req, arrivals)))
  {
    var note;
    resp, note := MutateReview(req, arrivals);
    if resp == null {
      return;
    }
    var err := alerting.EvalAndSendNotifications(note, alerts);
    Overlay(req, resp, err, f);
  }

  // ---------- every schedule of the goroutines ----------

  /** One goroutine per image, in the order the map happens to be iterated; out is what each finds. */
  function GateSetup(order: seq<string>, out: string -> ValidationOutput): (c: Setup)
    ensures |c.workers| == |order| && c.leaves
    ensures forall i :: 0 <= i < |order| ==> c.workers[i] == Worker(out(order[i]).error.Some?, true)
  {
    Setup(seq(|order|, i requires 0 <= i < |order| => Worker(out(order[i]).error.Some?, true)), true)
  }

  /** The images whose results a run delivered, in order of arrival. */
  function ArrivalOrder(order: seq<string>, t: State): seq<string> {
    seq(|t.received|, i requires 0 <= i < |t.received| =>
      if t.received[i] < |order| then order[t.received[i]] else "")
  }

  ghost predicate Enumerates(order: seq<string>, w: WorkloadObject) {
    NoDup(order) && forall image :: image in order <==> image in w.Images()
  }

  /** The loop decides what the run decided. */
  lemma GateDecision(order: seq<string>, out: string -> ValidationOutput, steps: seq<FanOut.Step>, t: State)
    requires Reachable(GateSetup(order, out), steps, t) && !t.collector.Waiting?
    ensures Consume(Errors(ResultsOf(ArrivalOrder(order, t), out)), |order|).AllReceived? <==> t.collector.Accepted?
  {
    var c := GateSetup(order, out);
    LoopMatchesRun(c, steps, t);
    ReachableInv(c, steps, t);
    assert forall i :: 0 <= i < |t.received| ==> t.received[i] in t.received + t.channel;
    assert Errors(ResultsOf(ArrivalOrder(order, t), out)) == Delivered(c, t);
  }

  /**
   The review of a request whose goroutines ran like this: allowed exactly if the run was accepted,
   and then the patch, if there is any, makes the rewritten object of the one that was sent.
   */
  method MutateReviewOfRun(
    req: Request, order: seq<string>, out: string -> ValidationOutput, ghost steps: seq<FanOut.Step>, t: State)
    returns (resp: AdmissionResponse)
    requires Reviewed(req) && Enumerates(order, ObjectsOf(req).newObj)
    requires Faithful(req, out)
    requires Reachable(GateSetup(order, out), steps, t) && !t.collector.Waiting?
    ensures resp.allowed <==> t.collector.Accepted?
    ensures resp.allowed ==>
              var ops := if resp.patch.Some? then resp.patch.value else [];
              ApplyOps(req.raw, ops) == Some(Rewritten(req.raw, req.kind, out))
    ensures !resp.allowed ==> resp.result.Some? && resp.patch.None?
  {
    var arrivals := ResultsOf(ArrivalOrder(order, t), out);
    RunReceived(req, order, out, steps, t);
    var answer, note := MutateReview(req, arrivals);
    resp := answer;
  }

  /** What a run of the goroutines hands to the handler. */
  lemma RunReceived(
    req: Request, order: seq<string>, out: string -> ValidationOutput, steps: seq<FanOut.Step>, t: State)
    requires Reviewed(req) && Enumerates(order, ObjectsOf(req).newObj) && Faithful(req, out)
    requires Reachable(GateSetup(order, out), steps, t) && !t.collector.Waiting?
    ensures
      var arrivals := ResultsOf(ArrivalOrder(order, t), out);
      && (t.collector.Accepted? <==> AllValidated(req, arrivals))
      && (t.collector.Accepted? ==>
            ApplyOps(req.raw, PatchOps(arrivals[..Awaited(req)], req.kind)) == Some(Rewritten(req.raw, req.kind, out)))
  {
    var arrivals := ResultsOf(ArrivalOrder(order, t), out);
    GateDecision(order, out, steps, t);
    AwaitedIsOrder(req, order);
    if t.collector.Accepted? {
      ArrivalsComplete(order, out, steps, t);
      assert arrivals[..|order|] == arrivals;
      AdmittedMeansValidated(req.raw, ObjectsOf(req).newObj, order, out, steps, t);
    }
  }

  /** The receivers of the alerts after a gate run. */
  function ToldAfter(gate: State, alerting: Alert.Config): seq<Alert.Receiver> {
    if gate.collector.Accepted? then alerting.admitRequests else alerting.rejectRequests
  }

  /**
   The handler of a request whose validations and alerts ran like this, with any schedule and any
   cancellation: it admits in pod-only and detection mode, and else exactly if both runs were accepted.
   */
  method HandleRun(
    req: Request, order: seq<string>, out: string -> ValidationOutput, ghost steps: seq<FanOut.Step>, gate: State,
    alerting: Alert.Config, outcome: seq<Option<string>>, ghost alertSteps: seq<FanOut.Step>, alert: State, f: Features)
    returns (resp: AdmissionResponse)
    requires Reviewed(req) && Enumerates(order, ObjectsOf(req).newObj) && Faithful(req, out)
    requires Reachable(GateSetup(order, out), steps, gate) && !gate.collector.Waiting?
    requires |outcome| == |ToldAfter(gate, alerting)|
    requires Reachable(Alert.SenderSetup(ToldAfter(gate, alerting), outcome), alertSteps, alert)
    requires !alert.collector.Waiting?
    modifies alerting
    ensures resp.allowed <==> PodOnly(req, f) || f.detection || (gate.collector.Accepted? && alert.collector.Accepted?)
    ensures resp.patch.Some? ==>
              && gate.collector.Accepted? && !PodOnly(req, f)
              && ApplyOps(req.raw, resp.patch.value) == Some(Rewritten(req.raw, req.kind, out))
    ensures resp.patch.None? && gate.collector.Accepted? && !PodOnly(req, f) ==>
              Rewritten(req.raw, req.kind, out) == req.raw
  {
    var receivers := ToldAfter(gate, alerting);
    var arrivals := ResultsOf(ArrivalOrder(order, gate), out);
    var alerts := Alert.Messages(receivers, outcome, alert);
    RunReceived(req, order, out, steps, gate);
    if alert.collector.Accepted? {
      Alert.NilMeansDelivered(receivers, outcome, alertSteps, alert);
    } else {
      Alert.ErrorHasACause(receivers, outcome, alertSteps, alert);
    }
    var answer := HandleMutate(req, arrivals, alerting, alerts, f);
    resp := answer;
  }

  /** Each result is about its image, and an image without a name is refused. */
  ghost predicate Faithful(req: Request, out: string -> ValidationOutput)
    requires Reviewed(req)
  {
    var w := ObjectsOf(req).newObj;
    ReportsFor(w, out) && ("" in w.Images() ==> out("").error.Some?)
  }

  lemma AwaitedIsOrder(req: Request, order: seq<string>)
    requires Reviewed(req) && Enumerates(order, ObjectsOf(req).newObj)
    ensures Awaited(req) == |order|
    ensures ObjectsOf(req).newObj.kind == req.kind
    ensures Decode(req.raw, req.kind) == Decoded(ObjectsOf(req).newObj)
  {
    NoDupSize(order);
    assert Elements(order) == Elements(ObjectsOf(req).newObj.Images());
  }

  lemma ArrivalsComplete(order: seq<string>, out: string -> ValidationOutput, steps: seq<FanOut.Step>, t: State)
    requires Reachable(GateSetup(order, out), steps, t) && t.collector.Accepted?
    ensures |ArrivalOrder(order, t)| == |order|
    ensures forall image :: image in ArrivalOrder(order, t) <==> image in order
    ensures forall image :: image in order ==> out(image).error.None?
  {
    var c, arrived := GateSetup(order, out), ArrivalOrder(order, t);
    AcceptedMeansAllGood(c, steps, t);
    forall image | image in order
      ensures image in arrived && out(image).error.None?
    {
      var w: nat :| w < |order| && order[w] == image;
      assert w in t.received && !c.workers[w].fails;
      var i :| 0 <= i < |t.received| && t.received[i] == w;
      assert arrived[i] == image;
    }
    assert forall i :: 0 <= i < |t.received| ==> t.received[i] in t.received;
  }

  /**
   In any run that is admitted, at any order of goroutines, arrivals and cancellation, the image of
   every container was validated without error, and the patch turns the object into the rewritten one.
   */
  lemma AdmittedMeansValidated(
    raw: Json, w: WorkloadObject, order: seq<string>, out: string -> ValidationOutput,
    steps: seq<FanOut.Step>, t: State)
    requires Decode(raw, w.kind) == Decoded(w) && Enumerates(order, w)
    requires ReportsFor(w, out) && ("" in w.Images() ==> out("").error.Some?)
    requires Reachable(GateSetup(order, out), steps, t) && t.collector.Accepted?
    ensures forall p :: w.Has(p) ==> out(w.ImageAt(p)).error.None?
    ensures ApplyOps(raw, PatchOps(ResultsOf(ArrivalOrder(order, t), out), w.kind)) == Some(Rewritten(raw, w.kind, out))
  {
    ArrivalsComplete(order, out, steps, t);
    forall p | w.Has(p)
      ensures out(w.ImageAt(p)).error.None?
    {
      assert w.ImageAt(p) in w.List(p.kind);
      assert w.ImageAt(p) in w.Images();
    }
    PatchIsRewrite(raw, w, ArrivalOrder(order, t), out);
  }

  /** Two complete runs without cancellation agree on the verdict and on the patched object. */
  lemma VerdictAndPatchIgnoreSchedule(
    raw: Json, w: WorkloadObject, out: string -> ValidationOutput,
    order: seq<string>, steps: seq<FanOut.Step>, t: State,
    order': seq<string>, steps': seq<FanOut.Step>, t': State)
    requires Decode(raw, w.kind) == Decoded(w) && Enumerates(order, w) && Enumerates(order', w)
    requires ReportsFor(w, out) && ("" in w.Images() ==> out("").error.Some?)
    requires Reachable(GateSetup(order, out), steps, t) && Terminal(GateSetup(order, out), t) && !t.cancelled
    requires Reachable(GateSetup(order', out), steps', t') && Terminal(GateSetup(order', out), t') && !t'.cancelled
    ensures t.collector.Accepted? <==> t'.collector.Accepted?
    ensures t.collector.Accepted? <==> forall p :: w.Has(p) ==> out(w.ImageAt(p)).error.None?
    ensures t.collector.Accepted? ==>
              ApplyOps(raw, PatchOps(ResultsOf(ArrivalOrder(order, t), out), w.kind))
              == ApplyOps(raw, PatchOps(ResultsOf(ArrivalOrder(order', t'), out), w.kind))
  {
    AcceptedIffAllGood(w, order, out, steps, t);
    AcceptedIffAllGood(w, order', out, steps', t');
    if t.collector.Accepted? {
      AdmittedMeansValidated(raw, w, order, out, steps, t);
      AdmittedMeansValidated(raw, w, order', out, steps', t');
    }
  }

  lemma AcceptedIffAllGood(
    w: WorkloadObject, order: seq<string>, out: string -> ValidationOutput, steps: seq<FanOut.Step>, t: State)
    requires Enumerates(order, w)
    requires Reachable(GateSetup(order, out), steps, t) && Terminal(GateSetup(order, out), t) && !t.cancelled
    ensures t.collector.Accepted? <==> forall p :: w.Has(p) ==> out(w.ImageAt(p)).error.None?
  {
    var c := GateSetup(order, out);
    VerdictIgnoresSchedule(c, steps, t);
    forall i | 0 <= i < |order| && c.workers[i].fails
      ensures exists p :: w.Has(p) && out(w.ImageAt(p)).error.Some?
    {
      assert order[i] in w.Images();
      var p := PlaceOf(w, order[i]);
      assert w.Has(p);
    }
    forall p | w.Has(p) && out(w.ImageAt(p)).error.Some?
      ensures exists i :: 0 <= i < |order| && c.workers[i].fails
    {
      assert w.ImageAt(p) in w.List(p.kind);
      assert w.ImageAt(p) in w.Images();
      var i :| 0 <= i < |order| && order[i] == w.ImageAt(p);
      assert c.workers[i].fails;
    }
  }

  lemma PlaceOf(w: WorkloadObject, image: string) returns (p: IdxType)
    requires image in w.Images()
    ensures w.Has(p) && w.ImageAt(p) == image
  {
    var k :| 0 <= k < |w.Images()| && w.Images()[k] == image;
    var c, i := |w.containers|, |w.initContainers|;
    p := if k < c then IdxType(k, Containers)
         else if k < c + i then IdxType(k - c, InitContainers)
         else IdxType(k - c - i, EphemeralContainers);
  }
}
