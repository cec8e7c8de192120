/** Policy, cache, goroutines and patch together: what an admitted request has gone through. */
module EndToEnd {
  import opened Wrappers
  import opened JsonTree
  import opened Workload
  import opened Outputs
  import opened Patch
  import opened Admission
  import opened Validation
  import FanOut
  import CacheRuns
  import Alert

  /** The validation that is started for one image of the workload. */
  function InputFor(w: WorkloadObject, image: string, previous: seq<string>, parents: seq<string>): Input {
    Input(Places(w, image), image, previous, parents)
  }

  /** What ValidateWorkloadObject starts: one validation per image, told about the images of the old object. */
  method StartedValidations(newObj: WorkloadObject, oldObj: WorkloadObject, parents: seq<string>)
    returns (inputs: map<string, Input>, previous: seq<string>)
    ensures forall image :: image in inputs <==> image in newObj.Images()
    ensures forall image :: image in inputs ==> inputs[image] == InputFor(newObj, image, previous, parents)
    ensures forall image :: image in previous <==> image in oldObj.Images()
  {
    var containers := ConsolidatedContainers(newObj);
    previous := ImageSet(oldObj);
    inputs := map image | image in containers :: Input(containers[image], image, previous, parents);
  }

  /** Each goroutine's output is what some run of the shared cache gives for its input. */
  ghost predicate Served(
    env: Env, oracle: string -> Result<string>, w: WorkloadObject, previous: seq<string>, parents: seq<string>,
    out: string -> ValidationOutput)
  {
    forall image :: image in w.Images() ==> ServedOne(env, oracle, InputFor(w, image, previous, parents), out(image))
  }

  ghost predicate ServedOne(env: Env, oracle: string -> Result<string>, input: Input, o: ValidationOutput) {
    exists steps, s: CacheRuns.State, i: nat ::
      && CacheRuns.Reachable(env, steps, s) && CacheRuns.Deterministic(oracle, s)
      && i < |s.threads| && s.threads[i] == CacheRuns.Done(input, o)
  }

  /** The outputs of the same validations without a cache. */
  ghost function Fresh(
    env: Env, oracle: string -> Result<string>, w: WorkloadObject,
    previous: seq<string>, parents: seq<string>): string -> ValidationOutput
  {
    (image: string) => Uncached(env, InputFor(w, image, previous, parents), oracle(image))
  }

  lemma ServedAgrees(env: Env, oracle: string -> Result<string>, input: Input, o: ValidationOutput)
    requires ServedOne(env, oracle, input, o)
    ensures CacheRuns.Agrees(o, Uncached(env, input, oracle(input.image)))
  {
    var steps, s: CacheRuns.State, i: nat :|
      && CacheRuns.Reachable(env, steps, s) && CacheRuns.Deterministic(oracle, s)
      && i < |s.threads| && s.threads[i] == CacheRuns.Done(input, o);
    CacheRuns.CacheRefinesValidator(env, oracle, steps, s, i);
  }

  /** An output reports for its input, and a reference that does not parse is an error. */
  predicate Reports(env: Env, input: Input, o: ValidationOutput) {
    && o.rawImage == input.image && o.idxsTypes == input.idxsTypes
    && (env.parse(input.image).None? ==> o.error.Some?)
  }

  lemma SettledReports(env: Env, input: Input)
    ensures Settled(env, input).Some? ==> Reports(env, input, Settled(env, input).value)
    ensures Settled(env, input).None? ==> env.parse(input.image).Some?
  {
  }

  lemma CheckedReports(env: Env, input: Input, o: ValidationOutput)
    requires Reports(env, input, o)
    ensures Reports(env, input, Checked(env, o))
  {
  }

  lemma UncachedReports(env: Env, input: Input, v: Result<string>)
    ensures Reports(env, input, Uncached(env, input, v))
  {
    SettledReports(env, input);
    match Settled(env, input)
    case Some(o) => CheckedReports(env, input, o);
    case None =>
      var o := AfterValidation(input, SubjectOf(env, input.image).value, v);
      CheckedReports(env, input, o);
  }

  lemma ServedReports(env: Env, oracle: string -> Result<string>, input: Input, o: ValidationOutput)
    requires ServedOne(env, oracle, input, o)
    ensures CacheRuns.Agrees(o, Uncached(env, input, oracle(input.image)))
    ensures Reports(env, input, o)
  {
    ServedAgrees(env, oracle, input, o);
    UncachedReports(env, input, oracle(input.image));
  }

  /**
   If a request is admitted, then the image of every container passes validation on its own, without
   any cache, and the patch rewrites the object as those validations say; whatever the schedule, the
   state of the cache, or the order of arrival.
   */
  lemma AdmissionIsPerContainerValidation(
    env: Env, oracle: string -> Result<string>, raw: Json, w: WorkloadObject,
    previous: seq<string>, parents: seq<string>, out: string -> ValidationOutput,
    order: seq<string>, steps: seq<FanOut.Step>, t: FanOut.State)
    requires env.parse("").None?
    requires Decode(raw, w.kind) == Decoded(w) && Enumerates(order, w)
    requires Served(env, oracle, w, previous, parents, out)
    requires FanOut.Reachable(GateSetup(order, out), steps, t) && t.collector.Accepted?
    ensures forall p :: w.Has(p) ==> Fresh(env, oracle, w, previous, parents)(w.ImageAt(p)).error.None?
    ensures ApplyOps(raw, PatchOps(ResultsOf(ArrivalOrder(order, t), out), w.kind))
         == Some(Rewritten(raw, w.kind, Fresh(env, oracle, w, previous, parents)))
  {
    var alone := Fresh(env, oracle, w, previous, parents);
    AllServed(env, oracle, w, previous, parents, out);
    AdmittedMeansValidated(raw, w, order, out, steps, t);
    EveryImageListed(w);
    SameTargets(raw, w, out, alone);
  }

  lemma EveryImageListed(w: WorkloadObject)
    ensures forall p :: w.Has(p) ==> w.ImageAt(p) in w.Images()
  {
    forall p | w.Has(p)
      ensures w.ImageAt(p) in w.Images()
    {
      assert w.ImageAt(p) in w.List(p.kind);
    }
  }

  lemma AllServed(
    env: Env, oracle: string -> Result<string>, w: WorkloadObject, previous: seq<string>, parents: seq<string>,
    out: string -> ValidationOutput)
    requires env.parse("").None? && Served(env, oracle, w, previous, parents, out)
    ensures ReportsFor(w, out) && ("" in w.Images() ==> out("").error.Some?)
    ensures forall image :: image in w.Images() ==>
                              CacheRuns.Agrees(out(image), Fresh(env, oracle, w, previous, parents)(image))
  {
    forall image | image in w.Images()
      ensures CacheRuns.Agrees(out(image), Fresh(env, oracle, w, previous, parents)(image))
      ensures Reports(env, InputFor(w, image, previous, parents), out(image))
    {
      ServedReports(env, oracle, InputFor(w, image, previous, parents), out(image));
    }
  }

  lemma SameTargets(raw: Json, w: WorkloadObject, out: string -> ValidationOutput, other: string -> ValidationOutput)
    requires Decode(raw, w.kind) == Decoded(w)
    requires forall p :: w.Has(p) ==> w.ImageAt(p) in w.Images() && out(w.ImageAt(p)).error.None?
    requires forall image :: image in w.Images() ==> CacheRuns.Agrees(out(image), other(image))
    ensures Rewritten(raw, w.kind, out) == Rewritten(raw, w.kind, other)
  {
    RewriteAlike(raw, w, Target(w.kind, out), Target(w.kind, other));
  }

  /** Without cancellation, a finished run admits exactly if every container's image passes on its own. */
  lemma AdmittedIffEveryContainerPasses(
    env: Env, oracle: string -> Result<string>, w: WorkloadObject,
    previous: seq<string>, parents: seq<string>, out: string -> ValidationOutput,
    order: seq<string>, steps: seq<FanOut.Step>, t: FanOut.State)
    requires env.parse("").None?
    requires Enumerates(order, w) && Served(env, oracle, w, previous, parents, out)
    requires FanOut.Reachable(GateSetup(order, out), steps, t) && FanOut.Terminal(GateSetup(order, out), t)
    requires !t.cancelled
    ensures t.collector.Accepted?
       <==> forall p :: w.Has(p) ==> Fresh(env, oracle, w, previous, parents)(w.ImageAt(p)).error.None?
  {
    AllServed(env, oracle, w, previous, parents, out);
    EveryImageListed(w);
    AcceptedIffAllGood(w, order, out, steps, t);
  }

  /**
   The whole handler where nothing is cancelled: outside pod-only and detection mode it admits exactly
   if every container's image passes on its own and every receiver that may fail the request succeeds.
   */
  method HandleWorkload(
    env: Env, ghost oracle: string -> Result<string>, req: Request,
    ghost previous: seq<string>, ghost parents: seq<string>,
    order: seq<string>, out: string -> ValidationOutput, ghost steps: seq<FanOut.Step>, gate: FanOut.State,
    alerting: Alert.Config, outcome: seq<Option<string>>, ghost alertSteps: seq<FanOut.Step>, alert: FanOut.State,
    f: Features)
    returns (resp: AdmissionResponse)
    requires Reviewed(req) && env.parse("").None?
    requires Enumerates(order, ObjectsOf(req).newObj)
    requires Served(env, oracle, ObjectsOf(req).newObj, previous, parents, out)
    requires Complete(GateSetup(order, out), steps, gate)
    requires |outcome| == |ToldAfter(gate, alerting)|
    requires Complete(Alert.SenderSetup(ToldAfter(gate, alerting), outcome), alertSteps, alert)
    modifies alerting
    ensures resp.allowed
       <==> || PodOnly(req, f) || f.detection
            || ((forall p :: ObjectsOf(req).newObj.Has(p) ==>
                               Fresh(env, oracle, ObjectsOf(req).newObj, previous, parents)
                                 (ObjectsOf(req).newObj.ImageAt(p)).error.None?)
                && forall i :: 0 <= i < |outcome| && ToldAfter(gate, alerting)[i].fail ==> outcome[i].None?)
  {
    ghost var w := ObjectsOf(req).newObj;
    AllServed(env, oracle, w, previous, parents, out);
    AdmittedIffEveryContainerPasses(env, oracle, w, previous, parents, out, order, steps, gate);
    Alert.AlertsIgnoreSchedule(ToldAfter(gate, alerting), outcome, alertSteps, alert);
    FanOut.TerminalIsDecided(GateSetup(order, out), steps, gate);
    FanOut.TerminalIsDecided(Alert.SenderSetup(ToldAfter(gate, alerting), outcome), alertSteps, alert);
    resp := HandleRun(req, order, out, steps, gate, alerting, outcome, alertSteps, alert, f);
  }

  /** A run to its end, without cancellation. */
  ghost predicate Complete(c: FanOut.Setup, steps: seq<FanOut.Step>, t: FanOut.State) {
    FanOut.Reachable(c, steps, t) && FanOut.Terminal(c, t) && !t.cancelled
  }

  /** A static or automatic approval leaves the reference as it was written, so nothing is patched. */
  lemma ApprovalsPatchNothing(env: Env, input: Input, kind: string)
    requires Settled(env, input).Some? && Checked(env, Settled(env, input).value).error.None?
    ensures
      var o := Checked(env, Settled(env, input).value);
      o.newImage == o.oldImage == SubjectOf(env, input.image).value.Name() && PatchOps([o], kind) == []
  {
    WrittenDigestIsNormal(env, input.image);
    var o := Checked(env, Settled(env, input).value);
    assert [o][..0] == [];
  }
}
