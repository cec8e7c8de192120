/** The cosign decision: many verifiers, one digest. */
module Cosign {
  import opened Wrappers
  import opened Distinct
  import opened Lists
  import opened TrustRoots
  import opened Policy
  import opened FanOut

  /** digest: what the payload decodes to; a payload that cannot be read is an error text. */
  datatype Signature = Signature(digest: Result<string>)

  /** err ends the validation; propagation is remembered in case no signature is found at all. */
  datatype VerifierOutput = VerifierOutput(
    signatures: seq<Signature>,
    err: Option<string>,
    propagation: Option<string>,
    root: string)

  /** The trust roots asked for. */
  function References(args: RuleOptions, roots: seq<TrustRoot>): seq<string> {
    if args.trustRoot == "*" && (args.threshold > |args.required| || args.required == []) then
      seq(|roots|, i requires 0 <= i < |roots| => roots[i].name)
    else if args.trustRoot == "*" && |args.required| > 0 then args.required
    else [args.trustRoot]
  }

  // ---------- the decision, stated without an order ----------

  function SignatureCount(outputs: seq<VerifierOutput>): nat {
    if outputs == [] then 0 else |outputs[0].signatures| + SignatureCount(outputs[1..])
  }

  /** The number of signatures the rule asks for, given so many verifiers; zero if it asks for none. */
  function Needed(args: RuleOptions, verifiers: nat): nat {
    if args.trustRoot == "*" && args.required == [] && args.threshold <= 0 then verifiers
    else if args.trustRoot == "*" && args.threshold > 0 then args.threshold
    else 0
  }

  predicate Carries(o: VerifierOutput, digest: string) {
    forall i :: 0 <= i < |o.signatures| ==> o.signatures[i].digest == Success(digest)
  }

  /** Everything the rule demands is there, and everything that is signed says digest. */
  ghost predicate Accepts(args: RuleOptions, verifiers: nat, outputs: seq<VerifierOutput>, digest: string) {
    && (forall o :: o in outputs ==> o.err.None? && Carries(o, digest))
    && SignatureCount(outputs) >= Needed(args, verifiers)
    && SignatureCount(outputs) > 0
    && (forall name :: name in args.required ==> exists o :: o in outputs && o.root == name)
  }

  lemma {:induction false} CountZero(outputs: seq<VerifierOutput>)
    ensures SignatureCount(outputs) == 0 <==> forall o :: o in outputs ==> o.signatures == []
  {
    if outputs != [] {
      CountZero(outputs[1..]);
      assert outputs == [outputs[0]] + outputs[1..];
    }
  }

  /** At most one digest is accepted. */
  lemma AcceptedDigestIsUnique(args: RuleOptions, verifiers: nat, outputs: seq<VerifierOutput>, d: string, e: string)
    requires Accepts(args, verifiers, outputs, d) && Accepts(args, verifiers, outputs, e)
    ensures d == e
  {
    CountZero(outputs);
    var o :| o in outputs && o.signatures != [];
    assert Carries(o, d) && Carries(o, e);
    assert o.signatures[0].digest == Success(d);
  }

  // ---------- what the code does ----------

  /** The errors to report if no signature is found at all, in order of arrival. */
  function Remembered(outputs: seq<VerifierOutput>): seq<string> {
    if outputs == [] then []
    else
      var last := outputs[|outputs| - 1];
      Remembered(outputs[..|outputs| - 1]) + if last.propagation.Some? then [last.propagation.value] else []
  }

  /** All signatures of these outputs, with repetitions, and all their names. */
  ghost predicate Gathered(outputs: seq<VerifierOutput>, signatures: seq<Signature>, names: seq<string>) {
    && |signatures| == SignatureCount(outputs)
    && (forall s :: s in signatures <==> exists o :: o in outputs && s in o.signatures)
    && (forall name :: name in names <==> exists o :: o in outputs && o.root == name)
  }

  lemma GatherOne(outputs: seq<VerifierOutput>, o: VerifierOutput, signatures: seq<Signature>, names: seq<string>)
    requires Gathered(outputs, signatures, names)
    ensures Gathered(outputs + [o], signatures + o.signatures, names + [o.root])
  {
    CountAppend(outputs, o);
  }

  method Receive(n: nat, arrivals: seq<VerifierOutput>)
    returns (
      err: Option<string>, checkedSignatures: seq<Signature>,
      validatingTrustRoots: seq<string>, propagateErrors: seq<string>)
    requires |arrivals| == n
    ensures err.Some? <==> exists o :: o in arrivals && o.err.Some?
    ensures err.None? ==> Gathered(arrivals, checkedSignatures, validatingTrustRoots)
    ensures err.None? ==> propagateErrors == Remembered(arrivals)
  {
    checkedSignatures, validatingTrustRoots, propagateErrors := [], [], [];
    for i := 0 to n
      invariant forall o :: o in arrivals[..i] ==> o.err.None?
      invariant Gathered(arrivals[..i], checkedSignatures, validatingTrustRoots)
      invariant propagateErrors == Remembered(arrivals[..i])
    {
      var output := arrivals[i];
      assert output in arrivals;
      if output.err.Some? {
        return output.err, checkedSignatures, validatingTrustRoots, propagateErrors;
      }
      assert arrivals[..i + 1] == arrivals[..i] + [output];
      assert arrivals[..i + 1][..i] == arrivals[..i];
      GatherOne(arrivals[..i], output, checkedSignatures, validatingTrustRoots);
      checkedSignatures := checkedSignatures + output.signatures;
      validatingTrustRoots := validatingTrustRoots + [output.root];
      if output.propagation.Some? {
        propagateErrors := propagateErrors + [output.propagation.value];
      }
    }
    assert arrivals[..n] == arrivals;
    return None, checkedSignatures, validatingTrustRoots, propagateErrors;
  }

  lemma {:induction false} CountAppend(front: seq<VerifierOutput>, o: VerifierOutput)
    ensures SignatureCount(front + [o]) == SignatureCount(front) + |o.signatures|
  {
    if front == [] {
      assert front + [o] == [o];
    } else {
      assert (front + [o])[1..] == front[1..] + [o];
      CountAppend(front[1..], o);
    }
  }

  /** The only digest of all the signatures. */
  method SingleDigest(signatures: seq<Signature>, propagateErrors: seq<string>) returns (r: Result<string>)
    ensures r.Success? ==> signatures != [] && AllSay(signatures, r.value)
    ensures r.Failure? ==> signatures == [] || forall d :: !AllSay(signatures, d)
  {
    var digests: set<string> := {};
    for i := 0 to |signatures|
      invariant forall j :: 0 <= j < i ==> signatures[j].digest.Success?
      invariant forall d :: d in digests <==> exists j :: 0 <= j < i && signatures[j].digest == Success(d)
    {
      assert signatures[i] in signatures;
      if signatures[i].digest.Failure? {
        return Failure(signatures[i].digest.error);
      }
      digests := digests + {signatures[i].digest.value};
    }
    if |digests| > 1 {
      TwoDigests(digests);
      return Failure("ambiguous digests");
    }
    assert signatures != [] ==> signatures[0].digest.value in digests;
    if digests != {} {
      var k :| k in digests;
      assert digests == {k} by {
        Subset({k}, digests);
        assert |digests - {k}| == 0;
      }
      return Success(k);
    }
    return Failure(if |propagateErrors| > 0 then "error validating image" else "no signed digests");
  }

  lemma TwoDigests(digests: set<string>)
    requires |digests| > 1
    ensures exists d, e :: d in digests && e in digests && d != e
  {
    var d :| d in digests;
    assert |digests - {d}| > 0;
    var e :| e in digests - {d};
  }

  /** The checks after the last message. */
  method Decide(args: RuleOptions, verifiers: nat, arrivals: seq<VerifierOutput>) returns (r: Result<string>)
    ensures r.Success? ==> Accepts(args, verifiers, arrivals, r.value)
    ensures r.Failure? ==> forall d :: !Accepts(args, verifiers, arrivals, d)
  {
    var err, checkedSignatures, validatingTrustRoots, propagateErrors := Receive(|arrivals|, arrivals);
    if err.Some? {
      return Failure(err.value);
    }
    forall d
      ensures Accepts(args, verifiers, arrivals, d)
         <==> AllSay(checkedSignatures, d) && Permitted(args, verifiers, checkedSignatures, validatingTrustRoots)
    {
      AcceptsMeans(args, verifiers, arrivals, checkedSignatures, validatingTrustRoots, d);
    }
    var threshold := 0;
    if args.trustRoot == "*" && |args.required| == 0 && !(args.threshold > 0) {
      threshold := verifiers;
    } else if args.trustRoot == "*" && args.threshold > 0 {
      threshold := args.threshold;
    }
    if threshold > 0 && |checkedSignatures| < threshold {
      return Failure("validation threshold not reached");
    }
    if |args.required| > 0 {
      var missing := SetSubstract(args.required, validatingTrustRoots);
      if |missing| != 0 {
        assert missing[0] in missing;
        return Failure("missing required signatures");
      }
    }
    r := SingleDigest(checkedSignatures, propagateErrors);
  }

  predicate AllSay(signatures: seq<Signature>, d: string) {
    forall s :: s in signatures ==> s.digest == Success(d)
  }

  /** Enough signatures, and none of the required names missing. */
  predicate Permitted(args: RuleOptions, verifiers: nat, signatures: seq<Signature>, names: seq<string>) {
    && |signatures| >= Needed(args, verifiers) && |signatures| > 0
    && forall name :: name in args.required ==> name in names
  }

  /** What the loop has collected decides. */
  lemma AcceptsMeans(
    args: RuleOptions, verifiers: nat, outputs: seq<VerifierOutput>,
    signatures: seq<Signature>, names: seq<string>, d: string)
    requires forall o :: o in outputs ==> o.err.None?
    requires Gathered(outputs, signatures, names)
    ensures Accepts(args, verifiers, outputs, d)
       <==> AllSay(signatures, d) && Permitted(args, verifiers, signatures, names)
  {
    SignaturesCarry(outputs, signatures, d);
  }

  lemma SignaturesCarry(outputs: seq<VerifierOutput>, signatures: seq<Signature>, d: string)
    requires forall s :: s in signatures <==> exists o :: o in outputs && s in o.signatures
    ensures AllSay(signatures, d) <==> forall o :: o in outputs ==> Carries(o, d)
  {
    if AllSay(signatures, d) {
      forall o | o in outputs
        ensures Carries(o, d)
      {
        forall i | 0 <= i < |o.signatures|
          ensures o.signatures[i].digest == Success(d)
        {
          assert o.signatures[i] in o.signatures;
        }
      }
    }
  }

  /** loads says which trust roots can be turned into verifiers; arrivals has one message per reference. */
  method ValidateImage(
    args: RuleOptions, roots: seq<TrustRoot>, loads: TrustRoot -> bool, arrivals: seq<VerifierOutput>)
    returns (r: Result<string>)
    requires |arrivals| == |References(args, roots)|
    ensures r.Success? ==>
              exists verifiers ::
                && Answers(References(args, roots), roots, true, Success(verifiers))
                && (forall v :: v in verifiers ==> loads(v))
                && Accepts(args, |verifiers|, arrivals, r.value)
    ensures r.Failure? ==>
              !exists verifiers, d ::
                && Answers(References(args, roots), roots, true, Success(verifiers))
                && (forall v :: v in verifiers ==> loads(v))
                && Accepts(args, |verifiers|, arrivals, d)
    ensures r.Success? && args.trustRoot != "*" ==>
              var root := FirstNamed(roots, OnlyName(args.trustRoot));
              && root.Some? && loads(root.value)
              && |arrivals| == 1 && arrivals[0].signatures != [] && Carries(arrivals[0], r.value)
    ensures r.Success? && args.trustRoot == "*" && (args.required == [] || args.threshold > |args.required|) ==>
              && |arrivals| == |roots|
              && forall i :: 0 <= i < |roots| ==>
                               && FirstNamed(roots, roots[i].name).Some?
                               && loads(FirstNamed(roots, roots[i].name).value)
    ensures r.Success? && args.trustRoot == "*" && args.required != [] && args.threshold <= |args.required|
            && args.required != ["*"] && args.required != [""] ==>
              && |arrivals| == |args.required|
              && forall i :: 0 <= i < |args.required| ==>
                               && FirstNamed(roots, args.required[i]).Some?
                               && loads(FirstNamed(roots, args.required[i]).value)
  {
    var trustRootsKeys := GetTrustRoots(References(args, roots), roots, true);
    if trustRootsKeys.Failure? {
      return Failure("error getting verifiers: " + trustRootsKeys.error);
    }
    var found := trustRootsKeys.value;
    forall other | Answers(References(args, roots), roots, true, Success(other))
      ensures other == found
    {
      AnswerIsUnique(References(args, roots), roots, found, other);
    }
    for i := 0 to |found|
      invariant forall j :: 0 <= j < i ==> loads(found[j])
    {
      if !loads(found[i]) {
        assert found[i] in found;
        return Failure("error getting verifiers");
      }
    }
    r := Decide(args, |found|, arrivals);
    if r.Success? {
      AcceptedHasSignature(args, |found|, arrivals, r.value);
      if args.trustRoot != "*" {
        NamedRootVerifier(args, roots, found);
      } else if args.required == [] || args.threshold > |args.required| {
        DefaultVerifiers(args, roots, found);
      } else if args.required != ["*"] && args.required != [""] {
        RequiredVerifiers(args, roots, found);
      }
    }
  }

  lemma AcceptedHasSignature(args: RuleOptions, verifiers: nat, arrivals: seq<VerifierOutput>, d: string)
    requires Accepts(args, verifiers, arrivals, d)
    ensures arrivals != [] && forall i :: 0 <= i < |arrivals| ==> Carries(arrivals[i], d)
    ensures |arrivals| == 1 ==> arrivals[0].signatures != []
  {
    assert arrivals[0] in arrivals;
    if |arrivals| == 1 {
      assert arrivals[1..] == [];
      assert SignatureCount(arrivals) == |arrivals[0].signatures| + SignatureCount([]);
    }
  }

  /** The name under which a single trust root is looked up. */
  function OnlyName(trustRoot: string): string {
    if trustRoot == "" then "default" else trustRoot
  }

  /** A rule that names one trust root is checked with the first root of that name, and no other. */
  lemma NamedRootVerifier(args: RuleOptions, roots: seq<TrustRoot>, verifiers: seq<TrustRoot>)
    requires args.trustRoot != "*"
    requires Answers(References(args, roots), roots, true, Success(verifiers))
    ensures |References(args, roots)| == 1
    ensures FirstNamed(roots, OnlyName(args.trustRoot)).Some?
    ensures verifiers == [FirstNamed(roots, OnlyName(args.trustRoot)).value]
  {
    var names := Requested(References(args, roots), true);
    assert names == [OnlyName(args.trustRoot)] && names[0] in names;
    assert names != ["*"] by {
      assert names[0] != "*";
    }
  }

  /** Under the star with required names, and no threshold above their number, these names are checked. */
  lemma RequiredVerifiers(args: RuleOptions, roots: seq<TrustRoot>, verifiers: seq<TrustRoot>)
    requires args.trustRoot == "*" && args.required != [] && args.threshold <= |args.required|
    requires args.required != ["*"] && args.required != [""]
    requires Answers(References(args, roots), roots, true, Success(verifiers))
    ensures |verifiers| == |args.required| == |References(args, roots)|
    ensures forall i :: 0 <= i < |args.required| ==> FirstNamed(roots, args.required[i]) == Some(verifiers[i])
  {
    assert Requested(References(args, roots), true) == args.required;
  }

  /** What a rule with one trust root accepts, in terms of what the verifier of that root sends. */
  lemma NamedRootAcceptsExactly(
    args: RuleOptions, roots: seq<TrustRoot>, verifiers: seq<TrustRoot>, send: TrustRoot -> VerifierOutput, d: string)
    requires args.trustRoot != "*"
    requires Answers(References(args, roots), roots, true, Success(verifiers))
    ensures |verifiers| == 1 && FirstNamed(roots, OnlyName(args.trustRoot)).Some?
    ensures
      var o := send(FirstNamed(roots, OnlyName(args.trustRoot)).value);
      Accepts(args, |verifiers|, [send(verifiers[0])], d)
      <==> && o.err.None? && o.signatures != [] && Carries(o, d)
           && forall name :: name in args.required ==> name == o.root
  {
    NamedRootVerifier(args, roots, verifiers);
    var o := send(verifiers[0]);
    assert [o][1..] == [] && SignatureCount([o]) == |o.signatures| && o in [o];
  }

  lemma AnswerIsUnique(refs: seq<string>, roots: seq<TrustRoot>, a: seq<TrustRoot>, b: seq<TrustRoot>)
    requires Answers(refs, roots, true, Success(a)) && Answers(refs, roots, true, Success(b))
    ensures a == b
  {
    if Requested(refs, true) != ["*"] {
      var names := Requested(refs, true);
      assert forall i :: 0 <= i < |names| ==> FirstNamed(roots, names[i]) == Some(a[i]) && a[i] == b[i];
    }
  }

  // ---------- no order ----------

  lemma {:induction false} CountPermutation(s: seq<VerifierOutput>, t: seq<VerifierOutput>)
    requires multiset(s) == multiset(t)
    ensures SignatureCount(s) == SignatureCount(t)
    decreases |s|
  {
    PermutationMembers(s, t);
    if s != [] {
      assert s[0] in t;
      var k: nat :| k < |t| && t[k] == s[0];
      WithoutMultiset(t, k);
      WithoutMultiset(s, 0);
      assert Without(s, 0) == s[1..];
      CountPermutation(s[1..], Without(t, k));
      CountAt(t, k);
    }
  }

  lemma {:induction false} CountAt(t: seq<VerifierOutput>, k: nat)
    requires k < |t|
    ensures SignatureCount(t) == |t[k].signatures| + SignatureCount(Without(t, k))
  {
    if k == 0 {
      assert Without(t, 0) == t[1..];
    } else {
      assert Without(t, k)[0] == t[0];
      assert Without(t, k)[1..] == Without(t[1..], k - 1);
      CountAt(t[1..], k - 1);
    }
  }

  /** The order in which verifiers answer changes neither acceptance nor the digest. */
  lemma OrderIrrelevant(args: RuleOptions, verifiers: nat, s: seq<VerifierOutput>, t: seq<VerifierOutput>, d: string)
    requires multiset(s) == multiset(t)
    ensures Accepts(args, verifiers, s, d) <==> Accepts(args, verifiers, t, d)
  {
    PermutationMembers(s, t);
    CountPermutation(s, t);
  }

  // ---------- how many verifiers, how many messages ----------

  /**
   As many verifiers are started as messages are awaited, except where the only reference is a star
   and the number of configured roots is not one.
   */
  lemma StartedEqualsAwaited(args: RuleOptions, roots: seq<TrustRoot>, verifiers: seq<TrustRoot>)
    requires Answers(References(args, roots), roots, true, Success(verifiers))
    ensures |verifiers| == |References(args, roots)| <==> !(References(args, roots) == ["*"] && |roots| != 1)
  {
    var names := Requested(References(args, roots), true);
    assert names != ["*"] ==> names[0] in names && FirstNamed(roots, names[0]).Some?;
  }

  /** So they match whenever no required root is called star. */
  lemma StartedEqualsAwaitedByConfig(args: RuleOptions, roots: seq<TrustRoot>, verifiers: seq<TrustRoot>)
    requires Answers(References(args, roots), roots, true, Success(verifiers))
    requires "*" !in args.required
    ensures |verifiers| == |References(args, roots)|
  {
    StartedEqualsAwaited(args, roots, verifiers);
    var refs := References(args, roots);
    if refs == ["*"] {
      assert refs[0] == "*";
    }
  }

  /** One goroutine per verifier; none looks at the context, and neither does the receive loop. */
  function VerifierSetup(outputs: seq<VerifierOutput>): (c: Setup)
    ensures |c.workers| == |outputs| && !c.leaves
    ensures forall i :: 0 <= i < |outputs| ==>
                          !c.workers[i].cancellable && (c.workers[i].fails <==> outputs[i].err.Some?)
  {
    Setup(seq(|outputs|, i requires 0 <= i < |outputs| => Worker(outputs[i].err.Some?, false)), false)
  }

  /**
   The receive loop always ends. If it ends with all messages in, the decision is the one on the
   verifiers in configuration order; if it ends early, no digest could have been accepted.
   */
  lemma DecisionIgnoresSchedule(
    args: RuleOptions, outputs: seq<VerifierOutput>, steps: seq<Step>, t: State, d: string)
    requires Reachable(VerifierSetup(outputs), steps, t) && Terminal(VerifierSetup(outputs), t)
    ensures t.collector.Accepted? || t.collector.Failed?
    ensures t.collector.Accepted? ==>
              && (forall i :: 0 <= i < |t.received| ==> t.received[i] < |outputs|)
              && (Accepts(args, |outputs|, Picked(outputs, t.received), d) <==> Accepts(args, |outputs|, outputs, d))
    ensures t.collector.Failed? ==> !Accepts(args, |outputs|, outputs, d)
  {
    var c := VerifierSetup(outputs);
    TerminalIsDecided(c, steps, t);
    ReachableInv(c, steps, t);
    if t.collector.Accepted? {
      AcceptedMeansAllGood(c, steps, t);
      assert forall i :: 0 <= i < |t.received| ==> t.received[i] in t.received;
      PickedAll(outputs, t.received);
      OrderIrrelevant(args, |outputs|, Picked(outputs, t.received), outputs, d);
    } else {
      RefusalHasACause(c, steps, t);
      assert outputs[t.collector.worker] in outputs;
    }
  }

  // ---------- the lone star ----------

  /**
   The only configuration in which the counts differ awaits one message, so the first one decides:
   it is accepted exactly if it comes from a root called star that signed.
   */
  lemma LoneStarReadsOneMessage(
    args: RuleOptions, roots: seq<TrustRoot>, verifiers: seq<TrustRoot>, o: VerifierOutput, d: string)
    requires Answers(References(args, roots), roots, true, Success(verifiers))
    requires |verifiers| != |References(args, roots)|
    ensures |References(args, roots)| == 1 && verifiers == roots
    ensures args.trustRoot == "*" && args.required == ["*"] && args.threshold <= 1
    ensures Accepts(args, |verifiers|, [o], d)
       <==> o.err.None? && o.root == "*" && o.signatures != [] && Carries(o, d)
  {
    LoneStarCounts(args, roots, verifiers);
    assert [o][1..] == [] && SignatureCount([o]) == |o.signatures|;
    assert o in [o] && args.required[0] in args.required;
  }

  lemma LoneStarCounts(args: RuleOptions, roots: seq<TrustRoot>, verifiers: seq<TrustRoot>)
    requires Answers(References(args, roots), roots, true, Success(verifiers))
    requires |verifiers| != |References(args, roots)|
    ensures |References(args, roots)| == 1 && verifiers == roots && |roots| != 1
    ensures args.trustRoot == "*" && args.required == ["*"] && args.threshold <= 1
  {
    StartedEqualsAwaited(args, roots, verifiers);
    LoneStarReferences(args, roots);
  }

  lemma LoneStarReferences(args: RuleOptions, roots: seq<TrustRoot>)
    requires References(args, roots) == ["*"] && |roots| != 1
    ensures args.trustRoot == "*" && args.required == ["*"] && args.threshold <= 1
  {
    assert |["*"]| == 1 && ["*"][0] == "*";
  }

  /** And then all verifiers but two are blocked for good: one message is read, one fits the channel. */
  lemma LoneStarBlocksSenders(
    args: RuleOptions, roots: seq<TrustRoot>, verifiers: seq<TrustRoot>, moves: seq<Move>, t: Traffic)
    requires Answers(References(args, roots), roots, true, Success(verifiers))
    requires |verifiers| != |References(args, roots)|
    requires TrafficRun(|References(args, roots)|, |References(args, roots)|, Traffic(|verifiers|, 0, 0), moves, t)
    requires forall m: Move :: !CanMove(|References(args, roots)|, |References(args, roots)|, t, m)
    ensures t.waiting == if |roots| <= 2 then 0 else |roots| - 2
    ensures t.read == 0 <==> roots == []
  {
    LoneStarCounts(args, roots, verifiers);
    BlockedSenders(|verifiers|, 1, 1, moves, t);
  }

  /** With two roots, one of them called star, both signing: whichever answers first decides. */
  lemma LoneStarDependsOnOrder(d: string, mode: string, k1: string, k2: string)
    ensures
      var args := RuleOptions("*", 0, ["*"], [], mode);
      var roots := [TrustRoot("*", k1), TrustRoot("bob", k2)];
      var star := VerifierOutput([Signature(Success(d))], None, None, "*");
      var bob := VerifierOutput([Signature(Success(d))], None, None, "bob");
      && Answers(References(args, roots), roots, true, Success(roots))
      && |References(args, roots)| == 1 && |roots| == 2
      && WellShaped(star, roots[0].name) && WellShaped(bob, roots[1].name)
      && Accepts(args, 2, [star], d)
      && forall e :: !Accepts(args, 2, [bob], e)
  {
    var args := RuleOptions("*", 0, ["*"], [], mode);
    var roots := [TrustRoot("*", k1), TrustRoot("bob", k2)];
    var star := VerifierOutput([Signature(Success(d))], None, None, "*");
    var bob := VerifierOutput([Signature(Success(d))], None, None, "bob");
    LoneStarReadsOneMessage(args, roots, roots, star, d);
    forall e
      ensures !Accepts(args, 2, [bob], e)
    {
      LoneStarReadsOneMessage(args, roots, roots, bob, e);
    }
  }

  // ---------- signatures and signers ----------

  /** What a verifier sends: nothing but an error, nothing but a remembered error, or its signatures and name. */
  predicate WellShaped(o: VerifierOutput, name: string) {
    || (o.err.Some? && o.signatures == [] && o.propagation.None? && o.root == "")
    || (o.err.None? && o.signatures == [] && o.propagation.Some? && o.root == "")
    || (o.err.None? && o.propagation.None? && o.root == name)
  }

  /** The library succeeds only with a signature, so an output that gives its name has one. */
  predicate Plausible(o: VerifierOutput, name: string, m: nat) {
    && WellShaped(o, name) && |o.signatures| <= m
    && (o.err.None? && o.propagation.None? ==> o.signatures != [])
  }

  /** The outputs of verifiers with these names, with at most m signatures each. */
  ghost predicate OutputsOf(names: seq<string>, m: nat, outputs: seq<VerifierOutput>) {
    |outputs| == |names| && forall i :: 0 <= i < |names| ==> Plausible(outputs[i], names[i], m)
  }

  function Signers(outputs: seq<VerifierOutput>): set<nat> {
    set i: nat | i < |outputs| && outputs[i].signatures != []
  }

  /** With at most one signature each, signatures are as many as signers. */
  lemma {:induction false} SignersAreCounted(outputs: seq<VerifierOutput>)
    requires forall i :: 0 <= i < |outputs| ==> |outputs[i].signatures| <= 1
    ensures |Signers(outputs)| == SignatureCount(outputs)
  {
    if outputs == [] {
      assert Signers(outputs) == {};
    } else {
      var last := |outputs| - 1;
      var front, o := outputs[..last], outputs[last];
      SignersAreCounted(front);
      assert outputs == front + [o];
      CountAppend(front, o);
      LastSigner(front, o);
    }
  }

  lemma LastSigner(front: seq<VerifierOutput>, o: VerifierOutput)
    ensures |Signers(front + [o])| == |Signers(front)| + if o.signatures != [] then 1 else 0
  {
    SignersAppend(front, o);
  }

  lemma SignersAppend(front: seq<VerifierOutput>, o: VerifierOutput)
    ensures Signers(front + [o]) == Signers(front) + if o.signatures != [] then {|front|} else {}
  {
    var all := front + [o];
    forall i: nat
      ensures i in Signers(all) <==> i in Signers(front) || (i == |front| && o.signatures != [])
    {
      assert i < |front| ==> all[i] == front[i];
    }
  }

  /** Then a threshold of k under the star is reached only if k different verifiers signed. */
  lemma ThresholdCountsSigners(args: RuleOptions, verifiers: nat, outputs: seq<VerifierOutput>, d: string)
    requires args.trustRoot == "*" && args.threshold > 0
    requires forall i :: 0 <= i < |outputs| ==> |outputs[i].signatures| <= 1
    requires Accepts(args, verifiers, outputs, d)
    ensures |Signers(outputs)| >= args.threshold
  {
    SignersAreCounted(outputs);
  }

  /** Acceptance with a threshold means that so many different verifiers signed. */
  ghost predicate ThresholdNeedsSigners(args: RuleOptions, names: seq<string>, m: nat) {
    forall outputs: seq<VerifierOutput>, d :: OutputsOf(names, m, outputs) && Accepts(args, |names|, outputs, d) ==>
                                                |Signers(outputs)| >= args.threshold
  }

  /** The required names are so few that fewer than k verifiers can carry them, and all of them exist. */
  predicate Coverable(args: RuleOptions, names: seq<string>) {
    Elements(args.required) <= Elements(names) && |Elements(args.required)| < args.threshold
  }

  /**
   This holds exactly for a threshold of one, where no verifier returns more than one signature, where
   the verifiers cannot reach the threshold at all, and where so many different names are required, or
   one that no verifier has.
   */
  lemma ThresholdNeedsSignersExactly(args: RuleOptions, names: seq<string>, m: nat)
    requires args.trustRoot == "*" && args.threshold > 0 && "" !in args.required
    ensures ThresholdNeedsSigners(args, names, m)
       <==> m <= 1 || args.threshold == 1 || |names| * m < args.threshold || !Coverable(args, names)
  {
    var k := args.threshold;
    if m > 1 && k > 1 && |names| * m >= k && Coverable(args, names) {
      FewSignersSuffice(args, names, m);
    } else {
      forall outputs: seq<VerifierOutput>, d | OutputsOf(names, m, outputs) && Accepts(args, |names|, outputs, d)
        ensures |Signers(outputs)| >= k
      {
        EnoughSigned(args, names, m, outputs, d);
      }
    }
  }

  lemma EnoughSigned(args: RuleOptions, names: seq<string>, m: nat, outputs: seq<VerifierOutput>, d: string)
    requires args.trustRoot == "*" && args.threshold > 0 && "" !in args.required
    requires OutputsOf(names, m, outputs) && Accepts(args, |names|, outputs, d)
    requires m <= 1 || args.threshold == 1 || |names| * m < args.threshold || !Coverable(args, names)
    ensures |Signers(outputs)| >= args.threshold
  {
    CountAtMost(outputs, m);
    SomeoneSigned(outputs);
    if m <= 1 {
      ThresholdCountsSigners(args, |names|, outputs, d);
    }
    RequiredSigned(args, names, m, outputs, d);
  }

  /** Every required name is that of a verifier that signed, so as many verifiers signed. */
  lemma RequiredSigned(args: RuleOptions, names: seq<string>, m: nat, outputs: seq<VerifierOutput>, d: string)
    requires "" !in args.required && OutputsOf(names, m, outputs) && Accepts(args, |names|, outputs, d)
    ensures Elements(args.required) <= Elements(names)
    ensures |Elements(args.required)| <= |Signers(outputs)|
  {
    var owner := (i: nat) => if i < |names| then names[i] else "";
    var signed := NamesAt(Signers(outputs), owner);
    forall name | name in args.required
      ensures name in names && name in signed
    {
      var o :| o in outputs && o.root == name;
      var i: nat :| i < |outputs| && outputs[i] == o;
      assert Plausible(outputs[i], names[i], m);
      assert i in Signers(outputs) && owner(i) == name;
    }
    Subset(Elements(args.required), signed);
    NamesAtMost(Signers(outputs), owner);
  }

  function NamesAt(s: set<nat>, f: nat -> string): set<string> {
    set i | i in s :: f(i)
  }

  lemma {:induction false} NamesAtMost(s: set<nat>, f: nat -> string)
    ensures |NamesAt(s, f)| <= |s|
    decreases |s|
  {
    if s != {} {
      var i :| i in s;
      NamesAtMost(s - {i}, f);
      assert NamesAt(s, f) == NamesAt(s - {i}, f) + {f(i)};
    }
  }

  /** Otherwise a few verifiers, those with the required names among them, can sign often enough. */
  lemma FewSignersSuffice(args: RuleOptions, names: seq<string>, m: nat)
    requires args.trustRoot == "*" && m > 1 && args.threshold > 1 && |names| * m >= args.threshold
    requires Coverable(args, names)
    ensures !ThresholdNeedsSigners(args, names, m)
  {
    var k := args.threshold;
    var j := if |names| < k then |names| else k - 1;
    assert j * m >= k by {
      if j == k - 1 {
        TwiceIsEnough(k, m);
      }
    }
    RequiredFit(args, names);
    var who := Choose(names, Elements(args.required), j);
    var outputs := SignAt(names, who, m, "");
    SignAtIsPlausible(names, who, m, "");
    SignAtCounts(names, who, m, "");
    forall name | name in args.required
      ensures exists o :: o in outputs && o.root == name
    {
      assert name in Elements(args.required);
      var i :| i in who && names[i] == name;
      assert outputs[i] in outputs;
    }
    assert Accepts(args, |names|, outputs, "");
  }

  lemma RequiredFit(args: RuleOptions, names: seq<string>)
    requires Elements(args.required) <= Elements(names)
    ensures |Elements(args.required)| <= |names|
  {
    Subset(Elements(args.required), Elements(names));
    ElementsAtMost(names);
  }

  lemma {:induction false} ElementsAtMost(names: seq<string>)
    ensures |Elements(names)| <= |names|
  {
    if names == [] {
      assert Elements(names) == {};
    } else {
      var last := |names| - 1;
      ElementsAtMost(names[..last]);
      assert Elements(names) == Elements(names[..last]) + {names[last]};
    }
  }

  /** j positions that carry all of these names. */
  lemma {:induction false} Choose(names: seq<string>, required: set<string>, j: nat) returns (who: set<nat>)
    requires required <= Elements(names) && |required| <= j <= |names|
    ensures |who| == j && forall i :: i in who ==> i < |names|
    ensures forall name :: name in required ==> exists i :: i in who && names[i] == name
    decreases |required|, j
  {
    if required != {} {
      var name :| name in required;
      var at: nat :| at < |names| && names[at] == name;
      var rest := Choose(names, required - {name}, j - 1);
      if at in rest {
        who := Enlarge(|names|, rest);
      } else {
        who := rest + {at};
      }
      forall other | other in required
        ensures exists i :: i in who && names[i] == other
      {
        if other == name {
          assert at in who;
        } else {
          assert other in required - {name};
          var i :| i in rest && names[i] == other;
          assert i in who;
        }
      }
    } else if j > 0 {
      var rest := Choose(names, {}, j - 1);
      who := Enlarge(|names|, rest);
    } else {
      who := {};
    }
  }

  lemma Enlarge(n: nat, s: set<nat>) returns (more: set<nat>)
    requires |s| < n && forall i :: i in s ==> i < n
    ensures s <= more && |more| == |s| + 1 && forall i :: i in more ==> i < n
  {
    Subset(s, Below(n));
    assert s != Below(n);
    var i :| i in Below(n) && i !in s;
    more := s + {i};
  }

  lemma {:induction false} TwiceIsEnough(k: nat, m: nat)
    requires k > 1 && m > 1
    ensures (k - 1) * m >= k
  {
    if m > 2 {
      TwiceIsEnough(k, m - 1);
      assert (k - 1) * m == (k - 1) * (m - 1) + (k - 1);
    }
  }

  lemma {:induction false} CountAtMost(outputs: seq<VerifierOutput>, m: nat)
    requires forall i :: 0 <= i < |outputs| ==> |outputs[i].signatures| <= m
    ensures SignatureCount(outputs) <= |outputs| * m
  {
    if outputs != [] {
      CountAtMost(outputs[1..], m);
      assert |outputs| * m == m + (|outputs| - 1) * m;
    }
  }

  lemma SomeoneSigned(outputs: seq<VerifierOutput>)
    requires SignatureCount(outputs) > 0
    ensures |Signers(outputs)| >= 1
  {
    CountZero(outputs);
    var o :| o in outputs && o.signatures != [];
    var i: nat :| i < |outputs| && outputs[i] == o;
    Subset({i}, Signers(outputs));
  }

  function Signing(name: string, m: nat, d: string): (o: VerifierOutput)
    ensures |o.signatures| == m && o.err.None? && Carries(o, d) && WellShaped(o, name)
  {
    VerifierOutput(seq(m, _ => Signature(Success(d))), None, None, name)
  }

  function Silent(name: string): (o: VerifierOutput)
    ensures o.signatures == [] && o.err.None? && WellShaped(o, name)
  {
    VerifierOutput([], None, Some("no match"), "")
  }

  /** These verifiers sign m times each, the others not at all. */
  function SignAt(names: seq<string>, who: set<nat>, m: nat, d: string): (outputs: seq<VerifierOutput>)
    ensures |outputs| == |names|
    ensures forall i :: 0 <= i < |names| ==>
                          outputs[i] == if i in who then Signing(names[i], m, d) else Silent(names[i])
  {
    seq(|names|, i requires 0 <= i < |names| => if i in who then Signing(names[i], m, d) else Silent(names[i]))
  }

  lemma SignAtIsPlausible(names: seq<string>, who: set<nat>, m: nat, d: string)
    requires m > 0 && forall i :: i in who ==> i < |names|
    ensures OutputsOf(names, m, SignAt(names, who, m, d)) && Signers(SignAt(names, who, m, d)) == who
    ensures forall o :: o in SignAt(names, who, m, d) ==> o.err.None? && Carries(o, d)
  {
  }

  lemma {:induction false} SignAtCounts(names: seq<string>, who: set<nat>, m: nat, d: string)
    requires forall i :: i in who ==> i < |names|
    ensures SignatureCount(SignAt(names, who, m, d)) == |who| * m
  {
    if names == [] {
      assert who == {};
    } else {
      var last: nat := |names| - 1;
      SignAtCounts(names[..last], who - {last}, m, d);
      SignAtLast(names, who, m, d);
      CountAppend(SignAt(names[..last], who - {last}, m, d), SignAt(names, who, m, d)[last]);
      if last in who {
        OneMoreTime(|who|, m);
      } else {
        assert who - {last} == who;
      }
    }
  }

  lemma SignAtLast(names: seq<string>, who: set<nat>, m: nat, d: string)
    requires names != []
    ensures
      var last: nat := |names| - 1;
      SignAt(names, who, m, d) == SignAt(names[..last], who - {last}, m, d) + [SignAt(names, who, m, d)[last]]
  {
  }

  lemma OneMoreTime(j: nat, m: nat)
    requires j > 0
    ensures (j - 1) * m + m == j * m
  {
  }

  predicate DefaultMode(args: RuleOptions) {
    args.trustRoot == "*" && args.required == [] && args.threshold <= 0
  }

  /** Acceptance in default mode means that every verifier signed. */
  ghost predicate AcceptanceNeedsAll(args: RuleOptions, names: seq<string>, m: nat) {
    forall outputs: seq<VerifierOutput>, d :: OutputsOf(names, m, outputs) && Accepts(args, |names|, outputs, d) ==>
                           forall i :: 0 <= i < |names| ==> outputs[i].signatures != []
  }

  /** This holds exactly for a single verifier, or where no verifier returns more than one signature. */
  lemma AcceptanceNeedsAllExactly(args: RuleOptions, names: seq<string>, m: nat)
    requires DefaultMode(args)
    ensures AcceptanceNeedsAll(args, names, m) <==> |names| <= 1 || m <= 1
  {
    if |names| <= 1 || m <= 1 {
      forall outputs: seq<VerifierOutput>, d | OutputsOf(names, m, outputs) && Accepts(args, |names|, outputs, d)
        ensures forall i :: 0 <= i < |names| ==> outputs[i].signatures != []
      {
        if |names| <= 1 {
          CountZero(outputs);
        } else {
          AllSign(outputs);
        }
      }
    } else {
      var who := Below(|names| - 1);
      var outputs := SignAt(names, who, 2, "");
      SignAtIsPlausible(names, who, 2, "");
      SignAtCounts(names, who, 2, "");
      assert OutputsOf(names, m, outputs) && Accepts(args, |names|, outputs, "");
      assert outputs[|names| - 1].signatures == [];
    }
  }

  lemma {:induction false} AllSign(outputs: seq<VerifierOutput>)
    requires forall i :: 0 <= i < |outputs| ==> |outputs[i].signatures| <= 1
    ensures SignatureCount(outputs) <= |outputs|
    ensures SignatureCount(outputs) == |outputs| ==> forall i :: 0 <= i < |outputs| ==> |outputs[i].signatures| == 1
  {
    if outputs != [] {
      AllSign(outputs[1..]);
      assert forall i :: 0 < i < |outputs| ==> outputs[i] == outputs[1..][i - 1];
    }
  }

  // ---------- the default mode and the configured roots ----------

  /**
   Under the star, without required names or with a threshold above their number, there is one verifier
   per configured root: the first root with its name.
   */
  lemma DefaultVerifiers(args: RuleOptions, roots: seq<TrustRoot>, verifiers: seq<TrustRoot>)
    requires args.trustRoot == "*" && (args.required == [] || args.threshold > |args.required|)
    requires Answers(References(args, roots), roots, true, Success(verifiers))
    ensures |verifiers| == |roots| == |References(args, roots)|
    ensures forall i :: 0 <= i < |roots| ==> FirstNamed(roots, roots[i].name) == Some(verifiers[i])
  {
    var refs := References(args, roots);
    var names := Requested(refs, true);
    assert names != ["*"] ==> names[0] in names && FirstNamed(roots, names[0]).Some?;
    if NoReference(refs) {
      NamelessRoots(roots, refs);
      assert false;
    } else if names == ["*"] {
      assert |roots| == 1 && roots[0].name == refs[0] == names[0];
    } else {
      assert forall i :: 0 <= i < |roots| ==> names[i] == roots[i].name;
    }
  }

  /** Where the names of all roots amount to no reference, no root is called default. */
  lemma NamelessRoots(roots: seq<TrustRoot>, refs: seq<string>)
    requires |refs| == |roots| && forall i :: 0 <= i < |roots| ==> refs[i] == roots[i].name
    requires NoReference(refs)
    ensures FirstNamed(roots, "default").None?
  {
    FirstNamedExact(roots, "default");
  }

  /** The verifier of this root signed the digest. */
  ghost predicate Signed(verifiers: seq<TrustRoot>, outputs: seq<VerifierOutput>, root: TrustRoot, d: string) {
    exists i :: 0 <= i < |verifiers| && i < |outputs| && verifiers[i] == root && outputs[i].signatures != []
                && Carries(outputs[i], d)
  }

  /** No root is hidden behind an earlier one with its name. */
  ghost predicate NamesTellApart(roots: seq<TrustRoot>) {
    forall r :: r in roots ==> FirstNamed(roots, r.name) == Some(r)
  }

  /**
   In default mode with at most one signature per verifier, an accepted digest is signed by every
   configured root exactly if no root is hidden behind an earlier one with the same name.
   */
  lemma DefaultModeNeedsAllRoots(
    args: RuleOptions, roots: seq<TrustRoot>, verifiers: seq<TrustRoot>, outputs: seq<VerifierOutput>, d: string)
    requires DefaultMode(args)
    requires Answers(References(args, roots), roots, true, Success(verifiers))
    requires |outputs| == |verifiers|
    requires forall i :: 0 <= i < |outputs| ==> WellShaped(outputs[i], verifiers[i].name)
    requires forall i :: 0 <= i < |outputs| ==> |outputs[i].signatures| <= 1
    requires Accepts(args, |verifiers|, outputs, d)
    ensures forall i :: 0 <= i < |outputs| ==>
                          outputs[i].signatures == [Signature(Success(d))] && outputs[i].root == verifiers[i].name
    ensures forall r :: r in verifiers ==> Signed(verifiers, outputs, r, d)
    ensures (forall r :: r in roots ==> Signed(verifiers, outputs, r, d)) <==> NamesTellApart(roots)
  {
    AllSign(outputs);
    forall i | 0 <= i < |outputs|
      ensures outputs[i].signatures == [Signature(Success(d))] && outputs[i].root == verifiers[i].name
    {
      assert outputs[i] in outputs;
      assert outputs[i].signatures[0].digest == Success(d);
    }
    DefaultVerifiers(args, roots, verifiers);
    SignedAreVerifiers(verifiers, outputs, d);
    forall r | r in roots
      ensures r in verifiers <==> FirstNamed(roots, r.name) == Some(r)
    {
      VerifierOfRoot(roots, verifiers, r);
    }
  }

  lemma SignedAreVerifiers(verifiers: seq<TrustRoot>, outputs: seq<VerifierOutput>, d: string)
    requires |outputs| == |verifiers|
    requires forall i :: 0 <= i < |outputs| ==> outputs[i].signatures == [Signature(Success(d))]
    ensures forall r :: r in verifiers <==> Signed(verifiers, outputs, r, d)
  {
    forall r | r in verifiers
      ensures Signed(verifiers, outputs, r, d)
    {
      var i :| 0 <= i < |verifiers| && verifiers[i] == r;
      assert Carries(outputs[i], d);
    }
  }

  lemma VerifierOfRoot(roots: seq<TrustRoot>, verifiers: seq<TrustRoot>, r: TrustRoot)
    requires |verifiers| == |roots| && r in roots
    requires forall i :: 0 <= i < |roots| ==> FirstNamed(roots, roots[i].name) == Some(verifiers[i])
    ensures r in verifiers <==> FirstNamed(roots, r.name) == Some(r)
  {
    if r in verifiers {
      var k :| 0 <= k < |verifiers| && verifiers[k] == r;
      FirstNamedExact(roots, roots[k].name);
    }
    var l :| 0 <= l < |roots| && roots[l] == r;
    assert FirstNamed(roots, r.name) == Some(verifiers[l]);
  }

  /** A configuration in which a root is hidden: its key plays no part in an acceptance. */
  lemma HiddenRootNeverSigns(args: RuleOptions, d: string, k1: string, k2: string)
    requires DefaultMode(args) && k1 != k2
    ensures
      var roots := [TrustRoot("alice", k1), TrustRoot("alice", k2)];
      var verifiers := [roots[0], roots[0]];
      var o := VerifierOutput([Signature(Success(d))], None, None, "alice");
      && Answers(References(args, roots), roots, true, Success(verifiers))
      && Accepts(args, 2, [o, o], d)
      && !Signed(verifiers, [o, o], roots[1], d)
  {
    var roots := [TrustRoot("alice", k1), TrustRoot("alice", k2)];
    var o := VerifierOutput([Signature(Success(d))], None, None, "alice");
    assert References(args, roots) == ["alice", "alice"];
    assert [o, o][1..] == [o] && [o][1..] == [] && SignatureCount([o]) == 1;
  }

  /** Signatures are counted, not signers: two from one root make up for a root that signed nothing. */
  lemma TwoSignaturesCountTwice(args: RuleOptions, d: string)
    requires DefaultMode(args)
    ensures
      var s := Signature(Success(d));
      var outputs := [VerifierOutput([s, s], None, None, "alice"), VerifierOutput([], None, Some("no match"), "")];
      OutputsOf(["alice", "bob"], 2, outputs) && Accepts(args, 2, outputs, d)
  {
    var s := Signature(Success(d));
    var a, b := VerifierOutput([s, s], None, None, "alice"), VerifierOutput([], None, Some("no match"), "");
    assert [a, b][1..] == [b];
    assert SignatureCount([b]) == 0;
    assert SignatureCount([a, b]) == 2;
  }
}
