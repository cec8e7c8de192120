# Connaisseur: a verified model

Connaisseur decides whether a Kubernetes admission request may pass. It validates each distinct
image of a workload in a goroutine of its own, waits for the results on a buffered channel, and
answers with a denial or with a JSON patch that pins images to what was validated. This project
models that decision and proves what it can be relied on for.

| module | what it models |
|---|---|
| `FanOut` | goroutines, buffered channel, collector and cancellation, as a step system over all interleavings; used for image validation, alert sending and cosign verification |
| `Admission`, `Workload`, `JsonTree`, `Patch`, `Outputs` | the request handler, container consolidation, and the patch as operations on a JSON tree with the "replace" semantics of section 4.3 of RFC 6902 |
| `Validation`, `CacheRuns`, `JsonText` | one image validation, the shared expiring cache under concurrent readers, writers and expiry, and the hand-built cache entry with its decoder (strings as in section 7 of RFC 8259) |
| `EndToEnd` | policy, cache, goroutines and patch together |
| `Policy`, `GoStrings`, `Image` | rule matching and specificity, the string routines under it, image references |
| `TrustRoots`, `Lists`, `Cosign` | trust root selection and the cosign quorum decision |
| `NotaryRepo`, `Notary` | the notary v1 trust data repository and the validation on top of it (part of the client workflow of The Update Framework specification, sections 5.3 to 5.6) |
| `Alert` | notification receivers |
| `Counters` | decision and validation metrics |
| `Distinct`, `Wrappers` | repetition-free sequences, counting arguments, Option and Result |

How the model relates to the code:

* Code that changes state is a class or a method with loops (`AdmissionResponse`, `Cache`, `Image`,
  `Repo`, `Config`, the metrics, the collector, patch, prefix, matching and quorum loops). Each
  method is tied to a specification function or predicate, and the properties are proved about that.
* Concurrency is a step system: a run is a sequence of enabled steps, and theorems quantify over all
  runs. `FanOut.LoopMatchesRun` connects a run with the collector loops, which take the messages in
  the order the run delivered them.
* What lies outside is a parameter, quantified over: reference parsing, the validators behind the
  cache, every routine of the signature and notary libraries (`Tuf`), key parsing, the answers of
  servers, the clock, and the moment of cancellation.
* A Go string is a sequence of characters; where bytes matter (`LongestCommonPrefix` builds its
  result byte by byte) a character stands for a byte.

Where the code differs from its comments or documentation, or from what one would expect of it, the
model follows the code:

* `Compare` orders by component count, then prefix lengths, then component lengths, as
  docs/basics.md:361-366 says; the comment at internal/policy/match.go:45-50 lists the last two the
  other way round.
* In detection mode a request is admitted even after an alert that may fail the request could not be
  sent (internal/handler/mutate.go:111-117), unlike the note at docs/features/alerting.md:39.
* `LongestCommonPrefix` returns the longest common prefix exactly if that prefix is ASCII; any other
  byte is widened to two bytes by the conversion to string (`GoStrings.LongestCommonPrefix`,
  `GoStrings.NonAsciiPrefixIsWidened`).
* The tag of a reference with tag and digest is recovered if the written repository is a suffix of the
  normalised name, and either is that name or the name is free of colons and at signs
  (`Image.ReferenceRecovery`); for two repositories free of them, it is recovered exactly then
  (`Image.RecoveredIffSuffix`). docker.io/nginx is not such a suffix (`Image.DockerHubLosesTag`).
* The template of a replication controller is a pointer that is followed unchecked
  (internal/kubernetes/workload_object.go:102), so an object without one ends the handler: the request
  is counted as received, and there is neither a response nor a decision (`Workload.CrashesExactly`,
  `Admission.CrashesExactlyOn`, `Counters.EveryRequestIsAccountedFor`).
* The error of a failed alert names the receiver whose turn it was in the loop, which need not be the
  failing one (`Alert.NamedReceiver`).
* As many cosign verifiers are started as messages are awaited, except for the lone star reference
  with a number of trust roots other than one (`Cosign.StartedEqualsAwaited`); then one message is
  read, the first answer decides, and all verifiers but two stay blocked
  (`Cosign.LoneStarReadsOneMessage`, `Cosign.LoneStarDependsOnOrder`, `Cosign.LoneStarBlocksSenders`).
* Cosign counts signatures, not signers. In default mode acceptance means that every verifier signed
  exactly for a single verifier, or if no verifier returns more than one signature
  (`Cosign.AcceptanceNeedsAllExactly`, with `Cosign.TwoSignaturesCountTwice` as an instance; for
  thresholds `Cosign.ThresholdNeedsSignersExactly`).
* Trust roots are found by name, so of several roots with one name only the first has a verifier;
  exactly then acceptance does not mean that every configured root signed
  (`Cosign.DefaultModeNeedsAllRoots`, with `Cosign.HiddenRootNeverSigns` as an instance).
* Which trust data a notary validation searches depends on the order of the delegations' answers
  exactly if one unusable answer allows the base targets, another one does not, and the snapshot lacks
  hashes for some delegation (`Notary.DelegationOrderIrrelevantExactly`; `Notary.FirstFailureDecides`
  is an instance).
* The rule for an image depends on the order of the rules exactly if different rules with a pattern
  tie at the top (`Policy.RuleOrderIrrelevantExactly`, with `Policy.TiedRulesDependOnOrder` as an
  instance).
* `Notary.KeysArePinned` is a remark on the selection routine: it pins no key exactly for the star with
  no trust root configured, and such a validator is rejected when the configuration is loaded
  (internal/validator/notaryv1/notaryv1_validator.go:32).

## Model

| member | source | states |
|---|---|---|
| FanOut.ApplyInv | internal/handler/validation/validation.go:91-132 | every step of any goroutine, of the collector or of cancellation keeps: each message sent is in the channel or received, exactly once, and the collector's verdict fits what it received |
| FanOut.SendNeverBlocks | internal/handler/validation/validation.go:51-132 | in every interleaving a goroutine about to send finds a free slot, whatever the collector did |
| FanOut.CollectorNeverStuck | internal/handler/mutate.go:209-246 | once all goroutines are done, a waiting collector has a message to read or is cancelled; without goroutines that look at the context it always has a message |
| FanOut.TerminalIsDecided | internal/handler/mutate.go:198-246 | a run that cannot go on has all goroutines finished and the collector decided: no deadlock |
| FanOut.RunsTerminate | internal/handler/mutate.go:198-246 | no interleaving of n goroutines is longer than 3n+2 steps |
| FanOut.AcceptedMeansAllGood | internal/handler/mutate.go:206-246 | acceptance: each goroutine was heard exactly once and none reported an error |
| FanOut.RefusalHasACause | internal/handler/mutate.go:209-242 | a refusal comes from a goroutine that reported an error, or from cancellation before all were heard |
| FanOut.VerdictIgnoresSchedule | internal/handler/mutate.go:206-246 | without cancellation, a finished run accepts exactly if no goroutine fails, whatever the schedule |
| FanOut.LoopMatchesRun | internal/handler/mutate.go:209-246 | the receive loop, fed with what a run delivered, decides what the run decided |
| FanOut.BlockedSenders | internal/validator/cosignvalidator/cosign_validator.go:211-226 | with more senders than slots and reads together, exactly the surplus stays blocked when nothing can move any more |
| FanOut.FirstInFirstOut | internal/handler/validation/validation.go:91-132 | what is received and what lies in the channel, together, only ever grows at its end: messages come out in the order they were sent |
| FanOut.LateWorkerStaysSilent | internal/handler/validation/validation.go:91-98 | a goroutine that looks at the context and is still working when it is cancelled never sends, in any continuation |
| Admission.MutateReview | internal/handler/mutate.go:163-292 | for every request and arrival order the whole response and notification: none exactly if reading the objects crashes, and else unreadable objects, updates of an object marked for deletion (`Admission.ReviewedExactly`), first error, timeout with its count, or the patch of the first n results; every denial carries a message |
| Admission.ReviewedExactly | internal/handler/mutate.go:182-197 | a readable request is answered without validation exactly if it is an update whose old object has a deletionTimestamp that is not null in its metadata; every creation and every other update is validated |
| Admission.ObjectsExactly | internal/kubernetes/admission_objects.go:25-48 | the objects can be read exactly if the new one decodes, and for an update the old one too; each comes from its own field, and without an update the old one has no images and no mark |
| Admission.Collect | internal/handler/mutate.go:206-246 | the receive loop stops at the first error or at cancellation with the matching message, and otherwise returns all n results in order |
| Admission.Admit | internal/handler/mutate.go:248-291 | an admission carries the patch of its results, absent if there is nothing to change, and is reported as skipped exactly if all results were |
| Admission.Overlay | internal/handler/mutate.go:74-118 | how alert failures, pod-only mode and detection mode change verdict, patch, message and warnings; given that denials carry a message, each message that is read exists |
| Admission.HandleMutate | internal/handler/mutate.go:70-118 | a response exactly if reading the objects does not crash, and its exact verdict: allowed without a patch for anything but a pod in pod-only mode, and else exactly in detection mode or if the object is valid, all results are in and good, and the receivers of admissions report no error in time; a patch is only sent with every image validated |
| Admission.CrashesExactlyOn | internal/kubernetes/admission_objects.go:25-48 | a request crashes exactly if the old object of an update does, or the new object does and the old one can be read |
| Admission.EmptyControllerIsNotAnswered | internal/kubernetes/workload_object.go:93-105 | creating a replication controller with an empty specification crashes the handler |
| Admission.HandleRun | internal/handler/mutate.go:70-118 | for any run of the validations and any run of the alerts: the response allows in pod-only or detection mode, and else exactly if both runs were accepted; its patch, if any, makes the rewritten object |
| Admission.MutateReviewOfRun | internal/handler/mutate.go:163-292 | for any run of the goroutines: the response allows exactly if the run was accepted, and then its patch makes the rewritten object of the one that was sent |
| Admission.GateDecision | internal/handler/mutate.go:198-246 | for every interleaving: the loop receives all results without error exactly if the run is accepted |
| Admission.ArrivalsComplete | internal/handler/mutate.go:206-246 | in an accepted run each distinct image's result arrived once and without error |
| Admission.AcceptedIffAllGood | internal/handler/mutate.go:206-246 | without cancellation a finished run accepts exactly if the image of every container validates |
| Admission.AdmittedMeansValidated | internal/handler/mutate.go:198-282 | in every accepted run the image of every container was validated without error, and the patch turns the object into the reference rewriting |
| Admission.VerdictAndPatchIgnoreSchedule | internal/handler/mutate.go:198-282 | two complete runs, with different schedules and map iteration orders, agree on the verdict and on the patched object |
| EndToEnd.AdmissionIsPerContainerValidation | internal/handler/mutate.go:198-282 | with a deterministic validator, an accepted request means each container's image passes its own validation without any cache, and the patch is the one those validations give; for every schedule, cache state and arrival order |
| EndToEnd.AdmittedIffEveryContainerPasses | internal/handler/mutate.go:198-246 | without cancellation a finished run accepts exactly if every container's image passes its own validation without any cache |
| EndToEnd.HandleWorkload | internal/handler/mutate.go:70-118 | where nothing is cancelled, the handler allows outside pod-only and detection mode exactly if every container's image passes on its own, without any cache, and every receiver that may fail the request succeeds |
| EndToEnd.StartedValidations | internal/handler/validation/validation.go:51-72 | one validation per distinct image, with exactly its places, and told exactly the images of the old object |
| Validation.PassesExactly | internal/handler/validation/validation.go:91-227 | what passing means: the image parses, a rule and its validator are found, the static validator approves, or an approval applies or else the validator succeeds, and the resulting reference parses |
| EndToEnd.ApprovalsPatchNothing | internal/handler/validation/validation.go:172-200 | a static or automatic approval keeps the reference as written and yields no operation |
| Workload.ConsolidatedContainers | internal/kubernetes/workload_object.go:199-234 | the keys are the images of the workload, and each image gets exactly the places that use it |
| Workload.ImageSet | internal/kubernetes/workload_object.go:236-257 | each image of the workload once, and nothing else |
| Workload.PlacesExact | internal/kubernetes/workload_object.go:199-234 | the places listed for an image are the containers with that image, each once, in ascending order per type |
| Workload.ConsolidationIsPartition | internal/kubernetes/workload_object.go:199-257 | over all images, every container occurs exactly once, and the lists together are as long as the three container lists |
| Workload.DeletedExactly | internal/kubernetes/workload_object.go:62-190 | a decoded object counts as deleted exactly if its metadata has a deletionTimestamp that is present and not null |
| Workload.ManifestDecodes | internal/kubernetes/workload_object.go:62-190 | for each of the eight kinds, a manifest with these images in its pod specification decodes to exactly these lists in this order; the ephemeral containers of pods are read, and those of no other kind |
| Workload.UnsupportedRefused | internal/kubernetes/workload_object.go:62-173 | exactly these eight kinds are known, and an object of any other kind is refused |
| Workload.MisshapenRefused | internal/kubernetes/workload_object.go:62-177 | what is no object, or has metadata or a specification that is none, is refused |
| Workload.WellTypedMeans | internal/kubernetes/workload_object.go:62-177 | the shape that decoding asks for: whatever is found at any prefix of the path is an object or null |
| Workload.ReadableExactly | internal/kubernetes/workload_object.go:62-177 | a list of containers can be read exactly if each is an object or null and its image a text, null or missing; the images are these texts, and empty for the others |
| Workload.CrashesExactly | internal/kubernetes/workload_object.go:93-105 | decoding follows a nil pointer exactly on a well-formed replication controller whose template is missing or null |
| Workload.EmptyControllerCrashes | internal/kubernetes/workload_object.go:93-105 | two such objects |
| Patch.BuildPatch | internal/handler/mutate.go:248-272 | operations, reported images and skipped flag of the nested loops, for any results: an operation is there exactly if some result with mode mutate and a reference that changed lists its place, and there are as many operations as such places |
| Patch.OpsExactly | internal/handler/mutate.go:248-267 | the operations are exactly the replacements of the images at the places of the results whose mode is mutate and whose new reference differs from the old one |
| Patch.PatchSizes | internal/handler/mutate.go:254-267 | one operation per place of such a result, reported with the image as it was written |
| Patch.ApplyOne | internal/handler/mutate.go:256-267 | one operation changes the image of its container and nothing else, for every workload kind |
| Patch.PatchIsRewrite | internal/handler/mutate.go:248-282 | applying all operations, in any order of images, equals rewriting each container on its own, for every workload kind |
| Patch.AfterPatch | internal/handler/mutate.go:248-282 | the patched object decodes, and each of its containers has the new reference if its result has mode mutate and the references differ, and otherwise the image it had |
| Patch.PatchTouchesImagesOnly | internal/handler/mutate.go:248-282 | every location that is no image of a container, and neither holds one nor lies in one, reads as before |
| Patch.RewrittenRuns | internal/handler/mutate.go:255-267 | the patched object decodes to the same containers, each with the image decided for it |
| Validation.ValidateImage | internal/handler/validation/validation.go:76-253 | output and cache after one validation in every case: bad image, no rule, static, approval, cache hit, validated, failed; nothing is sent once the context is done |
| Validation.Resolve | internal/handler/validation/validation.go:137-157 | parsing, rule and validator lookup with their errors, the rule being the most specific one |
| Validation.SubjectExactly | internal/handler/validation/validation.go:137-157 | the rule is the one that governs the full name of the parsed image, and the validator is one of the name in that rule; this fails exactly if parsing or one of the two lookups does |
| Validation.FindValidatorExactly | internal/config/config.go:63-77 | the first validator of the given name, or of the name default if none is given; an error exactly if there is none |
| Validation.ModeExactly | internal/handler/validation/validation.go:162-170 | every mode mutates except insecureValidateOnly |
| Validation.OutputTells | internal/handler/validation/validation.go:120-130 | every output tells the image and the places it was asked about, and under a rule the name of the validator and the mode of that rule |
| Validation.ValidatedOutput | internal/handler/validation/validation.go:202-227 | a failed validation is an error; a good one has the full name as old reference, and repository, tag and validated digest as new one, and is an error exactly if that does not parse |
| Validation.ApplyStatic | internal/handler/validation/validation.go:172-189 | static validators accept the reference as it was written, so that nothing changes, or refuse, without touching the cache |
| Validation.Record | internal/handler/validation/validation.go:202-253 | the verdict becomes the output, and the cache gets the normalised digest, the error if errors are cached, or nothing |
| Validation.Skip | internal/handler/validation/skip.go:27-48 | unchanged approval, then child approval outside pod-only mode, then the cache |
| Validation.ApprovalExactly | internal/handler/validation/skip.go:53-93 | approved exactly if unchanged with that feature on, or a parent's image with that feature on and all kinds blocked; nothing is approved with both off |
| Validation.GetCachedDigest | internal/handler/validation/skip.go:103-131 | a live, decodable entry answers with its error if it has one, else with its non-empty digest; all else is a miss |
| Validation.CacheHitExactly | internal/handler/validation/skip.go:103-131 | an entry as it is written answers with its error if it has one, else with its digest, and counts as a miss exactly if both are empty |
| Validation.ReadsLatestWrite | internal/caching/redis.go:29-43 | after any writes, a reader finds the text of the latest write to its key, exactly while that is younger than the expiry; writes to other keys, older ones, and a disabled cache yield nothing |
| CacheRuns.ApplyInv | internal/handler/validation/validation.go:172-252 | reads, validations, writes, failing caches, expiry and the clock keep every entry and every pending write justified by a logged validation |
| CacheRuns.HitAgrees | internal/handler/validation/validation.go:192-200 | a cache hit gives the verdict, error text and accepted reference of the validation the entry stems from |
| CacheRuns.LiveEntriesAreValidations | internal/handler/validation/validation.go:229-248 | in every reachable state an entry that can be read is younger than the expiry, has exactly one non-empty field, and is the outcome of a validation of its key that was written at the very time the entry is stamped with |
| CacheRuns.CacheRefinesValidator | internal/handler/validation/validation.go:172-252 | with a deterministic validator every finished validation agrees with the one without a cache |
| CacheRuns.CachesAgree | internal/handler/validation/validation.go:172-252 | the same input in two runs with different cache settings gets the same verdict, error and reference |
| CacheRuns.DisabledCacheStaysEmpty | internal/caching/empty.go:18-28 | with an expiry of zero or less no entry ever exists |
| CacheRuns.CachedExactly | internal/handler/validation/validation.go:229-248 | an entry is written exactly for a success with a digest, then holding the normalised digest, or for an error if errors are cached, then holding the reported error |
| CacheRuns.WriteSparesValidation | internal/handler/validation/validation.go:191-248 | once a validation is written to a working cache, any other one of the same reference that looks there is done without asking the validator, exactly while the entry is younger than the expiry |
| CacheRuns.ValidateAlone | internal/handler/validation/validation.go:76-253 | what the method does to its output and to the cache is a run of the step system, so that theorems about all runs are about the method |
| JsonText.ReadEscaped | internal/utils/strings.go:70-81 | reading an escaped string back gives the string, whatever quotes, backslashes and control characters it holds |
| JsonText.EntryRoundTrip | internal/handler/validation/validation.go:240-248 | decoding the formatted entry gives exactly the digest and the error that went in |
| Image.New | internal/image/image.go:22-49 | fails exactly if parsing does; otherwise tag and digest are those of the reference |
| Image.Image.SetDigest | internal/image/image.go:104-110 | the digest is stored with its prefix, and the name becomes repository, tag and that digest |
| Image.NormalisedExactly | internal/image/image.go:104-110 | a bare digest gets the prefix sha256 and a colon; one that has it, and the empty one, stay as they are |
| Image.OverlapIsRepo | internal/image/image.go:41-43 | the overlap of normalised and written reference is the written repository |
| Image.ReferenceRecovery | internal/image/image.go:22-72 | a written reference with digest gives back exactly its tag, and its full name is the normalised repository followed by the unchanged rest |
| Image.TaggedReference | internal/image/image.go:44-72 | without a digest the tag is the identifier, and the full name is repository, colon and tag |
| Image.NameIsFixedPoint | internal/image/image.go:22-72 | if the library reads the full name as the same reference, parsing the full name gives the full name again |
| Image.RecoveredIffSuffix | internal/image/image.go:41-43 | for repositories without colon and at sign: the tag is recovered exactly if the written repository is a suffix of the normalised one |
| Image.DockerHubLosesTag | internal/image/image.go:41-43 | a concrete reference whose tag is not recovered |
| Image.StoredDigestSameName | internal/image/image.go:60-110 | setting a stored digest on a fresh image gives the same full name as the original validation |
| GoStrings.LongestCommonPrefix | internal/utils/strings.go:12-29 | comparing the first and the last string after sorting gives the longest common prefix of all, character widening included; no index is out of range |
| GoStrings.NonAsciiPrefixIsWidened | internal/utils/strings.go:20-22 | two equal strings of one non-ASCII byte, whose common prefix comes out two long |
| GoStrings.BetweenSharesPrefix | internal/utils/strings.go:16-18 | what two strings have in common at the start, every string between them in sort order has too |
| GoStrings.LargerIsLongEnough | internal/utils/strings.go:20-21 | the larger string has a character at every index that is reached |
| GoStrings.EndsDecide | internal/utils/strings.go:12-29 | in a sorted list, where the first and the last string part is where all strings part |
| GoStrings.StringOverlap | internal/utils/strings.go:35-43 | the longest suffix of the one string that is a prefix of the other |
| GoStrings.OverlapIsUnique | internal/utils/strings.go:31-34 | there is only one such string |
| GoStrings.SplitJoins | internal/policy/match.go:26-32 | joining the parts of a split gives the text back, and no part holds a separator |
| Policy.ComponentsInRange | internal/policy/match.go:32-36 | a pattern that matches an image has no more components than the image, so every component looked up exists |
| Policy.GlobStar | internal/config/config.go:95-97 | a star matches any text, slashes included: the rest of the pattern matches some suffix |
| Policy.GlobOne | internal/config/config.go:95-97 | a question mark matches any one character, any other character itself, and the empty pattern nothing but the empty text |
| Policy.MatchesBetweenStars | internal/config/config.go:85-97 | a rule matches exactly as its pattern with a star before and one after it does, whether it already has some or not |
| Policy.LiteralMatchesContained | internal/config/config.go:85-97 | a pattern without wildcards matches exactly the names that contain it |
| Policy.CatchAllMatches | internal/config/config.go:85-97 | the usual catch-all pattern of two stars and a colon matches exactly the names with a colon |
| Policy.NewMatch | internal/policy/match.go:25-39 | the match holds count, lengths and prefix lengths as defined without sorting |
| Policy.Match.Compare | internal/policy/match.go:51-74 | the winner is the argument exactly if it is strictly larger in the lexicographic order on count, prefix lengths and component lengths |
| Policy.MoreSpecificExactly | internal/policy/match.go:51-74 | a matching rule is more specific exactly if it has more components, or as many and shares more with the image at the leftmost component where that differs, or it never differs and the leftmost component of another length is the longer one |
| Policy.SpecificityIsTotalPreorder | internal/policy/match.go:51-74 | more-specific-than is total and transitive on the rules that match one image |
| Policy.MatchingRule | internal/config/config.go:80-110 | the result is the most specific matching rule, the last among equals; it fails exactly if no rule with a non-empty pattern matches. What matching means is said by `Policy.MatchesBetweenStars`, `Policy.GlobStar` and `Policy.GlobOne`, what more specific means by `Policy.MoreSpecificExactly` |
| Policy.EmptyPatternIsLeast | internal/config/config.go:81-102 | the empty start value loses to every rule with a non-empty pattern |
| Policy.MostSpecificExists | internal/config/config.go:84-104 | if any rule matches, one of them is the most specific |
| Policy.RuleOrderIrrelevant | internal/config/config.go:80-110 | without ties, permuting the rules does not change the result, failure included |
| Policy.RuleOrderIrrelevantExactly | internal/config/config.go:80-110 | the result is the same for every order of the rules exactly if the rules at the top are one and the same, or have an empty pattern |
| Policy.TiedRulesDependOnOrder | internal/config/config.go:80-110 | two rules that tie, of which the one written last decides |
| Lists.SetSubstract | internal/utils/list.go:4-21 | the elements of the first list that are not in the second, each once |
| TrustRoots.GetTrustRoots | internal/validator/auth/trust_root.go:34-68 | all roots for the lone star; otherwise the first root of each name in request order, failing exactly if a name is missing or nothing is asked for |
| TrustRoots.FirstNamedExact | internal/validator/auth/trust_root.go:50-57 | the root found for a name is the first one that has it |
| Cosign.ValidateImage | internal/validator/cosignvalidator/cosign_validator.go:178-305 | accepts a digest exactly if the verifiers load, none reports a hard error, the signatures reach the applicable threshold and are at least one, every required root validated, and every payload decodes to that digest; a success says which roots these were: the first of the name for a named root, one per root under the star without required names or with a threshold above their number, and else, unless the star is the one name required, the first root of each required name |
| Cosign.NamedRootVerifier | internal/validator/cosignvalidator/cosign_validator.go:186-209 | a rule that names one trust root, or none, has exactly one verifier: the first root of that name, or of the name default |
| Cosign.NamedRootAcceptsExactly | internal/validator/cosignvalidator/cosign_validator.go:186-296 | such a rule accepts a digest exactly if that root's verifier reports no error and some signature, all its signatures carry the digest, and no other root is required |
| Cosign.RequiredVerifiers | internal/validator/cosignvalidator/cosign_validator.go:186-209 | under the star with required names and no threshold above their number, the i-th verifier is the first root of the i-th name |
| Cosign.Receive | internal/validator/cosignvalidator/cosign_validator.go:222-235 | the receive loop collects all signatures and names, and the remembered errors in order of arrival, and fails exactly on a hard error |
| Cosign.Decide | internal/validator/cosignvalidator/cosign_validator.go:222-305 | the decision on one list of outputs, in both directions |
| Cosign.AcceptedDigestIsUnique | internal/validator/cosignvalidator/cosign_validator.go:288-296 | no two digests can be accepted for the same outputs |
| Cosign.OrderIrrelevant | internal/validator/cosignvalidator/cosign_validator.go:222-296 | any permutation of the outputs accepts the same digests |
| Cosign.DecisionIgnoresSchedule | internal/validator/cosignvalidator/cosign_validator.go:211-305 | in every interleaving of as many verifiers as messages the loop ends, and accepts what the verifiers in configuration order give |
| Cosign.StartedEqualsAwaited | internal/validator/cosignvalidator/cosign_validator.go:186-225 | verifiers started and messages awaited are equally many except for the lone star with other than one root |
| Cosign.StartedEqualsAwaitedByConfig | internal/validator/cosignvalidator/cosign_validator.go:186-225 | they are equally many if no required root is named star |
| Cosign.LoneStarReadsOneMessage | internal/validator/cosignvalidator/cosign_validator.go:186-252 | where the counts differ, one message is read, and it is accepted exactly if it comes from a root named star that signed |
| Cosign.LoneStarDependsOnOrder | internal/validator/cosignvalidator/cosign_validator.go:186-252 | a configuration of two roots where whichever verifier answers first decides |
| Cosign.LoneStarBlocksSenders | internal/validator/cosignvalidator/cosign_validator.go:211-235 | there, all verifiers but two stay blocked on the channel for good, and nothing is ever read exactly if no root is configured |
| Cosign.DefaultVerifiers | internal/validator/cosignvalidator/cosign_validator.go:186-212 | under the star without required names, or with a threshold above their number, there is one verifier per configured root, made of the first root with its name |
| Cosign.DefaultModeNeedsAllRoots | internal/validator/cosignvalidator/cosign_validator.go:186-252 | in the default mode, with at most one signature per verifier, acceptance means every verifier signed this digest, and every configured root did exactly if no root is hidden behind an earlier one of the same name |
| Cosign.HiddenRootNeverSigns | internal/validator/cosignvalidator/cosign_validator.go:186-252 | with two roots of one name a digest is accepted although the second root signed nothing |
| Cosign.AcceptanceNeedsAllExactly | internal/validator/cosignvalidator/cosign_validator.go:237-252 | that acceptance in default mode means every verifier signed holds for all outputs exactly for a single verifier, or where no verifier returns more than one signature |
| Cosign.ThresholdCountsSigners | internal/validator/cosignvalidator/cosign_validator.go:240-252 | under the star, with at most one signature each, acceptance with a threshold means at least that many verifiers signed |
| Cosign.ThresholdNeedsSignersExactly | internal/validator/cosignvalidator/cosign_validator.go:240-262 | that holds for all outputs exactly for a threshold of one, where no verifier returns more than one signature, where all verifiers together cannot reach the threshold, or where as many different names are required, or one that no verifier has |
| Cosign.TwoSignaturesCountTwice | internal/validator/cosignvalidator/cosign_validator.go:244-252 | two signatures of one root reach a threshold of two although the other root signed nothing |
| NotaryRepo.Repo.DownloadBaseTrustData | internal/validator/notaryv1/notaryserver/repo.go:23-78 | succeeds exactly if four usable messages arrive before cancellation, and then the repository is the fold of these messages |
| NotaryRepo.AbsorbedHolds | internal/validator/notaryv1/notaryserver/repo.go:38-75 | after one message per role the repository holds the file and bytes of every message, and nothing else |
| NotaryRepo.DownloadComplete | internal/validator/notaryv1/notaryserver/repo.go:38-77 | after a successful download all base roles and their bytes are there |
| NotaryRepo.DownloadConfluent | internal/validator/notaryv1/notaryserver/repo.go:38-75 | every arrival order leaves the same repository and the same success |
| NotaryRepo.Repo.ValidateRoot | internal/validator/notaryv1/notaryserver/repo.go:81-130 | no error exactly if there are signatures, each key verifies one of them, and root is unexpired |
| NotaryRepo.Repo.ValidateRestOfBase | internal/validator/notaryv1/notaryserver/repo.go:133-181 | no error exactly if targets, snapshot and timestamp are each signed under root's role and unexpired |
| NotaryRepo.Repo.ValidateBaseChecksums | internal/validator/notaryv1/notaryserver/repo.go:185-215 | no error exactly if root and targets match the snapshot's hashes and the snapshot matches the timestamp's |
| NotaryRepo.Repo.ValidateBaseTrustData | internal/validator/notaryv1/notaryserver/repo.go:220-234 | no error exactly if the base roles are valid for the keys |
| NotaryRepo.BaseValidMeans | internal/validator/notaryv1/notaryserver/repo.go:133-234 | base validity spelled out: root is valid for the keys, targets, snapshot and timestamp each signed in their role of root and unexpired, root and targets hashed as in the snapshot, and the snapshot as in the timestamp |
| NotaryRepo.RootValidMeans | internal/validator/notaryv1/notaryserver/repo.go:81-130 | root is valid exactly if it is signed and unexpired, and every key verifies some signature of it |
| NotaryRepo.NoErrorMeansValid | internal/validator/notaryv1/notaryserver/repo.go:325-379 | validating delegations reports nothing exactly if each is present, signed under its role, unexpired and hashed as in the snapshot |
| NotaryRepo.Repo.ValidateDelegations | internal/validator/notaryv1/notaryserver/repo.go:325-379 | the error reported is that of the first delegation that is not valid |
| NotaryRepo.DelegationValidMeans | internal/validator/notaryv1/notaryserver/repo.go:325-379 | a valid delegation is there, unexpired, signed in the role the targets file builds for it, and its bytes match the hash of the snapshot |
| NotaryRepo.Repo.ReceiveDelegations | internal/validator/notaryv1/notaryserver/repo.go:290-315 | the repository and the error after any messages and any moment of cancellation |
| NotaryRepo.Repo.DownloadAndValidateDelegations | internal/validator/notaryv1/notaryserver/repo.go:252-322 | repository and error of the whole phase, with every base role left alone |
| NotaryRepo.NotABaseRole | internal/validator/notaryv1/notaryv1_validator.go:247-252 | no delegation name is the name of a base role |
| NotaryRepo.AbsorbKeepsBase | internal/validator/notaryv1/notaryserver/repo.go:290-315 | messages of delegations change no base file and no base bytes |
| NotaryRepo.DelegationPhaseFramed | internal/validator/notaryv1/notaryserver/repo.go:252-322 | the delegation phase, even if it stops half way, keeps the base roles and therefore their validity |
| NotaryRepo.FirstUnusableDecides | internal/validator/notaryv1/notaryserver/repo.go:290-315 | the receive loop fails exactly if some answer cannot be used, with the error of the first such answer |
| NotaryRepo.DelegationPhaseConfluent | internal/validator/notaryv1/notaryserver/repo.go:290-321 | usable delegations give the same repository and verdict in every arrival order |
| Notary.ToDelegationString | internal/validator/notaryv1/notaryv1_validator.go:247-252 | the name itself if it has the prefix, and otherwise the name behind the prefix, character by character |
| Notary.RolesTellNamesApart | internal/validator/notaryv1/notaryv1_validator.go:247-252 | different names without the prefix are different roles |
| Notary.Delegations | internal/validator/notaryv1/notaryv1_validator.go:137-142 | one role for each delegation the rule lists, in order, or targets/releases alone if it lists none |
| Notary.YieldMeans | internal/validator/notaryv1/notaryv1_validator.go:156-187 | a file yields a digest exactly if it lists that digest for the tag, or for any tag if the image has none, and it is the image's own digest if there is one |
| Notary.SearchTargetsForTag | internal/validator/notaryv1/notaryv1_validator.go:254-269 | the digest of the entry with that name, in any iteration order |
| Notary.SearchTargetsForDigest | internal/validator/notaryv1/notaryv1_validator.go:271-285 | succeeds exactly if some entry has the digest |
| Notary.TrustRootKeys | internal/validator/notaryv1/notaryv1_validator.go:209-245 | returns the keys of the selected trust roots, and fails exactly if selection or parsing does |
| Notary.KeysArePinned | internal/validator/notaryv1/notaryv1_validator.go:209-245 | no key is pinned exactly for the star with no trust root configured |
| Notary.NamedKeyIsPinned | internal/validator/notaryv1/notaryv1_validator.go:209-245 | for a named trust root, or none, the only key is that of the first root of that name, or of the name default |
| Notary.StarPinsAllKeys | internal/validator/notaryv1/notaryv1_validator.go:209-245 | for the star the keys are those of all trust roots, in order |
| Notary.SelectRoles | internal/validator/notaryv1/notaryv1_validator.go:127-154 | the roles that are searched and the repository after the delegation phase, fallback included; which roles these are is said by `Notary.Delegations`, `Notary.SelectedRolesAreValid` and `Notary.NoDelegationsListed` |
| Notary.SelectedRolesAreValid | internal/validator/notaryv1/notaryv1_validator.go:127-154 | the searched roles are the base targets alone or exactly the delegations, each valid, and base validity still holds |
| Notary.HashedDelegationsAreBinding | internal/validator/notaryv1/notaryv1_validator.go:143-153 | if the targets file lists delegations and the snapshot has hashes for all that have to sign, the searched roles are exactly these delegations, so the fallback cannot leave any of them out |
| Notary.NoDelegationsListed | internal/validator/notaryv1/notaryv1_validator.go:127-135 | if the targets file lists no delegations, a rule that names some fails, and any other searches the base targets |
| Notary.SearchedDelegationsAreListed | internal/validator/notaryv1/notaryserver/repo.go:269-288 | delegations are searched only if the targets file lists each of them |
| Notary.Search | internal/validator/notaryv1/notaryv1_validator.go:156-204 | a digest exactly if all searched roles yield that one digest for the image |
| Notary.ValidateImage | internal/validator/notaryv1/notaryv1_validator.go:97-205 | a digest is returned exactly if all stages accept it under the pinned keys |
| Notary.AcceptedMeansChainOfTrust | internal/validator/notaryv1/notaryv1_validator.go:97-205 | a returned digest hangs on a chain: pinned keys each verified a root signature, base roles are signed, unexpired and hashed, each searched role is the base targets or a valid delegation and lists the digest for the image, which is the image's own if it has one; unless the base targets are searched, there is one role for each delegation the rule names, or targets/releases if it names none |
| Notary.BaseFilesAreAnswers | internal/validator/notaryv1/notaryserver/repo.go:23-78 | the base files and bytes such a digest hangs on are those the server sent, and no answer carried an error |
| Notary.DelegationFilesAreAnswers | internal/validator/notaryv1/notaryserver/repo.go:290-315 | so are the files and bytes of the delegations that were searched |
| Notary.ValidatedDigestIsUnique | internal/validator/notaryv1/notaryv1_validator.go:189-204 | no two digests are accepted for the same trust data |
| Notary.BaseOrderIrrelevant | internal/validator/notaryv1/notaryserver/repo.go:38-75 | the arrival order of the base roles does not change what is accepted |
| Notary.FirstUnusableChooses | internal/validator/notaryv1/notaryv1_validator.go:143-153 | the first answer that cannot be used decides between the base targets and failure |
| Notary.DelegationOrderIrrelevant | internal/validator/notaryv1/notaryserver/repo.go:290-315 | the arrival order of usable delegations changes neither the roles searched nor their files |
| Notary.DelegationOrderIrrelevantExactly | internal/validator/notaryv1/notaryv1_validator.go:143-153 | the choice is the same for every arrival order exactly unless delegations are listed, some lack hashes in the snapshot, and one answer allows the base targets while another one does not |
| Notary.FirstFailureDecides | internal/validator/notaryv1/notaryv1_validator.go:143-153 | with one delegation the server does not have and one that does not parse, the order decides between base targets and failure |
| Alert.Config.EvalAndSendNotifications | internal/alert/alerting.go:32-104 | receivers by result, cluster and message fields, and the error for every order of messages and moment of cancellation |
| Alert.Config.Receivers | internal/alert/alerting.go:46-65 | success and skip go to admitRequests, error, timeout and invalid to rejectRequests, and nothing else to anyone |
| Alert.Send | internal/alert/channel.go:40-62 | with both places that write to the channel, a sender puts at most one message there: none exactly if it may fail the request and its context is done, and else nil or its outcome |
| Alert.NilMeansDelivered | internal/alert/alerting.go:67-103 | in every interleaving a nil result means every receiver that may fail the request has finished without error |
| Alert.ErrorHasACause | internal/alert/alerting.go:82-99 | an error means cancellation or a failing receiver that may fail the request |
| Alert.NamedReceiver | internal/alert/alerting.go:82-98 | the error carries the message of the receiver that failed, and its name exactly if the failing message came in at that receiver's turn |
| Alert.WrongReceiverNamed | internal/alert/alerting.go:82-98 | a run in which the second receiver fails and the first one is named |
| Alert.AlertsIgnoreSchedule | internal/alert/alerting.go:67-103 | without cancellation the result depends on the receivers only, not on the schedule |
| Counters.AdmissionMetrics.Handle | internal/handler/mutate.go:24-131 | each request is counted as received once and as admitted or denied once unless it is rejected early or crashes, which are the increments of the step system; it is admitted exactly in pod-only or detection mode or if it is approved, and anything but a JSON POST with a body is rejected |
| Counters.EveryRequestIsAccountedFor | internal/handler/mutate.go:24-131 | at any moment of any interleaving: received = admitted + denied + rejected early + crashed + in flight, and without the crashed ones exactly as long as there are none |
| Counters.ValidationMetrics.Report | internal/handler/validation/validation.go:91-118 | a validation adds one to the total and one to exactly one of the three outcomes, the success total moves with the successful ones, and no other label changes |
| Counters.TotalsAreSums | internal/handler/validation/validation_metrics.go:36-56 | per label, at any moment, successes and errors of the total are the successful, and the failed plus timed out validations, up to those between their two increments |

## Left out

- HTTP, TLS, Redis, registry and Kubernetes API access: the cache is an expiring map that may fail, fetches are messages with a value or an error.
- Cryptography and library routines (signature checks, expiry, hashes, role building, PEM and reference parsing, cosign verification): parameters.
- The notation validator: its logic is in libraries, and it changes the image object it is given.
- Version and rollback checks of trust data: the code has none.
- Fetching trust data: which role is requested from which address; a cancelled download may wait for a message that never comes (internal/validator/notaryv1/notaryserver/repo.go:42-43), so nothing is claimed about when it returns.
- YAML loading and validation, feature flags, credentials, logging, alert templates, charts and scripts: plumbing, or members whose properties would be easy.
- NotaryRepo.Repo.DownloadBaseTrustData: does not model the wait itself; the messages of one download are given in their order of arrival, with the receive at which the context is found done.
- Policy.MatchingRule: patterns of literals, `*` and `?` only; other glob syntax is not modelled, nor is a pattern that does not compile.
- Policy.ComponentsInRange: for the same patterns.
- GoStrings.LongestCommonPrefix: strings are compared as sequences of characters that stand for bytes.
- JsonText.EntryRoundTrip: texts are sequences of Unicode characters; bytes that are not valid UTF-8 are not modelled, and the decoder reads the entries this program writes, not whitespace, other value types or keys in another case.
- Image.ReferenceRecovery: for a repository that is written as a suffix of its normalised name, and either is that name or the name has no colon and no at sign; `Image.RecoveredIffSuffix` says when that fails.
- Image.NameIsFixedPoint: that the parsing library reads the full name as the same reference is a premise.
- Patch.PatchIsRewrite: operations are typed paths and values, not text; the image reference is not escaped in the text the code builds, and how it would be read back is not modelled.
- Workload.ConsolidatedContainers: a workload is its kind, three image lists and the deletion mark; decoding knows the fields that lead to images, their types, and the shape of the metadata, and no other schema.
- CacheRuns.CacheRefinesValidator: for validators that leave the image object unchanged and answer the same for the same reference.
- CacheRuns.CachesAgree: for the same validators.
- EndToEnd.AdmissionIsPerContainerValidation: takes from the parsing library that the empty reference does not parse, and one verdict per reference.
- Validation.ValidateImage: the images of parent objects are given; looking them up is not modelled.
- Cosign.ValidateImage: setting up the library options and its errors are not modelled, and the number of messages is that of the references.
- Cosign.DefaultModeNeedsAllRoots: assumes at most one signature per verifier; `Cosign.AcceptanceNeedsAllExactly` says when that is needed.
- Cosign.ThresholdCountsSigners: under the same assumption; `Cosign.ThresholdNeedsSignersExactly` says when that is needed, where no required name is empty (rejected at load, internal/policy/rule.go:23).
- Cosign.AcceptanceNeedsAllExactly: for outputs in which a verifier that succeeds has a signature, as the library has it.
- Notary.DelegationOrderIrrelevantExactly: for answers that all arrive, and where two requests for the same file get the same answer.
- Notary.AcceptedMeansChainOfTrust: is about the roles that are searched in the end; delegations the fallback drops need not agree.
- Notary.ValidateImage: error texts other than those of delegations are not modelled, as no branch reads them.
- Admission.HandleMutate: writing the response, and a failure to do so, is not modelled.
- Alert.Config.EvalAndSendNotifications: generating and posting a message is one outcome per receiver.
- Counters.AdmissionMetrics.Handle: a decoded review is given by a function; the counters of skipped validations are not modelled.
