/** Validating one image: policy, approvals, cache, validator, and the check of the result. */
module Validation {
  import opened Wrappers
  import opened GoStrings
  import opened JsonText
  import opened Outputs
  import opened Policy
  import opened Image
  import Workload

  const STATIC := "static"

  /** approve matters for static validators only; the others are asked from outside. */
  datatype Validator = Validator(name: string, vtype: string, approve: bool)

  /** One fixed configuration. ttl is the cache expiry; zero or less means no cache. */
  datatype Env = Env(
    parse: Parser,
    rules: seq<Rule>,
    validators: seq<Validator>,
    unchangedApproval: bool,
    childApproval: bool,
    blockAll: bool,
    cacheErrors: bool,
    ttl: int)

  datatype Input = Input(
    idxsTypes: seq<Workload.IdxType>,
    image: string,
    previousImages: seq<string>,
    parentImages: seq<string>)

  // ---------- what the image alone decides ----------

  function FindValidator(validators: seq<Validator>, key: string): Result<Validator> {
    var name := if key == "" then "default" else key;
    ValidatorNamed(validators, name)
  }

  function ValidatorNamed(validators: seq<Validator>, name: string): Result<Validator> {
    if validators == [] then Failure("validator \"" + name + "\" not found")
    else if validators[0].name == name then Success(validators[0])
    else ValidatorNamed(validators[1..], name)
  }

  /** The first validator of the rule's name, or of the name default if the rule has none. */
  lemma {:induction false} FindValidatorExactly(validators: seq<Validator>, key: string)
    ensures
      var name := if key == "" then "default" else key;
      && (FindValidator(validators, key).Failure? <==> forall i :: 0 <= i < |validators| ==> validators[i].name != name)
      && (FindValidator(validators, key).Success? ==>
            exists i :: 0 <= i < |validators| && FindValidator(validators, key).value == validators[i]
                        && validators[i].name == name && forall j :: 0 <= j < i ==> validators[j].name != name)
  {
    var name := if key == "" then "default" else key;
    if validators != [] && validators[0].name != name {
      FindValidatorExactly(validators[1..], key);
      assert forall i :: 0 < i < |validators| ==> validators[i] == validators[1..][i - 1];
      if FindValidator(validators, key).Success? {
        var rest := validators[1..];
        var i :| 0 <= i < |rest| && FindValidator(rest, key).value == rest[i]
                 && rest[i].name == name && forall j :: 0 <= j < i ==> rest[j].name != name;
        assert validators[i + 1] == rest[i];
      }
    }
  }

  /** Every mode mutates but the one that says not to. */
  lemma ModeExactly(mode: string)
    ensures ModeOf(mode) == if mode == "insecureValidateOnly" then "insecureValidateOnly" else "mutate"
  {
  }

  function ModeOf(mode: string): string {
    if mode == VALIDATE_MODE then VALIDATE_MODE else MUTATE_MODE
  }

  /** An image that parses and is governed by a rule with a known validator. */
  datatype Subject = Subject(context: string, tag: string, digest: string, rule: Rule, validator: Validator) {
    function Name(): string {
      FullName(context, tag, digest)
    }

    function NameWith(d: string): string {
      FullName(context, tag, Normalised(d))
    }
  }

  ghost function SubjectOf(env: Env, image: string): Result<Subject> {
    match env.parse(image)
    case None => Failure("invalid image reference")
    case Some(ref) =>
      var tag, digest := TagOf(image, ref), DigestOf(ref);
      match Governing(env.rules, FullName(ref.context, tag, digest))
      case Failure(e) => Failure(e)
      case Success(rule) =>
        match FindValidator(env.validators, rule.validator)
        case Failure(e) => Failure(e)
        case Success(v) => Success(Subject(ref.context, tag, digest, rule, v))
  }

  /** The rule is looked up by the full name of the image, and the validator by the rule. */
  lemma SubjectExactly(env: Env, image: string)
    ensures env.parse(image).None? ==> SubjectOf(env, image).Failure?
    ensures env.parse(image).Some? ==>
              var ref := env.parse(image).value;
              var name := FullName(ref.context, TagOf(image, ref), DigestOf(ref));
              var rule := Governing(env.rules, name);
              && (SubjectOf(env, image).Success?
                  <==> rule.Success? && exists v :: v in env.validators && v.name == DefaultName(rule.value.validator))
              && (SubjectOf(env, image).Success? ==>
                    var s := SubjectOf(env, image).value;
                    && s.context == ref.context && s.Name() == name && s.rule == rule.value
                    && s.validator in env.validators && s.validator.name == DefaultName(s.rule.validator))
  {
    if env.parse(image).Some? {
      var ref := env.parse(image).value;
      var rule := Governing(env.rules, FullName(ref.context, TagOf(image, ref), DigestOf(ref)));
      if rule.Success? {
        FindValidatorExactly(env.validators, rule.value.validator);
      }
    }
  }

  function DefaultName(validator: string): string {
    if validator == "" then "default" else validator
  }

  // ---------- outputs ----------

  function Blank(input: Input): ValidationOutput {
    ValidationOutput(input.idxsTypes, input.image, "", "", None, "", false, "", "")
  }

  function Base(input: Input, s: Subject): ValidationOutput {
    Blank(input).(validator := s.validator.name, mode := ModeOf(s.rule.with.mode))
  }

  function Refused(input: Input, s: Subject, error: string): ValidationOutput {
    Base(input, s).(error := Some(error))
  }

  function Accepted(input: Input, s: Subject, digest: string): ValidationOutput {
    Base(input, s).(oldImage := s.Name(), newImage := s.NameWith(digest))
  }

  /** Why validation is skipped, and with which outcome. */
  datatype SkipInfo = SkipInfo(reason: string, digest: string, error: Option<string>)

  function Skipped(input: Input, s: Subject, i: SkipInfo): ValidationOutput {
    Accepted(input, s, i.digest).(skipped := true, skipReason := i.reason, error := i.error)
  }

  function StaticDeny(input: Input, s: Subject): string {
    "static deny for image " + input.image + " using rule " + s.rule.pattern
  }

  function ErrorText(input: Input, s: Subject, cause: string): string {
    "error during " + s.validator.vtype + " validation of image " + input.image + ": " + cause
  }

  /** A denial ends with the rule that denies, and the error of a validator with its cause. */
  lemma ErrorsTell(input: Input, s: Subject, cause: string)
    ensures IsSuffix(s.rule.pattern, StaticDeny(input, s)) && IsSuffix(cause, ErrorText(input, s, cause))
  {
  }

  function AfterValidation(input: Input, s: Subject, verdict: Result<string>): ValidationOutput {
    match verdict
    case Success(digest) => Accepted(input, s, digest)
    case Failure(cause) => Refused(input, s, ErrorText(input, s, cause))
  }

  /** The deferred check: an accepted reference must parse. */
  function Checked(env: Env, o: ValidationOutput): ValidationOutput {
    if o.error.None? && env.parse(o.newImage).None?
    then o.(error := Some("validated image reference " + o.newImage + " has invalid format"))
    else o
  }

  // ---------- approvals and the cache ----------

  function Approval(env: Env, input: Input, digest: string): Option<SkipInfo> {
    if env.unchangedApproval && input.image in input.previousImages then
      Some(SkipInfo("unchanged image reference", digest, None))
    else if env.childApproval && env.blockAll && input.image in input.parentImages then
      Some(SkipInfo("automatic approval of child image reference", digest, None))
    else None
  }

  /** Approved exactly if unchanged with that feature on, or a parent's with that one on and all kinds blocked. */
  lemma ApprovalExactly(env: Env, input: Input, digest: string)
    ensures Approval(env, input, digest).Some?
       <==> || (env.unchangedApproval && input.image in input.previousImages)
            || (env.childApproval && env.blockAll && input.image in input.parentImages)
    ensures !env.unchangedApproval && !env.childApproval ==> Approval(env, input, digest).None?
    ensures Approval(env, input, digest).Some? ==>
              Approval(env, input, digest).value.digest == digest && Approval(env, input, digest).value.error.None?
  {
  }

  /** Settled without the cache: bad images, static validators, automatic approvals. */
  ghost function Settled(env: Env, input: Input): Option<ValidationOutput> {
    match SubjectOf(env, input.image)
    case Failure(e) => Some(Blank(input).(error := Some(e)))
    case Success(s) =>
      if s.validator.vtype == STATIC then
        Some(if s.validator.approve then Accepted(input, s, s.digest) else Refused(input, s, StaticDeny(input, s)))
      else match Approval(env, input, s.digest)
        case Some(i) => Some(Skipped(input, s, i))
        case None => None
  }

  /** What a text found in the cache is good for; None is a miss. */
  function CacheHit(found: Option<string>): Option<SkipInfo> {
    match found
    case None => None
    case Some(text) =>
      match DecodeEntry(text)
      case None => None
      case Some(entry) =>
        if entry.error != "" then Some(SkipInfo("cache hit", "", Some(entry.error)))
        else if entry.digest == "" then None
        else Some(SkipInfo("cache hit", entry.digest, None))
  }

  function FromCache(input: Input, s: Subject, found: Option<string>): Option<ValidationOutput> {
    match CacheHit(found)
    case None => None
    case Some(i) => Some(Skipped(input, s, i))
  }

  /** What is cached after a validation, if anything. */
  function EntryFor(env: Env, input: Input, s: Subject, verdict: Result<string>): Option<CachedEntry> {
    match verdict
    case Failure(cause) => if env.cacheErrors then Some(CachedEntry("", ErrorText(input, s, cause))) else None
    case Success(digest) => if Normalised(digest) != "" then Some(CachedEntry(Normalised(digest), "")) else None
  }

  /** The outcome without any cache: the reference the cached runs are measured against. */
  ghost function Uncached(env: Env, input: Input, verdict: Result<string>): ValidationOutput {
    match Settled(env, input)
    case Some(o) => Checked(env, o)
    case None => Checked(env, AfterValidation(input, SubjectOf(env, input.image).value, verdict))
  }

  /** The output tells its input, and for an image under a rule its validator and whether it may be changed. */
  ghost predicate Tells(env: Env, input: Input, o: ValidationOutput) {
    && o.rawImage == input.image && o.idxsTypes == input.idxsTypes
    && (SubjectOf(env, input.image).Success? ==>
          var s := SubjectOf(env, input.image).value;
          && o.validator == s.validator.name
          && o.mode == if s.rule.with.mode == "insecureValidateOnly" then "insecureValidateOnly" else "mutate")
  }

  lemma SettledTells(env: Env, input: Input)
    ensures Settled(env, input).Some? ==> Tells(env, input, Settled(env, input).value)
    ensures Settled(env, input).None? ==> SubjectOf(env, input.image).Success?
  {
  }

  lemma CheckedTells(env: Env, input: Input, o: ValidationOutput)
    requires Tells(env, input, o)
    ensures Tells(env, input, Checked(env, o))
  {
  }

  lemma OutputTells(env: Env, input: Input, verdict: Result<string>)
    ensures Tells(env, input, Uncached(env, input, verdict))
  {
    SettledTells(env, input);
    match Settled(env, input)
    case Some(o) => CheckedTells(env, input, o);
    case None => CheckedTells(env, input, AfterValidation(input, SubjectOf(env, input.image).value, verdict));
  }

  /** What an image that is validated comes out with: its error, or its name with the validated digest. */
  lemma ValidatedOutput(env: Env, input: Input, verdict: Result<string>)
    requires SubjectOf(env, input.image).Success? && Settled(env, input).None?
    ensures
      var o, s := Uncached(env, input, verdict), SubjectOf(env, input.image).value;
      && (verdict.Failure? ==> o.error.Some?)
      && (verdict.Success? ==>
            && o.oldImage == s.Name() && o.newImage == FullName(s.context, s.tag, Normalised(verdict.value))
            && (o.error.None? <==> env.parse(o.newImage).Some?))
  {
  }

  /**
   An image passes exactly if it parses, a rule and its validator are found, the verdict is good, and
   the reference it results in parses again. The verdict is that of a static validator, or else an
   approval, or else what the validator says.
   */
  lemma PassesExactly(env: Env, input: Input, verdict: Result<string>)
    ensures
      var o := Uncached(env, input, verdict);
      o.error.None?
      <==> && SubjectOf(env, input.image).Success? && env.parse(o.newImage).Some?
           && (var v := SubjectOf(env, input.image).value.validator;
               if v.vtype == "static" then v.approve
               else || verdict.Success?
                    || (env.unchangedApproval && input.image in input.previousImages)
                    || (env.childApproval && env.blockAll && input.image in input.parentImages))
  {
    match Settled(env, input)
    case Some(o) =>
      SettledPasses(env, input);
      CheckedPasses(env, o);
    case None =>
      SettledPasses(env, input);
      CheckedPasses(env, AfterValidation(input, SubjectOf(env, input.image).value, verdict));
  }

  lemma CheckedPasses(env: Env, o: ValidationOutput)
    ensures Checked(env, o).newImage == o.newImage
    ensures Checked(env, o).error.None? <==> o.error.None? && env.parse(o.newImage).Some?
  {
  }

  /** What is settled without the validator, and how it ends. */
  lemma SettledPasses(env: Env, input: Input)
    ensures
      var subject, o := SubjectOf(env, input.image), Settled(env, input);
      if subject.Failure? then o.Some? && o.value.error.Some?
      else if subject.value.validator.vtype == "static" then
        o.Some? && (o.value.error.None? <==> subject.value.validator.approve)
      else
        && (o.Some? <==> || (env.unchangedApproval && input.image in input.previousImages)
                         || (env.childApproval && env.blockAll && input.image in input.parentImages))
        && (o.Some? ==> o.value.error.None?)
  {
    if SubjectOf(env, input.image).Success? {
      ApprovalExactly(env, input, SubjectOf(env, input.image).value.digest);
    }
  }

  /** What an entry is good for once it has been written: its error, else its digest, else nothing. */
  lemma CacheHitExactly(digest: string, error: string)
    ensures CacheHit(None).None?
    ensures
      var hit := CacheHit(Some(FormatEntry(digest, error)));
      && (hit.None? <==> digest == "" && error == "")
      && (error != "" ==> hit.Some? && hit.value.error == Some(error))
      && (error == "" && digest != "" ==> hit.Some? && hit.value.error.None? && hit.value.digest == digest)
  {
    EntryRoundTrip(digest, error);
  }

  // ---------- the cache and the method ----------

  /** text, and when it was written. */
  datatype Item = Item(text: string, at: nat)

  function Lookup(items: map<string, Item>, now: nat, ttl: int, key: string): Option<string> {
    if key in items && now < items[key].at + ttl then Some(items[key].text) else None
  }

  /** One text written to the cache, and when. */
  datatype CacheWrite = CacheWrite(key: string, text: string, at: nat)

  /** NewCacher gives the empty cache, which stores nothing, if the expiry is not positive. */
  function Put(items: map<string, Item>, ttl: int, w: CacheWrite): map<string, Item> {
    if ttl > 0 then items[w.key := Item(w.text, w.at)] else items
  }

  function Stored(
    items: map<string, Item>, now: nat, ttl: int, key: string, entry: Option<CachedEntry>): map<string, Item>
  {
    match entry
    case None => items
    case Some(e) => Put(items, ttl, CacheWrite(key, FormatEntry(e.digest, e.error), now))
  }

  /** The cache after these writes, one after the other. */
  function Replay(writes: seq<CacheWrite>, ttl: int): map<string, Item> {
    if writes == [] then map[]
    else Put(Replay(writes[..|writes| - 1], ttl), ttl, writes[|writes| - 1])
  }

  /** The k-th write is the latest one for this key. */
  predicate IsLatest(writes: seq<CacheWrite>, key: string, k: nat) {
    k < |writes| && writes[k].key == key && forall j :: k < j < |writes| ==> writes[j].key != key
  }

  /**
   A reader finds the text of the latest write to its key, exactly while that is younger than the
   expiry; writes to other keys, and older ones, play no part.
   */
  lemma {:induction false} ReadsLatestWrite(writes: seq<CacheWrite>, ttl: int, now: nat, key: string)
    requires forall i :: 0 <= i < |writes| ==> writes[i].at <= now
    ensures Lookup(Replay(writes, ttl), now, ttl, key).Some?
       <==> exists k: nat :: IsLatest(writes, key, k) && now < writes[k].at + ttl
    ensures forall k: nat :: IsLatest(writes, key, k) && now < writes[k].at + ttl ==>
                               Lookup(Replay(writes, ttl), now, ttl, key) == Some(writes[k].text)
  {
    if writes != [] {
      var last := |writes| - 1;
      var front, w := writes[..last], writes[last];
      ReadsLatestWrite(front, ttl, now, key);
      if w.key == key {
        assert forall k: nat :: IsLatest(writes, key, k) <==> k == last;
      } else {
        assert forall k: nat :: IsLatest(writes, key, k) <==> IsLatest(front, key, k);
      }
    }
  }

  class Cache {
    var items: map<string, Item>
    var now: nat
    const ttl: int

    constructor (ttl: int)
      ensures this.ttl == ttl && items == map[] && now == 0
    {
      this.ttl := ttl;
      items, now := map[], 0;
    }

    method Get(key: string) returns (text: Option<string>)
      ensures text == Lookup(items, now, ttl, key)
    {
      if key in items && now < items[key].at + ttl {
        return Some(items[key].text);
      }
      return None;
    }

    method Set(key: string, text: string)
      modifies this`items
      ensures items == Put(old(items), ttl, CacheWrite(key, text, now))
    {
      if ttl > 0 {
        items := items[key := Item(text, now)];
      }
    }
  }

  /**
   The cache is asked if cacheUp, written if writable; verdict is what the validator answers if it
   is asked; done says whether the context is cancelled by the time of sending.
   */
  method ValidateImage(
    env: Env, input: Input, cache: Cache, cacheUp: bool, writable: bool, verdict: Result<string>, done: bool)
    returns (out: Option<ValidationOutput>)
    requires cache.ttl == env.ttl
    modifies cache`items
    ensures out.None? <==> done
    ensures Settled(env, input).Some? ==>
              cache.items == old(cache.items) && (!done ==> out.value == Checked(env, Settled(env, input).value))
    ensures Settled(env, input).None? ==>
              var s := SubjectOf(env, input.image).value;
              var found := if cacheUp then Lookup(old(cache.items), cache.now, env.ttl, input.image) else None;
              match FromCache(input, s, found)
              case Some(o) => cache.items == old(cache.items) && (!done ==> out.value == Checked(env, o))
              case None =>
                && (!done ==> out.value == Checked(env, AfterValidation(input, s, verdict)))
                && cache.items == if writable
                then Stored(old(cache.items), cache.now, env.ttl, input.image, EntryFor(env, input, s, verdict))
                else old(cache.items)
  {
    var o := Assess(env, input, cache, cacheUp, writable, verdict);
    if done {
      return None;
    }
    if o.error.None? {
      var parsed := New(o.newImage, env.parse);
      if parsed == null {
        o := o.(error := Some("validated image reference " + o.newImage + " has invalid format"));
      }
    }
    return Some(o);
  }

  /** The body of ValidateImage, before its deferred block. */
  method Assess(env: Env, input: Input, cache: Cache, cacheUp: bool, writable: bool, verdict: Result<string>)
    returns (o: ValidationOutput)
    requires cache.ttl == env.ttl
    modifies cache`items
    ensures Settled(env, input).Some? ==> cache.items == old(cache.items) && o == Settled(env, input).value
    ensures Settled(env, input).None? ==>
              var s := SubjectOf(env, input.image).value;
              var found := if cacheUp then Lookup(old(cache.items), cache.now, env.ttl, input.image) else None;
              match FromCache(input, s, found)
              case Some(hit) => cache.items == old(cache.items) && o == hit
              case None =>
                && o == AfterValidation(input, s, verdict)
                && cache.items == if writable
                then Stored(old(cache.items), cache.now, env.ttl, input.image, EntryFor(env, input, s, verdict))
                else old(cache.items)
  {
    var resolved, img := Resolve(env, input.image);
    if resolved.Failure? {
      return Blank(input).(error := Some(resolved.error));
    }
    var s := resolved.value;
    if s.validator.vtype == STATIC {
      o := ApplyStatic(env, input, s, img);
      return;
    }
    var skip := Skip(env, img, input, cache, cacheUp);
    if skip.Some? {
      o := Base(input, s);
      o := o.(skipped := true, skipReason := skip.value.reason, error := skip.value.error, oldImage := img.Name());
      img.SetDigest(skip.value.digest);
      o := o.(newImage := img.Name());
      return;
    }
    o := Record(env, input, s, img, cache, writable, verdict);
  }

  /** Parse the image, find its rule and its validator. */
  method Resolve(env: Env, image: string) returns (r: Result<Subject>, img: Image?)
    ensures r == SubjectOf(env, image)
    ensures r.Success? ==> img != null && fresh(img) && Tracks(img, image, r.value)
  {
    img := New(image, env.parse);
    if img == null {
      return Failure("invalid image reference"), null;
    }
    var rule := MatchingRule(env.rules, img.Name());
    if rule.Failure? {
      return Failure(rule.error), img;
    }
    var validator := FindValidator(env.validators, rule.value.validator);
    if validator.Failure? {
      return Failure(validator.error), img;
    }
    return Success(Subject(img.ref.context, img.tag, img.digest, rule.value, validator.value)), img;
  }

  /** The image object as it was parsed. */
  predicate Tracks(img: Image, image: string, s: Subject)
    reads img
  {
    img.original == image && img.ref.context == s.context && img.tag == s.tag && img.digest == s.digest
  }

  /** The digest a reference is written with already is in its stored form. */
  lemma WrittenDigestIsNormal(env: Env, image: string)
    ensures SubjectOf(env, image).Success? ==>
              var s := SubjectOf(env, image).value;
              Normalised(s.digest) == s.digest && s.NameWith(s.digest) == s.Name()
  {
  }

  method ApplyStatic(ghost env: Env, input: Input, s: Subject, img: Image) returns (o: ValidationOutput)
    requires Tracks(img, input.image, s) && SubjectOf(env, input.image) == Success(s)
    modifies img
    ensures o == if s.validator.approve then Accepted(input, s, s.digest) else Refused(input, s, StaticDeny(input, s))
    ensures o.error.None? ==> o.newImage == o.oldImage == s.Name() && !o.Changes()
  {
    WrittenDigestIsNormal(env, input.image);
    o := Base(input, s);
    if s.validator.approve {
      o := o.(oldImage := img.Name());
      img.SetDigest(img.digest);
      o := o.(newImage := img.Name());
    } else {
      o := o.(error := Some("static deny for image " + img.OriginalString() + " using rule " + s.rule.pattern));
    }
  }

  /** Takes the verdict over into the output and into the cache. */
  method Record(
    env: Env, input: Input, s: Subject, img: Image, cache: Cache, writable: bool, verdict: Result<string>)
    returns (o: ValidationOutput)
    requires Tracks(img, input.image, s) && cache.ttl == env.ttl
    modifies img, cache`items
    ensures o == AfterValidation(input, s, verdict)
    ensures cache.items == if writable
                           then Stored(old(cache.items), cache.now, env.ttl, input.image,
                                       EntryFor(env, input, s, verdict))
                           else old(cache.items)
  {
    o := Base(input, s);
    var cacheErr := "";
    match verdict {
      case Failure(cause) =>
        cacheErr := "error during " + s.validator.vtype + " validation of image " + img.OriginalString() + ": " + cause;
        o := o.(error := Some(cacheErr));
      case Success(digest) =>
        o := o.(oldImage := img.Name());
        img.SetDigest(digest);
        o := o.(newImage := img.Name());
    }
    if cacheErr != "" || img.digest != "" {
      if cacheErr != "" {
        if !env.cacheErrors {
          return;
        }
        img.SetDigest("");
      }
      if writable {
        cache.Set(img.OriginalString(), FormatEntry(img.digest, cacheErr));
      }
    }
  }

  method Skip(env: Env, img: Image, input: Input, cache: Cache, cacheUp: bool) returns (r: Option<SkipInfo>)
    requires cache.ttl == env.ttl && img.original == input.image
    ensures r == if Approval(env, input, img.digest).Some? then Approval(env, input, img.digest)
                 else CacheHit(if cacheUp then Lookup(cache.items, cache.now, env.ttl, input.image) else None)
  {
    if env.unchangedApproval {
      var known := Listed(img.original, input.previousImages);
      if known {
        return Some(SkipInfo("unchanged image reference", img.digest, None));
      }
    }
    if env.childApproval && env.blockAll {
      var child := Listed(img.original, input.parentImages);
      if child {
        return Some(SkipInfo("automatic approval of child image reference", img.digest, None));
      }
    }
    r := GetCachedDigest(img, cache, cacheUp);
  }

  method Listed(image: string, images: seq<string>) returns (found: bool)
    ensures found <==> image in images
  {
    for i := 0 to |images|
      invariant image !in images[..i]
    {
      if images[i] == image {
        return true;
      }
    }
    return false;
  }

  method GetCachedDigest(img: Image, cache: Cache, cacheUp: bool) returns (r: Option<SkipInfo>)
    ensures r == CacheHit(if cacheUp then Lookup(cache.items, cache.now, cache.ttl, img.original) else None)
  {
    if !cacheUp {
      return None;
    }
    var val := cache.Get(img.original);
    if val.None? {
      return None;
    }
    var cached := DecodeEntry(val.value);
    if cached.None? {
      return None;
    }
    if cached.value.error != "" {
      return Some(SkipInfo("cache hit", "", Some(cached.value.error)));
    }
    if cached.value.digest == "" {
      return None;
    }
    return Some(SkipInfo("cache hit", cached.value.digest, None));
  }
}
