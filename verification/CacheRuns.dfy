/**
 Any number of validations running at once against one shared cache, with time passing and entries
 expiring in between. Reading the cache, asking the validator and writing the cache are separate
 steps of each validation; between them anything else may happen.
 */
module CacheRuns {
  import opened Wrappers
  import opened JsonText
  import opened Outputs
  import opened Image
  import opened Validation

  datatype Thread =
    | Asking(input: Input)
    | Validating(input: Input, s: Subject)
    | Storing(input: Input, s: Subject, verdict: Result<string>)
    | Done(input: Input, out: ValidationOutput)

  /** A verdict on a reference went into the cache at this time. */
  datatype Stamped = Stamped(key: string, verdict: Result<string>, at: nat)

  /**
   log: every answer a validator has given, with the reference it was asked about.
   writes: every verdict that was handed to a working cache, and when.
   */
  datatype State = State(
    now: nat,
    items: map<string, Item>,
    threads: seq<Thread>,
    log: set<(string, Result<string>)>,
    writes: set<Stamped>)

  datatype Step =
    | Spawn(input: Input)
    | Read(i: nat, up: bool)
    | Validate(i: nat, verdict: Result<string>)
    | Write(i: nat, works: bool)
    | Tick
    | Expire(key: string)

  const START := State(0, map[], [], {}, {})

  predicate Enabled(env: Env, s: State, step: Step) {
    match step
    case Spawn(_) => true
    case Read(i, _) => i < |s.threads| && s.threads[i].Asking?
    case Validate(i, _) => i < |s.threads| && s.threads[i].Validating?
    case Write(i, _) => i < |s.threads| && s.threads[i].Storing?
    case Tick => true
    case Expire(key) => key in s.items && s.now >= s.items[key].at + env.ttl
  }

  /** The step from the cache read to the next blocking point. */
  ghost function AfterRead(env: Env, input: Input, found: Option<string>): Thread {
    match Settled(env, input)
    case Some(o) => Done(input, Checked(env, o))
    case None =>
      var s := SubjectOf(env, input.image).value;
      match FromCache(input, s, found)
      case Some(o) => Done(input, Checked(env, o))
      case None => Validating(input, s)
  }

  ghost function Apply(env: Env, s: State, step: Step): State
    requires Enabled(env, s, step)
  {
    match step
    case Spawn(input) => s.(threads := s.threads + [Asking(input)])
    case Read(i, up) =>
      var input := s.threads[i].input;
      var found := if up then Lookup(s.items, s.now, env.ttl, input.image) else None;
      s.(threads := s.threads[i := AfterRead(env, input, found)])
    case Validate(i, v) =>
      var t := s.threads[i];
      s.(threads := s.threads[i := Storing(t.input, t.s, v)], log := s.log + {(t.input.image, v)})
    case Write(i, works) =>
      var t := s.threads[i];
      var e := EntryFor(env, t.input, t.s, t.verdict);
      s.(threads := s.threads[i := Done(t.input, Checked(env, AfterValidation(t.input, t.s, t.verdict)))],
      items := if works then Stored(s.items, s.now, env.ttl, t.input.image, e) else s.items,
      writes := if works then s.writes + {Stamped(t.input.image, t.verdict, s.now)} else s.writes)
    case Tick => s.(now := s.now + 1)
    case Expire(key) => s.(items := s.items - {key})
  }

  ghost predicate Run(env: Env, s: State, steps: seq<Step>, t: State)
    decreases |steps|
  {
    if steps == [] then s == t
    else Enabled(env, s, steps[0]) && Run(env, Apply(env, s, steps[0]), steps[1..], t)
  }

  ghost predicate Reachable(env: Env, steps: seq<Step>, t: State) {
    Run(env, START, steps, t)
  }

  // ---------- the invariant ----------

  /** The entry is what a write at its own time stamp put there. */
  ghost predicate Justified(env: Env, writes: set<Stamped>, key: string, item: Item) {
    && SubjectOf(env, key).Success?
    && exists v :: Stamped(key, v, item.at) in writes && Represents(env, key, v, item.text)
  }

  ghost predicate Represents(env: Env, key: string, v: Result<string>, text: string)
    requires SubjectOf(env, key).Success?
  {
    var e := EntryFor(env, Keyed(key), SubjectOf(env, key).value, v);
    e.Some? && text == FormatEntry(e.value.digest, e.value.error)
  }

  /** The entry of a validation depends on nothing but the reference and the verdict. */
  function Keyed(key: string): Input {
    Input([], key, [], [])
  }

  ghost predicate ThreadInv(env: Env, log: set<(string, Result<string>)>, t: Thread) {
    match t
    case Asking(_) => true
    case Validating(input, s) => Settled(env, input).None? && SubjectOf(env, input.image) == Success(s)
    case Storing(input, s, v) =>
      Settled(env, input).None? && SubjectOf(env, input.image) == Success(s) && (input.image, v) in log
    case Done(input, out) =>
      || (Settled(env, input).Some? && out == Uncached(env, input, Failure("")))
      || (Settled(env, input).None? && exists v :: (input.image, v) in log && Agrees(out, Uncached(env, input, v)))
  }

  /** Same verdict, error text and accepted reference; only the remark that it was skipped may differ. */
  predicate Agrees(a: ValidationOutput, b: ValidationOutput) {
    && a.rawImage == b.rawImage && a.idxsTypes == b.idxsTypes
    && a.validator == b.validator && a.mode == b.mode
    && a.error == b.error
    && (a.error.None? ==> a.newImage == b.newImage && a.oldImage == b.oldImage)
  }

  ghost predicate Inv(env: Env, s: State) {
    && ItemsInv(env, s.now, s.items, s.writes)
    && WritesInv(s.log, s.writes)
    && ThreadsInv(env, s.log, s.threads)
  }

  /** Only what a validator has answered is ever written. */
  ghost predicate WritesInv(log: set<(string, Result<string>)>, writes: set<Stamped>) {
    forall w :: w in writes ==> (w.key, w.verdict) in log
  }

  ghost predicate ItemsInv(env: Env, now: nat, items: map<string, Item>, writes: set<Stamped>) {
    forall key :: key in items ==> ItemInv(env, now, key, items[key], writes)
  }

  ghost predicate ItemInv(env: Env, now: nat, key: string, item: Item, writes: set<Stamped>) {
    env.ttl > 0 && item.at <= now && Justified(env, writes, key, item)
  }

  ghost predicate ThreadsInv(env: Env, log: set<(string, Result<string>)>, threads: seq<Thread>) {
    forall i :: 0 <= i < |threads| ==> ThreadInv(env, log, threads[i])
  }

  /** A justified text answers as the validation it stems from does. */
  lemma HitAgrees(env: Env, input: Input, s: Subject, v: Result<string>, text: string)
    requires Settled(env, input).None? && SubjectOf(env, input.image) == Success(s)
    requires Represents(env, input.image, v, text)
    ensures FromCache(input, s, Some(text)).Some?
    ensures Agrees(Checked(env, FromCache(input, s, Some(text)).value), Uncached(env, input, v))
  {
    match v
    case Failure(cause) => FailureHitAgrees(env, input, s, cause, text);
    case Success(digest) => SuccessHitAgrees(env, input, s, digest, text);
  }

  lemma FailureHitAgrees(env: Env, input: Input, s: Subject, cause: string, text: string)
    requires Settled(env, input).None? && SubjectOf(env, input.image) == Success(s)
    requires Represents(env, input.image, Failure(cause), text)
    ensures FromCache(input, s, Some(text)).Some?
    ensures Agrees(Checked(env, FromCache(input, s, Some(text)).value), Uncached(env, input, Failure(cause)))
  {
    EntryRoundTrip("", ErrorText(input, s, cause));
  }

  lemma SuccessHitAgrees(env: Env, input: Input, s: Subject, digest: string, text: string)
    requires Settled(env, input).None? && SubjectOf(env, input.image) == Success(s)
    requires Represents(env, input.image, Success(digest), text)
    ensures FromCache(input, s, Some(text)).Some?
    ensures Agrees(Checked(env, FromCache(input, s, Some(text)).value), Uncached(env, input, Success(digest)))
  {
    EntryRoundTrip(Normalised(digest), "");
    StoredDigestSameName(s.context, s.tag, digest);
  }

  lemma ReadInv(env: Env, s: State, input: Input, up: bool)
    requires ItemsInv(env, s.now, s.items, s.writes) && WritesInv(s.log, s.writes)
    ensures
      var found := if up then Lookup(s.items, s.now, env.ttl, input.image) else None;
      ThreadInv(env, s.log, AfterRead(env, input, found))
  {
    var found := if up then Lookup(s.items, s.now, env.ttl, input.image) else None;
    if Settled(env, input).None? && found.Some? {
      var subject, item := SubjectOf(env, input.image).value, s.items[input.image];
      assert ItemInv(env, s.now, input.image, item, s.writes);
      var v :| Stamped(input.image, v, item.at) in s.writes && Represents(env, input.image, v, found.value);
      assert (input.image, v) in s.log;
      HitAgrees(env, input, subject, v, found.value);
    }
  }

  lemma LogGrows(
    env: Env, log: set<(string, Result<string>)>, more: set<(string, Result<string>)>, threads: seq<Thread>)
    requires ThreadsInv(env, log, threads) && log <= more
    ensures ThreadsInv(env, more, threads)
  {
    forall i | 0 <= i < |threads|
      ensures ThreadInv(env, more, threads[i])
    {
      assert ThreadInv(env, log, threads[i]);
    }
  }

  lemma WritesGrow(env: Env, s: State, more: set<Stamped>)
    requires ItemsInv(env, s.now, s.items, s.writes) && s.writes <= more
    ensures ItemsInv(env, s.now, s.items, more)
  {
    forall key | key in s.items
      ensures ItemInv(env, s.now, key, s.items[key], more)
    {
      assert ItemInv(env, s.now, key, s.items[key], s.writes);
    }
  }

  lemma EntryIgnoresCaller(env: Env, input: Input, s: Subject, v: Result<string>)
    ensures EntryFor(env, Keyed(input.image), s, v) == EntryFor(env, input, s, v)
  {
  }

  /** Writing what a validation leads to keeps every entry justified. */
  lemma WriteInv(env: Env, s: State, input: Input, subject: Subject, v: Result<string>)
    requires ItemsInv(env, s.now, s.items, s.writes)
    requires SubjectOf(env, input.image) == Success(subject)
    ensures
      ItemsInv(env, s.now, Stored(s.items, s.now, env.ttl, input.image, EntryFor(env, input, subject, v)),
               s.writes + {Stamped(input.image, v, s.now)})
  {
    var e, more := EntryFor(env, input, subject, v), s.writes + {Stamped(input.image, v, s.now)};
    WritesGrow(env, s, more);
    if e.Some? && env.ttl > 0 {
      NewItemInv(env, s.now, input, subject, v, more);
    }
  }

  lemma NewItemInv(env: Env, now: nat, input: Input, subject: Subject, v: Result<string>, writes: set<Stamped>)
    requires SubjectOf(env, input.image) == Success(subject) && env.ttl > 0
    requires EntryFor(env, input, subject, v).Some? && Stamped(input.image, v, now) in writes
    ensures
      var e := EntryFor(env, input, subject, v).value;
      ItemInv(env, now, input.image, Item(FormatEntry(e.digest, e.error), now), writes)
  {
    var e := EntryFor(env, input, subject, v).value;
    EntryIgnoresCaller(env, input, subject, v);
    assert Represents(env, input.image, v, FormatEntry(e.digest, e.error));
  }

  lemma Replaced(env: Env, log: set<(string, Result<string>)>, threads: seq<Thread>, i: nat, t: Thread)
    requires ThreadsInv(env, log, threads) && i < |threads| && ThreadInv(env, log, t)
    ensures ThreadsInv(env, log, threads[i := t])
  {
  }

  lemma ApplyInv(env: Env, s: State, step: Step)
    requires Inv(env, s) && Enabled(env, s, step)
    ensures Inv(env, Apply(env, s, step))
  {
    var after := Apply(env, s, step);
    match step
    case Spawn(_) =>
    case Read(i, up) =>
      ReadInv(env, s, s.threads[i].input, up);
      Replaced(env, s.log, s.threads, i, after.threads[i]);
    case Validate(i, v) =>
      LogGrows(env, s.log, after.log, s.threads);
      assert ThreadInv(env, after.log, s.threads[i]);
      Replaced(env, after.log, s.threads, i, after.threads[i]);
    case Write(i, works) => WriteStepInv(env, s, i, works);
    case Tick => TickInv(env, s);
    case Expire(_) =>
  }

  lemma TickInv(env: Env, s: State)
    requires ItemsInv(env, s.now, s.items, s.writes)
    ensures ItemsInv(env, s.now + 1, s.items, s.writes)
  {
    forall key | key in s.items
      ensures ItemInv(env, s.now + 1, key, s.items[key], s.writes)
    {
      assert ItemInv(env, s.now, key, s.items[key], s.writes);
    }
  }

  lemma WriteStepInv(env: Env, s: State, i: nat, works: bool)
    requires Inv(env, s) && Enabled(env, s, Write(i, works))
    ensures Inv(env, Apply(env, s, Write(i, works)))
  {
    var t := s.threads[i];
    assert ThreadInv(env, s.log, t);
    WriteInv(env, s, t.input, t.s, t.verdict);
    var done := Done(t.input, Checked(env, AfterValidation(t.input, t.s, t.verdict)));
    assert done.out == Uncached(env, t.input, t.verdict);
    assert ThreadInv(env, s.log, done);
    Replaced(env, s.log, s.threads, i, done);
  }

  lemma {:induction false} RunInv(env: Env, s: State, steps: seq<Step>, t: State)
    requires Inv(env, s) && Run(env, s, steps, t)
    ensures Inv(env, t)
    decreases |steps|
  {
    if steps != [] {
      ApplyInv(env, s, steps[0]);
      RunInv(env, Apply(env, s, steps[0]), steps[1..], t);
    }
  }

  // ---------- what the cache can be relied on for ----------

  /**
   Whatever a reader can find under a reference was written less than the expiry ago, has exactly
   one non-empty field, and is the outcome of the very validation that was written at its time stamp.
   */
  lemma LiveEntriesAreValidations(env: Env, steps: seq<Step>, t: State, key: string)
    requires Reachable(env, steps, t)
    requires Lookup(t.items, t.now, env.ttl, key).Some?
    ensures t.items[key].at <= t.now < t.items[key].at + env.ttl
    ensures SubjectOf(env, key).Success?
    ensures
      var e := DecodeEntry(Lookup(t.items, t.now, env.ttl, key).value);
      && e.Some?
      && (e.value.digest == "" <==> e.value.error != "")
      && exists v :: Stamped(key, v, t.items[key].at) in t.writes && (key, v) in t.log
                     && EntryFor(env, Keyed(key), SubjectOf(env, key).value, v) == e
  {
    RunInv(env, START, steps, t);
    var item := t.items[key];
    assert ItemInv(env, t.now, key, item, t.writes);
    var v :| Stamped(key, v, item.at) in t.writes && Represents(env, key, v, item.text);
    assert (key, v) in t.log;
    RepresentedText(env, key, v, item.text);
  }

  lemma RepresentedText(env: Env, key: string, v: Result<string>, text: string)
    requires SubjectOf(env, key).Success? && Represents(env, key, v, text)
    ensures
      var e := DecodeEntry(text);
      && e.Some?
      && (e.value.digest == "" <==> e.value.error != "")
      && EntryFor(env, Keyed(key), SubjectOf(env, key).value, v) == e
  {
    var e := EntryFor(env, Keyed(key), SubjectOf(env, key).value, v).value;
    EntryRoundTrip(e.digest, e.error);
  }

  /** The validator gives the same answer whenever it is asked about the same reference. */
  ghost predicate Deterministic(oracle: string -> Result<string>, s: State) {
    forall e :: e in s.log ==> e.1 == oracle(e.0)
  }

  /** With such a validator every finished validation comes out as it does without a cache. */
  lemma CacheRefinesValidator(env: Env, oracle: string -> Result<string>, steps: seq<Step>, t: State, i: nat)
    requires Reachable(env, steps, t) && Deterministic(oracle, t)
    requires i < |t.threads| && t.threads[i].Done?
    ensures Agrees(t.threads[i].out, Uncached(env, t.threads[i].input, oracle(t.threads[i].input.image)))
  {
    RunInv(env, START, steps, t);
    var input, out := t.threads[i].input, t.threads[i].out;
    if Settled(env, input).None? {
      var v :| (input.image, v) in t.log && Agrees(out, Uncached(env, input, v));
      assert (input.image, v).1 == oracle((input.image, v).0);
    }
  }

  /** Two requests for the same input, in different runs and with different caches, get the same answer. */
  lemma CachesAgree(
    env: Env, ttl: int, cacheErrors: bool, oracle: string -> Result<string>,
    steps: seq<Step>, t: State, i: nat, steps': seq<Step>, t': State, j: nat)
    requires Reachable(env, steps, t) && Deterministic(oracle, t) && i < |t.threads| && t.threads[i].Done?
    requires Reachable(env.(ttl := ttl, cacheErrors := cacheErrors), steps', t') && Deterministic(oracle, t')
    requires j < |t'.threads| && t'.threads[j].Done? && t'.threads[j].input == t.threads[i].input
    ensures Agrees(t.threads[i].out, t'.threads[j].out)
  {
    var env', input := env.(ttl := ttl, cacheErrors := cacheErrors), t.threads[i].input;
    CacheRefinesValidator(env, oracle, steps, t, i);
    CacheRefinesValidator(env', oracle, steps', t', j);
    CacheSettingsIrrelevant(env, ttl, cacheErrors, input, oracle(input.image));
  }

  lemma SubjectIgnoresCache(env: Env, ttl: int, cacheErrors: bool, image: string)
    ensures SubjectOf(env, image) == SubjectOf(env.(ttl := ttl, cacheErrors := cacheErrors), image)
  {
  }

  lemma SettledIgnoresCache(env: Env, ttl: int, cacheErrors: bool, input: Input)
    ensures Settled(env, input) == Settled(env.(ttl := ttl, cacheErrors := cacheErrors), input)
  {
    SubjectIgnoresCache(env, ttl, cacheErrors, input.image);
  }

  lemma CheckedIgnoresCache(env: Env, ttl: int, cacheErrors: bool, o: ValidationOutput)
    ensures Checked(env, o) == Checked(env.(ttl := ttl, cacheErrors := cacheErrors), o)
  {
  }

  lemma CacheSettingsIrrelevant(env: Env, ttl: int, cacheErrors: bool, input: Input, v: Result<string>)
    ensures Uncached(env, input, v) == Uncached(env.(ttl := ttl, cacheErrors := cacheErrors), input, v)
  {
    SettledIgnoresCache(env, ttl, cacheErrors, input);
    SubjectIgnoresCache(env, ttl, cacheErrors, input.image);
    if Settled(env, input).Some? {
      CheckedIgnoresCache(env, ttl, cacheErrors, Settled(env, input).value);
    } else {
      CheckedIgnoresCache(env, ttl, cacheErrors, AfterValidation(input, SubjectOf(env, input.image).value, v));
    }
  }

  /** The cache that is always empty: no entry is ever there to be found. */
  lemma DisabledCacheStaysEmpty(env: Env, steps: seq<Step>, t: State)
    requires env.ttl <= 0 && Reachable(env, steps, t)
    ensures t.items == map[]
  {
    RunInv(env, START, steps, t);
  }

  // ---------- what is cached, and for how long ----------

  /** Cached are successes with a digest, and errors if they are to be cached. */
  lemma CachedExactly(env: Env, input: Input, s: Subject, v: Result<string>)
    ensures EntryFor(env, input, s, v).Some? <==> if v.Success? then v.value != "" else env.cacheErrors
    ensures EntryFor(env, input, s, v).Some? && v.Success? ==>
              EntryFor(env, input, s, v).value == CachedEntry(Normalised(v.value), "")
    ensures EntryFor(env, input, s, v).Some? && v.Failure? ==>
              && EntryFor(env, input, s, v).value.digest == ""
              && Some(EntryFor(env, input, s, v).value.error) == AfterValidation(input, s, v).error
  {
  }

  /**
   Once a validation has been written to a working cache, every other one of the same reference that
   looks there before the expiry is done without asking the validator again.
   */
  lemma WriteSparesValidation(env: Env, s: State, i: nat, wait: nat, input: Input)
    requires Inv(env, s) && Enabled(env, s, Write(i, true)) && env.ttl > 0
    requires EntryFor(env, s.threads[i].input, s.threads[i].s, s.threads[i].verdict).Some?
    requires input.image == s.threads[i].input.image && Settled(env, input).None?
    ensures
      var found := Lookup(Apply(env, s, Write(i, true)).items, s.now + wait, env.ttl, input.image);
      && (found.Some? <==> wait < env.ttl)
      && (wait < env.ttl ==> AfterRead(env, input, found).Done?)
  {
    var t := s.threads[i];
    assert ThreadInv(env, s.log, t);
    EntryIgnoresCaller(env, t.input, t.s, t.verdict);
    if wait < env.ttl {
      var text := Apply(env, s, Write(i, true)).items[input.image].text;
      HitAgrees(env, input, t.s, t.verdict, text);
    }
  }

  // ---------- the method is a run ----------

  lemma RunStep(env: Env, s: State, step: Step, rest: seq<Step>, t: State)
    requires Enabled(env, s, step) && Run(env, Apply(env, s, step), rest, t)
    ensures Run(env, s, [step] + rest, t)
  {
    assert ([step] + rest)[1..] == rest;
  }

  /** The steps of one validation that nothing comes in between of. */
  lemma AloneRuns(env: Env, s: State, input: Input, up: bool, works: bool, v: Result<string>)
    returns (steps: seq<Step>, t: State, asked: Thread, out: ValidationOutput)
    ensures Run(env, s, steps, t) && t.threads == s.threads + [Done(input, out)]
    ensures asked == AfterRead(env, input, if up then Lookup(s.items, s.now, env.ttl, input.image) else None)
    ensures
      if asked.Done? then Done(input, out) == asked && t.items == s.items
      else
        && out == Checked(env, AfterValidation(input, asked.s, v))
        && t.items == if works then Stored(s.items, s.now, env.ttl, input.image, EntryFor(env, input, asked.s, v))
                      else s.items
  {
    var first, read;
    first, read, asked := SpawnAndRead(env, s, input, up);
    if asked.Done? {
      steps, t, out := first, read, asked.out;
    } else {
      var rest;
      rest, t, out := AskAndStore(env, read, |s.threads|, works, v);
      RunConcat(env, s, first, read, rest, t);
      steps := first + rest;
    }
  }

  lemma SpawnAndRead(env: Env, s: State, input: Input, up: bool) returns (steps: seq<Step>, t: State, asked: Thread)
    ensures Run(env, s, steps, t) && t.threads == s.threads + [asked] && t.items == s.items && t.now == s.now
    ensures asked == AfterRead(env, input, if up then Lookup(s.items, s.now, env.ttl, input.image) else None)
    ensures (asked.Done? || asked.Validating?) && asked.input == input
  {
    var i := |s.threads|;
    var s1 := Apply(env, s, Spawn(input));
    t := Apply(env, s1, Read(i, up));
    asked := t.threads[i];
    assert Run(env, t, [], t);
    RunStep(env, s1, Read(i, up), [], t);
    steps := [Spawn(input)] + ([Read(i, up)] + []);
    RunStep(env, s, Spawn(input), [Read(i, up)] + [], t);
  }

  lemma {:induction false} RunConcat(env: Env, s: State, a: seq<Step>, m: State, b: seq<Step>, t: State)
    requires Run(env, s, a, m) && Run(env, m, b, t)
    ensures Run(env, s, a + b, t)
    decreases |a|
  {
    if a == [] {
      assert a + b == b;
    } else {
      assert (a + b)[1..] == a[1..] + b;
      RunConcat(env, Apply(env, s, a[0]), a[1..], m, b, t);
    }
  }

  lemma AskAndStore(env: Env, s: State, i: nat, works: bool, v: Result<string>)
    returns (steps: seq<Step>, t: State, out: ValidationOutput)
    requires i < |s.threads| && s.threads[i].Validating?
    ensures Run(env, s, steps, t)
    ensures out == Checked(env, AfterValidation(s.threads[i].input, s.threads[i].s, v))
    ensures t.threads == s.threads[i := Done(s.threads[i].input, out)]
    ensures
      var input, subject := s.threads[i].input, s.threads[i].s;
      t.items == if works then Stored(s.items, s.now, env.ttl, input.image, EntryFor(env, input, subject, v))
                 else s.items
  {
    var s3 := Apply(env, s, Validate(i, v));
    t := Apply(env, s3, Write(i, works));
    out := t.threads[i].out;
    assert Run(env, t, [], t);
    RunStep(env, s3, Write(i, works), [], t);
    steps := [Validate(i, v)] + ([Write(i, works)] + []);
    RunStep(env, s, Validate(i, v), [Write(i, works)] + [], t);
  }

  lemma AfterReadMeans(env: Env, input: Input, found: Option<string>)
    ensures Settled(env, input).Some? ==>
              AfterRead(env, input, found) == Done(input, Checked(env, Settled(env, input).value))
    ensures Settled(env, input).None? ==>
              SubjectOf(env, input.image).Success?
              && var subject := SubjectOf(env, input.image).value;
              AfterRead(env, input, found)
              == match FromCache(input, subject, found)
                 case Some(o) => Done(input, Checked(env, o))
                 case None => Validating(input, subject)
  {
  }

  /** The output and the entries that ValidateImage promises. */
  ghost predicate Promised(
    env: Env, s: State, input: Input, up: bool, works: bool, v: Result<string>,
    out: ValidationOutput, items: map<string, Item>)
  {
    match Settled(env, input)
    case Some(o) => out == Checked(env, o) && items == s.items
    case None =>
      var subject := SubjectOf(env, input.image).value;
      match FromCache(input, subject, if up then Lookup(s.items, s.now, env.ttl, input.image) else None)
      case Some(o) => out == Checked(env, o) && items == s.items
      case None =>
        && out == Checked(env, AfterValidation(input, subject, v))
        && items == if works
                    then Stored(s.items, s.now, env.ttl, input.image, EntryFor(env, input, subject, v))
                    else s.items
  }

  lemma PromiseKept(
    env: Env, s: State, input: Input, up: bool, works: bool, v: Result<string>,
    asked: Thread, out: ValidationOutput, items: map<string, Item>)
    requires asked == AfterRead(env, input, if up then Lookup(s.items, s.now, env.ttl, input.image) else None)
    requires
      if asked.Done? then Done(input, out) == asked && items == s.items
      else
        && out == Checked(env, AfterValidation(input, asked.s, v))
        && items == if works then Stored(s.items, s.now, env.ttl, input.image, EntryFor(env, input, asked.s, v))
                    else s.items
    ensures Promised(env, s, input, up, works, v, out, items)
  {
    AfterReadMeans(env, input, if up then Lookup(s.items, s.now, env.ttl, input.image) else None);
  }

  lemma AlonePromised(env: Env, s: State, input: Input, up: bool, works: bool, v: Result<string>)
    returns (steps: seq<Step>, t: State, out: ValidationOutput)
    ensures Run(env, s, steps, t) && t.threads == s.threads + [Done(input, out)]
    ensures Promised(env, s, input, up, works, v, out, t.items)
  {
    var asked;
    steps, t, asked, out := AloneRuns(env, s, input, up, works, v);
    PromiseKept(env, s, input, up, works, v, asked, out, t.items);
  }

  lemma PromiseIsUnique(
    env: Env, s: State, input: Input, up: bool, works: bool, v: Result<string>,
    a: ValidationOutput, b: ValidationOutput, m: map<string, Item>, n: map<string, Item>)
    requires Promised(env, s, input, up, works, v, a, m) && Promised(env, s, input, up, works, v, b, n)
    ensures a == b && m == n
  {
  }

  /** What ValidateImage does to its output and to the cache, these steps do. */
  method ValidateAlone(
    env: Env, input: Input, cache: Cache, cacheUp: bool, writable: bool, verdict: Result<string>, ghost s: State)
    returns (out: ValidationOutput, ghost steps: seq<Step>, ghost t: State)
    requires cache.ttl == env.ttl && s.items == cache.items && s.now == cache.now
    modifies cache`items
    ensures Run(env, s, steps, t) && t.items == cache.items
    ensures t.threads == s.threads + [Done(input, out)]
  {
    ghost var expected;
    steps, t, expected := AlonePromised(env, s, input, cacheUp, writable, verdict);
    out := Unmixed(env, input, cache, cacheUp, writable, verdict, s);
    PromiseIsUnique(env, s, input, cacheUp, writable, verdict, out, expected, cache.items, t.items);
  }

  method Unmixed(
    env: Env, input: Input, cache: Cache, cacheUp: bool, writable: bool, verdict: Result<string>, ghost s: State)
    returns (out: ValidationOutput)
    requires cache.ttl == env.ttl && s.items == cache.items && s.now == cache.now
    modifies cache`items
    ensures Promised(env, s, input, cacheUp, writable, verdict, out, cache.items)
  {
    var sent := ValidateImage(env, input, cache, cacheUp, writable, verdict, false);
    out := sent.value;
  }
}
