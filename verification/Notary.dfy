/** Validation with a notary server: from pinned root keys to the digest of an image. */
module Notary {
  import opened Wrappers
  import opened Distinct
  import opened GoStrings
  import opened TrustRoots
  import opened Policy
  import opened NotaryRepo

  const ACQUIRING := "error acquiring trust data"

  /** The role for a delegation as a rule names it: that name itself, or the name behind the prefix. */
  predicate Stands(role: string, name: string) {
    if IsPrefix("targets/", name) then role == name
    else |role| == 8 + |name| && role[..8] == "targets/" && role[8..] == name
  }

  /** Different names without the prefix are different roles. */
  lemma RolesTellNamesApart(a: string, b: string)
    requires !IsPrefix("targets/", a) && !IsPrefix("targets/", b)
    requires ToDelegationString(a) == ToDelegationString(b)
    ensures a == b
  {
    assert ToDelegationString(a)[8..] == a && ToDelegationString(b)[8..] == b;
  }

  function ToDelegationString(delegation: string): (r: string)
    ensures IsDelegation(r) && Stands(r, delegation)
  {
    if IsPrefix("targets/", delegation) then delegation else "targets/" + delegation
  }

  /** The delegations that have to sign: those of the rule, or the one called releases. */
  function Delegations(args: RuleOptions): (names: seq<string>)
    ensures |names| == if args.delegations == [] then 1 else |args.delegations|
    ensures forall i :: 0 <= i < |names| ==> IsDelegation(names[i])
    ensures args.delegations == [] ==> names == ["targets/releases"]
    ensures args.delegations != [] ==> forall i :: 0 <= i < |names| ==> Stands(names[i], args.delegations[i])
  {
    assert ToDelegationString("releases") == "targets/releases" by {
      assert "releases"[..8][0] == 'r' && "targets/"[0] == 't';
    }
    if args.delegations == [] then [ToDelegationString("releases")]
    else seq(|args.delegations|, i requires 0 <= i < |args.delegations| => ToDelegationString(args.delegations[i]))
  }

  // ---------- looking up an image in one file ----------

  /** Tag and digest of the image; either may be empty. */
  datatype Identifier = Identifier(tag: string, digest: string)

  function Digest(hex: string): string {
    "sha256:" + hex
  }

  /** The digest the file vouches for. */
  function Yield(file: TargetsFile, id: Identifier): Option<string> {
    if id.tag == "" then
      if exists tag :: tag in file.files && Digest(file.files[tag]) == id.digest then Some(id.digest) else None
    else if id.tag !in file.files then None
    else if id.digest != "" && id.digest != Digest(file.files[id.tag]) then None
    else Some(Digest(file.files[id.tag]))
  }

  /** The file lists this digest under the image's tag, or for an image without tag at all. */
  predicate Lists(file: TargetsFile, id: Identifier, digest: string) {
    && (id.tag != "" ==> id.tag in file.files && digest == "sha256:" + file.files[id.tag])
    && (id.tag == "" ==> exists tag :: tag in file.files && "sha256:" + file.files[tag] == digest)
    && (id.digest != "" || id.tag == "" ==> digest == id.digest)
  }

  lemma YieldMeans(file: TargetsFile, id: Identifier, digest: string)
    ensures Yield(file, id) == Some(digest) <==> Lists(file, id, digest)
  {
  }

  /** The entries are visited in an arbitrary order. */
  method SearchTargetsForTag(file: TargetsFile, tag: string) returns (r: Result<string>)
    ensures r.Success? <==> tag in file.files
    ensures r.Success? ==> r.value == "sha256:" + file.files[tag] == Digest(file.files[tag])
  {
    var keys := file.files.Keys;
    while keys != {}
      invariant keys <= file.files.Keys
      invariant tag in file.files ==> tag in keys
      decreases keys
    {
      var key :| key in keys;
      keys := keys - {key};
      if key != tag {
        continue;
      }
      return Success(Digest(file.files[key]));
    }
    return Failure("no tag found in targets");
  }

  method SearchTargetsForDigest(file: TargetsFile, digest: string) returns (r: Result<string>)
    ensures r == if exists tag :: tag in file.files && Digest(file.files[tag]) == digest
                 then Success(digest) else Failure("no digest found in targets")
  {
    var keys := file.files.Keys;
    while keys != {}
      invariant keys <= file.files.Keys
      invariant forall tag :: tag in file.files && tag !in keys ==> Digest(file.files[tag]) != digest
      decreases keys
    {
      var key :| key in keys;
      keys := keys - {key};
      var targetDigest := Digest(file.files[key]);
      if targetDigest == digest {
        return Success(targetDigest);
      }
    }
    return Failure("no digest found in targets");
  }

  // ---------- choosing the files ----------

  /** The roles to search, and the repository once they are there. */
  datatype Selection = Selection(used: seq<string>, s: RepoState)

  /** Which roles ValidateImage searches; None if it gives up. */
  function Select(tuf: Tuf, s: RepoState, args: RuleOptions, msgs: seq<TrustData>, cutoff: nat): Option<Selection>
    requires Loaded(s)
    requires |msgs| >= |Delegations(args)| || |msgs| >= cutoff
    requires forall m :: m in msgs ==> IsDelegation(m.role)
  {
    if !HasDelegations(s) then
      if args.delegations == [] then Some(Selection([TARGETS], s)) else None
    else
      var names := Delegations(args);
      var o := DelegationPhase(tuf, s, names, msgs, cutoff);
      DelegationPhaseFramed(tuf, s, names, msgs, cutoff, []);
      if o.err.None? then Some(Selection(names, o.s))
      else if Contains(o.err.value, ACQUIRING) && !HasDelegationHashes(o.s, names) then Some(Selection([TARGETS], o.s))
      else None
  }

  /** A role that may vouch for an image: the base targets, or a validated delegation. */
  predicate Vouches(tuf: Tuf, s: RepoState, role: string, id: Identifier, digest: string)
    requires Loaded(s)
  {
    && (role == TARGETS || (IsDelegation(role) && DelegationValid(tuf, s, role)))
    && Lists(s.targets[role].value, id, digest)
  }

  /** The searched roles are the base targets alone, or exactly the delegations, each of them valid. */
  lemma SelectedRolesAreValid(
    tuf: Tuf, s: RepoState, args: RuleOptions, msgs: seq<TrustData>, cutoff: nat, keys: seq<string>)
    requires Loaded(s)
    requires |msgs| >= |Delegations(args)| || |msgs| >= cutoff
    requires forall m :: m in msgs ==> IsDelegation(m.role)
    requires Select(tuf, s, args, msgs, cutoff).Some?
    ensures
      var sel := Select(tuf, s, args, msgs, cutoff).value;
      && SameBase(s, sel.s) && Loaded(sel.s)
      && (BaseValid(tuf, sel.s, keys) <==> BaseValid(tuf, s, keys))
      && (|| sel.used == [TARGETS]
          || (sel.used == Delegations(args) && forall r :: r in sel.used ==> DelegationValid(tuf, sel.s, r)))
  {
    if HasDelegations(s) {
      var names := Delegations(args);
      var o := DelegationPhase(tuf, s, names, msgs, cutoff);
      DelegationPhaseFramed(tuf, s, names, msgs, cutoff, keys);
      if o.err.None? {
        PhaseWithoutError(tuf, s, names, msgs, cutoff);
      }
    }
  }

  /** The delegation phase reports no error only if every delegation is listed and valid. */
  lemma PhaseWithoutError(tuf: Tuf, s: RepoState, names: seq<string>, msgs: seq<TrustData>, cutoff: nat)
    requires Loaded(s)
    requires |msgs| >= |names| || |msgs| >= cutoff
    requires forall m :: m in msgs ==> IsDelegation(m.role)
    requires DelegationPhase(tuf, s, names, msgs, cutoff).err.None?
    ensures
      var t := DelegationPhase(tuf, s, names, msgs, cutoff).s;
      Loaded(t) && forall d :: d in names ==> DelegationValid(tuf, t, d)
  {
    DelegationPhaseFramed(tuf, s, names, msgs, cutoff, []);
    NoErrorMeansValid(tuf, DelegationPhase(tuf, s, names, msgs, cutoff).s, names);
  }

  /**
   If the targets file lists delegations and the snapshot has hashes for all that have to sign, none
   of them can be left out: the searched roles are these delegations.
   */
  lemma HashedDelegationsAreBinding(tuf: Tuf, s: RepoState, args: RuleOptions, msgs: seq<TrustData>, cutoff: nat)
    requires Loaded(s) && s.targets["targets"].value.roles != []
    requires forall d :: d in Delegations(args) ==> d in s.snapshot.value.hashes
    requires |msgs| >= |Delegations(args)| || |msgs| >= cutoff
    requires forall m :: m in msgs ==> IsDelegation(m.role)
    requires Select(tuf, s, args, msgs, cutoff).Some?
    ensures Select(tuf, s, args, msgs, cutoff).value.used == Delegations(args)
  {
    DelegationPhaseFramed(tuf, s, Delegations(args), msgs, cutoff, []);
  }

  /** If the targets file lists no delegations, a rule that names some fails, and any other searches it alone. */
  lemma NoDelegationsListed(tuf: Tuf, s: RepoState, args: RuleOptions, msgs: seq<TrustData>, cutoff: nat)
    requires Loaded(s) && s.targets["targets"].value.roles == []
    requires |msgs| >= |Delegations(args)| || |msgs| >= cutoff
    requires forall m :: m in msgs ==> IsDelegation(m.role)
    ensures Select(tuf, s, args, msgs, cutoff) ==
            if args.delegations == [] then Some(Selection(["targets"], s)) else None
  {
  }

  // ---------- the whole validation ----------

  /** The keys of the trust roots the rule names, all of them parsed. */
  ghost predicate PinnedKeys(
    trustRoot: string, roots: seq<TrustRoot>, parseKey: string -> Option<string>, keys: seq<string>)
  {
    exists found: seq<TrustRoot> ::
      && Answers([trustRoot], roots, true, Success(found))
      && |keys| == |found|
      && forall i :: 0 <= i < |found| ==> parseKey(found[i].key) == Some(keys[i])
  }

  lemma PinnedKeysAreUnique(
    trustRoot: string, roots: seq<TrustRoot>, parseKey: string -> Option<string>, a: seq<string>, b: seq<string>)
    requires PinnedKeys(trustRoot, roots, parseKey, a) && PinnedKeys(trustRoot, roots, parseKey, b)
    ensures a == b
  {
    var f: seq<TrustRoot> :| Answers([trustRoot], roots, true, Success(f)) && |a| == |f|
                             && forall i :: 0 <= i < |f| ==> parseKey(f[i].key) == Some(a[i]);
    SelectionIsUnique(trustRoot, roots, f);
    assert forall i :: 0 <= i < |a| ==> parseKey(f[i].key) == Some(a[i]) == Some(b[i]);
  }

  /** No key is pinned exactly if all trust roots are asked for and none is configured. */
  lemma KeysArePinned(trustRoot: string, roots: seq<TrustRoot>, parseKey: string -> Option<string>, keys: seq<string>)
    requires PinnedKeys(trustRoot, roots, parseKey, keys)
    ensures keys == [] <==> trustRoot == "*" && roots == []
  {
    var found: seq<TrustRoot> :| Answers([trustRoot], roots, true, Success(found)) && |keys| == |found|;
    assert Requested([trustRoot], true) == ["*"] <==> trustRoot == "*";
  }

  /** One trust root that is named, or the one called default, gives one key: that of the first of its name. */
  lemma NamedKeyIsPinned(
    trustRoot: string, roots: seq<TrustRoot>, parseKey: string -> Option<string>, keys: seq<string>)
    requires trustRoot != "*" && PinnedKeys(trustRoot, roots, parseKey, keys)
    ensures
      var root := FirstNamed(roots, if trustRoot == "" then "default" else trustRoot);
      root.Some? && |keys| == 1 && parseKey(root.value.key) == Some(keys[0])
  {
    var found: seq<TrustRoot> :| Answers([trustRoot], roots, true, Success(found)) && |keys| == |found|
                                 && forall i :: 0 <= i < |found| ==> parseKey(found[i].key) == Some(keys[i]);
  }

  /** The star pins the keys of all trust roots, in their order. */
  lemma StarPinsAllKeys(roots: seq<TrustRoot>, parseKey: string -> Option<string>, keys: seq<string>)
    requires PinnedKeys("*", roots, parseKey, keys)
    ensures |keys| == |roots| && forall i :: 0 <= i < |roots| ==> parseKey(roots[i].key) == Some(keys[i])
  {
    var found: seq<TrustRoot> :| Answers(["*"], roots, true, Success(found)) && |keys| == |found|
                                 && forall i :: 0 <= i < |found| ==> parseKey(found[i].key) == Some(keys[i]);
  }

  lemma SelectionIsUnique(trustRoot: string, roots: seq<TrustRoot>, found: seq<TrustRoot>)
    requires Answers([trustRoot], roots, true, Success(found))
    ensures forall other: seq<TrustRoot> :: Answers([trustRoot], roots, true, Success(other)) ==> other == found
  {
    var names := Requested([trustRoot], true);
    forall other: seq<TrustRoot> | Answers([trustRoot], roots, true, Success(other))
      ensures other == found
    {
      if names != ["*"] {
        assert forall i :: 0 <= i < |names| ==> FirstNamed(roots, names[i]) == Some(found[i]) && found[i] == other[i];
      }
    }
  }

  method TrustRootKeys(trustRoot: string, roots: seq<TrustRoot>, parseKey: string -> Option<string>)
    returns (r: Result<seq<string>>)
    ensures r.Success? ==> PinnedKeys(trustRoot, roots, parseKey, r.value)
    ensures r.Failure? ==> forall keys :: !PinnedKeys(trustRoot, roots, parseKey, keys)
  {
    var trs := GetTrustRoots([trustRoot], roots, true);
    if trs.Failure? {
      return Failure("error getting keys: " + trs.error);
    }
    SelectionIsUnique(trustRoot, roots, trs.value);
    var keys: seq<string> := [];
    for i := 0 to |trs.value|
      invariant |keys| == i
      invariant forall j :: 0 <= j < i ==> parseKey(trs.value[j].key) == Some(keys[j])
    {
      match parseKey(trs.value[i].key)
      case None => return Failure("error decoding public key " + trs.value[i].name);
      case Some(key) => keys := keys + [key];
    }
    return Success(keys);
  }

  /** One answer per base role, unless the context is found done before they are all in. */
  ghost predicate BaseArrivals(msgs: seq<TrustData>, cutoff: nat) {
    OnePerBaseRole(msgs) || (cutoff <= |msgs| < 4)
  }

  /** The answers to the requested delegations. */
  predicate DelegationArrivals(args: RuleOptions, msgs: seq<TrustData>, cutoff: nat) {
    && (|msgs| >= |Delegations(args)| || |msgs| >= cutoff)
    && forall m :: m in msgs ==> m.role in Delegations(args)
  }

  /** What the network and the scheduler contribute to one validation. */
  datatype World = World(client: bool, base: seq<TrustData>, baseCutoff: nat, extra: seq<TrustData>, extraCutoff: nat)

  ghost predicate Possible(args: RuleOptions, w: World) {
    BaseArrivals(w.base, w.baseCutoff) && DelegationArrivals(args, w.extra, w.extraCutoff)
  }

  ghost predicate Downloaded(tuf: Tuf, w: World) {
    w.client && w.baseCutoff >= 4 && OnePerBaseRole(w.base) && AllUsable(tuf, w.base)
  }

  /** The repository the base download leaves. */
  ghost function BaseRepo(tuf: Tuf, w: World): (s: RepoState)
    requires Downloaded(tuf, w)
    ensures Loaded(s)
  {
    DownloadComplete(tuf, w.base);
    AbsorbAll(tuf, EMPTY, w.base)
  }

  ghost function Chosen(tuf: Tuf, args: RuleOptions, w: World): Option<Selection>
    requires Possible(args, w) && Downloaded(tuf, w)
  {
    assert forall m :: m in w.extra ==> IsDelegation(m.role);
    Select(tuf, BaseRepo(tuf, w), args, w.extra, w.extraCutoff)
  }

  /** All stages succeed with these keys, and every searched role yields the digest. */
  ghost predicate Validates(tuf: Tuf, args: RuleOptions, w: World, keys: seq<string>, id: Identifier, digest: string)
    requires Possible(args, w)
  {
    && BaseAccepted(tuf, w, keys)
    && Chosen(tuf, args, w).Some?
    && AllYield(Chosen(tuf, args, w).value.s, Chosen(tuf, args, w).value.used, id, digest)
  }

  function Found(s: RepoState, role: string, id: Identifier): Option<string> {
    if role in s.targets && s.targets[role].Some? then Yield(s.targets[role].value, id) else None
  }

  ghost predicate AllYield(s: RepoState, used: seq<string>, id: Identifier, digest: string) {
    forall r :: r in used ==> Found(s, r, id) == Some(digest)
  }

  /** The digest all searched roles agree on, if there is one. */
  method Search(s: RepoState, used: seq<string>, id: Identifier) returns (r: Result<string>)
    requires used != [] && forall role :: role in used ==> role in s.targets && s.targets[role].Some?
    ensures r.Success? ==> AllYield(s, used, id, r.value)
    ensures r.Failure? ==> forall d :: !AllYield(s, used, id, d)
  {
    var digests, found := YieldEach(s, used, id);
    if digests.Failure? {
      MissingYield(s, used, id);
      return Failure(digests.error);
    }
    if |digests.value| != 1 {
      Disagreement(s, used, id, found);
      return Failure("more than one digest found");
    }
    var key :| key in digests.value;
    Agreement(found, key);
    SameYield(s, used, id, found, key);
    return Success(key);
  }

  /** The search loop: the different digests, found being what each role yields. */
  method YieldEach(s: RepoState, used: seq<string>, id: Identifier)
    returns (r: Result<set<string>>, ghost found: seq<string>)
    requires forall role :: role in used ==> role in s.targets && s.targets[role].Some?
    ensures r.Success? ==> |found| == |used| && r.value == Elements(found)
    ensures r.Success? ==> forall j :: 0 <= j < |used| ==> Found(s, used[j], id) == Some(found[j])
    ensures r.Failure? ==> exists j :: 0 <= j < |used| && Found(s, used[j], id) == None
  {
    var digests: set<string> := {};
    found := [];
    for i := 0 to |used|
      invariant |found| == i && digests == Elements(found)
      invariant forall j :: 0 <= j < i ==> Found(s, used[j], id) == Some(found[j])
    {
      var digest := SearchRole(s, used, i, id);
      if digest.Failure? {
        return Failure(digest.error), found;
      }
      digests := digests + {digest.value};
      found := found + [digest.value];
    }
    return Success(digests), found;
  }

  method SearchRole(s: RepoState, used: seq<string>, i: nat, id: Identifier) returns (r: Result<string>)
    requires i < |used| && forall role :: role in used ==> role in s.targets && s.targets[role].Some?
    ensures Found(s, used[i], id) == if r.Success? then Some(r.value) else None
  {
    assert used[i] in used;
    r := SearchOne(s.targets[used[i]].value, id);
  }

  lemma MissingYield(s: RepoState, used: seq<string>, id: Identifier)
    requires exists j :: 0 <= j < |used| && Found(s, used[j], id) == None
    ensures forall d :: !AllYield(s, used, id, d)
  {
    var j :| 0 <= j < |used| && Found(s, used[j], id) == None;
    assert used[j] in used;
  }

  lemma SameYield(s: RepoState, used: seq<string>, id: Identifier, found: seq<string>, key: string)
    requires |found| == |used| && forall j :: 0 <= j < |used| ==> Found(s, used[j], id) == Some(found[j])
    requires forall j :: 0 <= j < |found| ==> found[j] == key
    ensures AllYield(s, used, id, key)
  {
    forall role | role in used
      ensures Found(s, role, id) == Some(key)
    {
      var j :| 0 <= j < |used| && used[j] == role;
    }
  }

  lemma Agreement(found: seq<string>, key: string)
    requires |Elements(found)| == 1 && key in found
    ensures forall j :: 0 <= j < |found| ==> found[j] == key
  {
    forall j | 0 <= j < |found|
      ensures found[j] == key
    {
      assert {key, found[j]} <= Elements(found);
      Subset({key, found[j]}, Elements(found));
    }
  }

  lemma Disagreement(s: RepoState, used: seq<string>, id: Identifier, found: seq<string>)
    requires |found| == |used| > 0 && |Elements(found)| != 1
    requires forall j :: 0 <= j < |used| ==> Found(s, used[j], id) == Some(found[j])
    ensures forall d :: !AllYield(s, used, id, d)
  {
    assert found[0] in found;
    assert (forall j :: 0 <= j < |found| ==> found[j] == found[0]) ==> Elements(found) == {found[0]};
    var k :| 0 <= k < |found| && found[k] != found[0];
    assert used[0] in used && used[k] in used;
  }

  method SearchOne(file: TargetsFile, id: Identifier) returns (r: Result<string>)
    ensures Yield(file, id) == if r.Success? then Some(r.value) else None
  {
    if id.tag != "" {
      r := SearchTargetsForTag(file, id.tag);
      if r.Success? && id.digest != "" && id.digest != r.value {
        return Failure("digest does not match given digest");
      }
    } else {
      r := SearchTargetsForDigest(file, id.digest);
    }
  }

  ghost predicate BaseAccepted(tuf: Tuf, w: World, keys: seq<string>) {
    Downloaded(tuf, w) && BaseValid(tuf, BaseRepo(tuf, w), keys)
  }

  /** The first stages: a repository with valid base roles, or nothing. w.client: the client could be created. */
  method LoadBase(tuf: Tuf, args: RuleOptions, roots: seq<TrustRoot>, parseKey: string -> Option<string>, w: World)
    returns (repo: Repo?)
    requires BaseArrivals(w.base, w.baseCutoff)
    ensures repo != null ==>
              && fresh(repo) && Downloaded(tuf, w) && repo.State() == BaseRepo(tuf, w)
              && exists keys :: PinnedKeys(args.trustRoot, roots, parseKey, keys) && BaseAccepted(tuf, w, keys)
    ensures repo == null ==>
              forall keys :: PinnedKeys(args.trustRoot, roots, parseKey, keys) ==> !BaseAccepted(tuf, w, keys)
  {
    if !w.client {
      return null;
    }
    repo := new Repo();
    var err := repo.DownloadBaseTrustData(tuf, w.base, w.baseCutoff);
    assert OnePerBaseRole(w.base) ==> w.base[..4] == w.base;
    if err.Some? {
      return null;
    }
    DownloadComplete(tuf, w.base);
    var rootKeys := TrustRootKeys(args.trustRoot, roots, parseKey);
    if rootKeys.Failure? {
      return null;
    }
    err := repo.ValidateBaseTrustData(tuf, rootKeys.value);
    forall other | PinnedKeys(args.trustRoot, roots, parseKey, other)
      ensures other == rootKeys.value
    {
      PinnedKeysAreUnique(args.trustRoot, roots, parseKey, rootKeys.value, other);
    }
    if err.Some? {
      return null;
    }
    assert BaseAccepted(tuf, w, rootKeys.value);
  }

  method ValidateImage(
    tuf: Tuf, id: Identifier, args: RuleOptions, roots: seq<TrustRoot>, parseKey: string -> Option<string>, w: World)
    returns (r: Result<string>)
    requires Possible(args, w)
    ensures r.Success? ==>
              exists keys ::
                PinnedKeys(args.trustRoot, roots, parseKey, keys) && Validates(tuf, args, w, keys, id, r.value)
    ensures r.Failure? ==>
              forall keys, d ::
                PinnedKeys(args.trustRoot, roots, parseKey, keys) ==> !Validates(tuf, args, w, keys, id, d)
  {
    var repo := LoadBase(tuf, args, roots, parseKey, w);
    if repo == null {
      return Failure("error validating trust data");
    }
    ghost var keys :| PinnedKeys(args.trustRoot, roots, parseKey, keys) && BaseAccepted(tuf, w, keys);
    var used := SelectRoles(tuf, repo, args, w.extra, w.extraCutoff);
    if used == [] {
      NothingYielded(tuf, args, w, id);
      return Failure("error during download and validation of delegations");
    }
    SelectedAreThere(tuf, args, w);
    r := Search(repo.State(), used, id);
    if r.Failure? {
      NothingYielded(tuf, args, w, id);
    }
  }

  lemma SelectedAreThere(tuf: Tuf, args: RuleOptions, w: World)
    requires Possible(args, w) && Downloaded(tuf, w) && Chosen(tuf, args, w).Some?
    ensures
      var sel := Chosen(tuf, args, w).value;
      sel.used != [] && forall r :: r in sel.used ==> r in sel.s.targets && sel.s.targets[r].Some?
  {
    SelectedRolesAreValid(tuf, BaseRepo(tuf, w), args, w.extra, w.extraCutoff, []);
  }

  /** Without roles to search, or with roles that do not agree, no digest is accepted. */
  lemma NothingYielded(tuf: Tuf, args: RuleOptions, w: World, id: Identifier)
    requires Possible(args, w) && Downloaded(tuf, w)
    requires
      var choice := Chosen(tuf, args, w);
      choice == None || forall d :: !AllYield(choice.value.s, choice.value.used, id, d)
    ensures forall keys, d :: !Validates(tuf, args, w, keys, id, d)
  {
  }

  /** The roles to search; none if the validation ends here. */
  method SelectRoles(tuf: Tuf, repo: Repo, args: RuleOptions, arrivals: seq<TrustData>, cutoff: nat)
    returns (targets: seq<string>)
    requires Loaded(repo.State())
    requires DelegationArrivals(args, arrivals, cutoff)
    modifies repo
    ensures forall m :: m in arrivals ==> IsDelegation(m.role)
    ensures
      var choice := Select(tuf, old(repo.State()), args, arrivals, cutoff);
      if targets == [] then choice == None else choice == Some(Selection(targets, repo.State()))
  {
    assert forall m :: m in arrivals ==> m.role in Delegations(args) && IsDelegation(m.role);
    targets := [];
    if |args.delegations| < 1 && !HasDelegations(repo.State()) {
      return [TARGETS];
    }
    if !HasDelegations(repo.State()) {
      return [];
    }
    if |args.delegations| > 0 {
      for i := 0 to |args.delegations|
        invariant targets == Delegations(args)[..i]
      {
        targets := targets + [ToDelegationString(args.delegations[i])];
      }
    } else {
      targets := [ToDelegationString("releases")];
    }
    assert targets == Delegations(args);
    var err := repo.DownloadAndValidateDelegations(tuf, targets, arrivals, cutoff);
    if err.Some? {
      if Contains(err.value, "error acquiring trust data") && !HasDelegationHashes(repo.State(), targets) {
        return [TARGETS];
      }
      return [];
    }
  }

  /** Everything between the pinned keys and the digest. */
  ghost predicate ChainOfTrust(
    tuf: Tuf, s: RepoState, keys: seq<string>, used: seq<string>, id: Identifier, digest: string)
  {
    && Loaded(s)
    && keys != [] && BaseValid(tuf, s, keys)
    && used != [] && (forall r :: r in used ==> Vouches(tuf, s, r, id, digest))
    && (id.digest != "" ==> digest == id.digest)
  }

  /** One role for each delegation the rule names, or the one called releases if it names none. */
  predicate NamedRoles(args: RuleOptions, used: seq<string>) {
    if args.delegations == [] then used == ["targets/releases"]
    else |used| == |args.delegations| && forall i :: 0 <= i < |used| ==> Stands(used[i], args.delegations[i])
  }

  /** An accepted digest hangs on a chain of trust from the pinned keys. */
  lemma AcceptedMeansChainOfTrust(
    tuf: Tuf, args: RuleOptions, roots: seq<TrustRoot>, parseKey: string -> Option<string>,
    w: World, keys: seq<string>, id: Identifier, digest: string)
    requires Possible(args, w)
    requires PinnedKeys(args.trustRoot, roots, parseKey, keys) && !(args.trustRoot == "*" && roots == [])
    requires Validates(tuf, args, w, keys, id, digest)
    ensures
      var sel := Chosen(tuf, args, w).value;
      && ChainOfTrust(tuf, sel.s, keys, sel.used, id, digest)
      && (sel.used == ["targets"] || NamedRoles(args, sel.used))
  {
    SelectedRolesAreValid(tuf, BaseRepo(tuf, w), args, w.extra, w.extraCutoff, keys);
    var sel := Chosen(tuf, args, w).value;
    KeysArePinned(args.trustRoot, roots, parseKey, keys);
    assert sel.used[0] in sel.used;
    forall r | r in sel.used
      ensures Vouches(tuf, sel.s, r, id, digest)
    {
      assert Found(sel.s, r, id) == Some(digest);
      YieldMeans(sel.s.targets[r].value, id, digest);
    }
  }

  /** Delegations are searched only if the targets file lists them. */
  lemma SearchedDelegationsAreListed(tuf: Tuf, s: RepoState, args: RuleOptions, msgs: seq<TrustData>, cutoff: nat)
    requires Loaded(s)
    requires |msgs| >= |Delegations(args)| || |msgs| >= cutoff
    requires forall m :: m in msgs ==> IsDelegation(m.role)
    requires Select(tuf, s, args, msgs, cutoff).Some?
    ensures
      var used := Select(tuf, s, args, msgs, cutoff).value.used;
      used == ["targets"] || forall d :: d in used ==> d in s.targets["targets"].value.roles
  {
    var names, roles := Delegations(args), s.targets[TARGETS].value.roles;
    NoneUnlisted(names, roles);
    if HasDelegations(s) && FirstUnlisted(names, roles).Some? {
      assert DelegationPhase(tuf, s, names, msgs, cutoff).err.Some?;
    }
  }

  lemma {:induction false} NoneUnlisted(names: seq<string>, roles: seq<string>)
    ensures FirstUnlisted(names, roles).None? <==> forall d :: d in names ==> d in roles
  {
    if names != [] {
      NoneUnlisted(names[1..], roles);
      assert names == [names[0]] + names[1..];
    }
  }

  /** The base files that a digest hangs on are those the server sent, and none came with an error. */
  lemma BaseFilesAreAnswers(
    tuf: Tuf, args: RuleOptions, w: World, keys: seq<string>, id: Identifier, digest: string, m: TrustData)
    requires Possible(args, w) && Validates(tuf, args, w, keys, id, digest)
    requires m in w.base
    ensures
      var s := Chosen(tuf, args, w).value.s;
      && m.err.None? && Loaded(s) && m.role in s.raw && s.raw[m.role] == m.raw
      && (m.role == "root" ==> s.root == tuf.rootFromSigned(m.data))
      && (m.role == "targets" ==> s.targets["targets"] == tuf.targetsFromSigned(m.data, "targets"))
      && (m.role == "snapshot" ==> s.snapshot == tuf.snapshotFromSigned(m.data))
      && (m.role == "timestamp" ==> s.timestamp == tuf.timestampFromSigned(m.data))
  {
    AbsorbedHolds(tuf, w.base);
    SelectedRolesAreValid(tuf, BaseRepo(tuf, w), args, w.extra, w.extraCutoff, keys);
    var i :| 0 <= i < |w.base| && w.base[i] == m;
    assert Holds(tuf, BaseRepo(tuf, w), m) && m.role in BASE_ROLES;
    assert SameBase(BaseRepo(tuf, w), Chosen(tuf, args, w).value.s);
  }

  /** So are the files of the delegations that are searched. */
  lemma DelegationFilesAreAnswers(
    tuf: Tuf, args: RuleOptions, w: World, keys: seq<string>, id: Identifier, digest: string, d: string)
    requires Possible(args, w) && Validates(tuf, args, w, keys, id, digest)
    requires Chosen(tuf, args, w).value.used != ["targets"] && d in Chosen(tuf, args, w).value.used
    ensures
      var s := Chosen(tuf, args, w).value.s;
      exists m :: m in w.extra && m.role == d && m.err.None?
                  && d in s.targets && s.targets[d] == tuf.targetsFromSigned(m.data, d)
                  && d in s.raw && s.raw[d] == m.raw
  {
    OnlyBaseTargets(tuf, w);
    SelectedStemFromAnswers(tuf, BaseRepo(tuf, w), args, w.extra, w.extraCutoff, d);
  }

  lemma OnlyBaseTargets(tuf: Tuf, w: World)
    requires Downloaded(tuf, w)
    ensures BaseRepo(tuf, w).targets.Keys == {"targets"}
  {
    AbsorbedHolds(tuf, w.base);
  }

  lemma SelectedStemFromAnswers(
    tuf: Tuf, s: RepoState, args: RuleOptions, msgs: seq<TrustData>, cutoff: nat, d: string)
    requires Loaded(s) && s.targets.Keys == {"targets"}
    requires |msgs| >= |Delegations(args)| || |msgs| >= cutoff
    requires forall m :: m in msgs ==> IsDelegation(m.role)
    requires Select(tuf, s, args, msgs, cutoff).Some?
    requires Select(tuf, s, args, msgs, cutoff).value.used != ["targets"]
    requires d in Select(tuf, s, args, msgs, cutoff).value.used
    ensures
      var t := Select(tuf, s, args, msgs, cutoff).value.s;
      exists m :: m in msgs && m.role == d && m.err.None?
                  && d in t.targets && t.targets[d] == tuf.targetsFromSigned(m.data, d)
                  && d in t.raw && t.raw[d] == m.raw
  {
    var names := Delegations(args);
    PhaseWithoutError(tuf, s, names, msgs, cutoff);
    NotABaseRole(d);
    AbsorbedStemFromAnswers(tuf, s, Received(msgs, |names|, cutoff), d);
  }

  lemma {:induction false} AbsorbedStemFromAnswers(tuf: Tuf, s: RepoState, msgs: seq<TrustData>, d: string)
    requires AbsorbDelegations(tuf, s, msgs).err.None? && d !in s.targets
    ensures
      var t := AbsorbDelegations(tuf, s, msgs).s;
      d in t.targets ==>
        exists m :: m in msgs && m.role == d && m.err.None? && t.targets[d] == tuf.targetsFromSigned(m.data, d)
                    && d in t.raw && t.raw[d] == m.raw
  {
    if msgs != [] {
      var front, last := msgs[..|msgs| - 1], msgs[|msgs| - 1];
      AbsorbedStemFromAnswers(tuf, s, front, d);
      if last.role != d && d in AbsorbDelegations(tuf, s, msgs).s.targets {
        var t := AbsorbDelegations(tuf, s, front).s;
        var m :| m in front && m.role == d && m.err.None? && t.targets[d] == tuf.targetsFromSigned(m.data, d)
                 && d in t.raw && t.raw[d] == m.raw;
        assert m in msgs;
      } else {
        assert last in msgs;
      }
    }
  }

  /** The arrival order of the base roles has no influence. */
  lemma BaseOrderIrrelevant(
    tuf: Tuf, args: RuleOptions, w: World, reordered: seq<TrustData>, keys: seq<string>, id: Identifier, digest: string)
    requires Possible(args, w) && OnePerBaseRole(w.base) && OnePerBaseRole(reordered)
    requires multiset(w.base) == multiset(reordered)
    ensures Validates(tuf, args, w, keys, id, digest)
       <==> Validates(tuf, args, w.(base := reordered), keys, id, digest)
  {
    DownloadConfluent(tuf, w.base, reordered);
  }

  /** At most one digest is accepted. */
  lemma ValidatedDigestIsUnique(
    tuf: Tuf, args: RuleOptions, w: World, keys: seq<string>, id: Identifier, d: string, e: string)
    requires Possible(args, w)
    requires Validates(tuf, args, w, keys, id, d) && Validates(tuf, args, w, keys, id, e)
    ensures d == e
  {
    var sel := Chosen(tuf, args, w).value;
    assert sel.used[0] in sel.used;
    assert Found(sel.s, sel.used[0], id) == Some(d);
  }

  // ---------- the order of the delegations' answers ----------

  /** The answer ends the delegation phase, but with an error that allows the base targets instead. */
  predicate FallsBack(tuf: Tuf, m: TrustData) {
    MessageError(tuf, m).Some? && Contains(MessageError(tuf, m).value, ACQUIRING)
  }

  /** The answer ends the validation. */
  predicate GivesUp(tuf: Tuf, m: TrustData) {
    MessageError(tuf, m).Some? && !Contains(MessageError(tuf, m).value, ACQUIRING)
  }

  /** Both give up, or both search the same roles in the same files. */
  predicate SameChoice(a: Option<Selection>, b: Option<Selection>) {
    && (a.Some? <==> b.Some?)
    && (a.Some? ==>
          && a.value.used == b.value.used
          && forall r :: r in a.value.used ==>
                           && r in a.value.s.targets && r in b.value.s.targets
                           && a.value.s.targets[r] == b.value.s.targets[r])
  }

  /** One answer for each requested delegation. */
  predicate Answered(args: RuleOptions, msgs: seq<TrustData>) {
    |msgs| == |Delegations(args)| && forall m :: m in msgs ==> IsDelegation(m.role)
  }

  /** The same choice, whatever order the answers arrive in. */
  ghost predicate SameForEveryOrder(tuf: Tuf, s: RepoState, args: RuleOptions, msgs: seq<TrustData>, cutoff: nat)
    requires Loaded(s) && Answered(args, msgs)
  {
    forall reordered :: multiset(reordered) == multiset(msgs) && Answered(args, reordered) ==>
                          SameChoice(Select(tuf, s, args, msgs, cutoff), Select(tuf, s, args, reordered, cutoff))
  }

  /** The delegation phase gets as far as the answers. */
  predicate AllListed(s: RepoState, args: RuleOptions)
    requires Loaded(s)
  {
    HasDelegations(s) && FirstUnlisted(Delegations(args), s.targets[TARGETS].value.roles).None?
  }

  /** The first unusable answer decides between the base targets and giving up. */
  lemma FirstUnusableChooses(tuf: Tuf, s: RepoState, args: RuleOptions, msgs: seq<TrustData>, cutoff: nat)
    returns (i: nat)
    requires Loaded(s) && Answered(args, msgs) && |msgs| <= cutoff && AllListed(s, args)
    requires exists m :: m in msgs && !DelegationUsable(tuf, m)
    ensures i < |msgs| && !DelegationUsable(tuf, msgs[i]) && forall j :: 0 <= j < i ==> DelegationUsable(tuf, msgs[j])
    ensures
      var choice := Select(tuf, s, args, msgs, cutoff);
      && (choice.Some? <==> FallsBack(tuf, msgs[i]) && !HasDelegationHashes(s, Delegations(args)))
      && (choice.Some? ==> choice.value.used == [TARGETS] && SameBase(s, choice.value.s))
  {
    var names := Delegations(args);
    var o := AbsorbDelegations(tuf, s, msgs);
    FirstUnusableDecides(tuf, s, msgs);
    assert Received(msgs, |names|, cutoff) == msgs;
    i :| 0 <= i < |msgs| && o.err == MessageError(tuf, msgs[i])
         && forall j :: 0 <= j < i ==> DelegationUsable(tuf, msgs[j]);
    AbsorbKeepsBase(tuf, s, msgs);
    assert DelegationPhase(tuf, s, names, msgs, cutoff) == o;
  }

  /** The order of the answers has no influence if all of them are usable. */
  lemma DelegationOrderIrrelevant(
    tuf: Tuf, s: RepoState, args: RuleOptions, msgs: seq<TrustData>, reordered: seq<TrustData>, cutoff: nat)
    requires Loaded(s) && Answered(args, msgs) && |msgs| <= cutoff
    requires multiset(msgs) == multiset(reordered) && OneAnswerPerRole(msgs)
    requires forall m :: m in msgs ==> DelegationUsable(tuf, m)
    ensures Answered(args, reordered)
    ensures SameChoice(Select(tuf, s, args, msgs, cutoff), Select(tuf, s, args, reordered, cutoff))
  {
    DelegationPhaseConfluent(tuf, s, Delegations(args), msgs, reordered, cutoff);
    if Select(tuf, s, args, msgs, cutoff).Some? {
      SelectedRolesAreValid(tuf, s, args, msgs, cutoff, []);
    }
  }

  /** Without answers to absorb the order of the answers cannot matter. */
  lemma UnlistedIgnoresAnswers(
    tuf: Tuf, s: RepoState, args: RuleOptions, msgs: seq<TrustData>, reordered: seq<TrustData>, cutoff: nat)
    requires Loaded(s) && Answered(args, msgs) && Answered(args, reordered) && !AllListed(s, args)
    ensures SameChoice(Select(tuf, s, args, msgs, cutoff), Select(tuf, s, args, reordered, cutoff))
  {
    if Select(tuf, s, args, msgs, cutoff).Some? {
      SelectedRolesAreValid(tuf, s, args, msgs, cutoff, []);
    }
  }

  /** Answers of both kinds, and the snapshot does not vouch for all delegations. */
  predicate Torn(tuf: Tuf, s: RepoState, args: RuleOptions, msgs: seq<TrustData>)
    requires Loaded(s)
  {
    && AllListed(s, args) && !HasDelegationHashes(s, Delegations(args))
    && (exists a :: a in msgs && FallsBack(tuf, a)) && (exists b :: b in msgs && GivesUp(tuf, b))
  }

  /**
   Which roles are searched depends on the order of the answers exactly if one answer allows the base
   targets, another one ends the validation, and the snapshot lacks hashes for some delegation.
   */
  lemma DelegationOrderIrrelevantExactly(
    tuf: Tuf, s: RepoState, args: RuleOptions, msgs: seq<TrustData>, cutoff: nat)
    requires Loaded(s) && Answered(args, msgs) && |msgs| <= cutoff && OneAnswerPerRole(msgs)
    ensures SameForEveryOrder(tuf, s, args, msgs, cutoff) <==> !Torn(tuf, s, args, msgs)
  {
    if Torn(tuf, s, args, msgs) {
      TornDepends(tuf, s, args, msgs, cutoff);
    } else {
      forall reordered | multiset(reordered) == multiset(msgs) && Answered(args, reordered)
        ensures SameChoice(Select(tuf, s, args, msgs, cutoff), Select(tuf, s, args, reordered, cutoff))
      {
        NotTornSame(tuf, s, args, msgs, reordered, cutoff);
      }
    }
  }

  lemma NotTornSame(
    tuf: Tuf, s: RepoState, args: RuleOptions, msgs: seq<TrustData>, reordered: seq<TrustData>, cutoff: nat)
    requires Loaded(s) && Answered(args, msgs) && |msgs| <= cutoff && OneAnswerPerRole(msgs)
    requires multiset(reordered) == multiset(msgs) && Answered(args, reordered)
    requires !Torn(tuf, s, args, msgs)
    ensures SameChoice(Select(tuf, s, args, msgs, cutoff), Select(tuf, s, args, reordered, cutoff))
  {
    PermutationMembers(msgs, reordered);
    if !AllListed(s, args) {
      UnlistedIgnoresAnswers(tuf, s, args, msgs, reordered, cutoff);
    } else if forall m :: m in msgs ==> DelegationUsable(tuf, m) {
      DelegationOrderIrrelevant(tuf, s, args, msgs, reordered, cutoff);
    } else {
      var i := FirstUnusableChooses(tuf, s, args, msgs, cutoff);
      var j := FirstUnusableChooses(tuf, s, args, reordered, cutoff);
      assert msgs[i] in msgs && reordered[j] in msgs;
    }
  }

  lemma TornDepends(tuf: Tuf, s: RepoState, args: RuleOptions, msgs: seq<TrustData>, cutoff: nat)
    requires Loaded(s) && Answered(args, msgs) && |msgs| <= cutoff && Torn(tuf, s, args, msgs)
    ensures !SameForEveryOrder(tuf, s, args, msgs, cutoff)
  {
    var a :| a in msgs && FallsBack(tuf, a);
    var b :| b in msgs && GivesUp(tuf, b);
    var back := ToFront(args, msgs, a);
    var out := ToFront(args, msgs, b);
    assert back[0] in back && out[0] in out;
    var i := FirstUnusableChooses(tuf, s, args, back, cutoff);
    var j := FirstUnusableChooses(tuf, s, args, out, cutoff);
    assert i == 0 && j == 0;
    assert !SameChoice(Select(tuf, s, args, back, cutoff), Select(tuf, s, args, out, cutoff));
  }

  lemma ToFront(args: RuleOptions, msgs: seq<TrustData>, m: TrustData) returns (reordered: seq<TrustData>)
    requires Answered(args, msgs) && m in msgs
    ensures Answered(args, reordered) && multiset(reordered) == multiset(msgs) && reordered[0] == m
  {
    var k: nat :| k < |msgs| && msgs[k] == m;
    WithoutMultiset(msgs, k);
    reordered := [m] + Without(msgs, k);
    PermutationMembers(reordered, msgs);
  }

  /** For instance: one delegation that the server does not have, and one that does not parse. */
  lemma FirstFailureDecides(tuf: Tuf, s: RepoState, args: RuleOptions, missing: TrustData, malformed: TrustData)
    requires Loaded(s) && Delegations(args) == [missing.role, malformed.role] && missing.role != malformed.role
    requires missing.role in s.targets[TARGETS].value.roles && malformed.role in s.targets[TARGETS].value.roles
    requires missing.role !in s.snapshot.value.hashes
    requires missing.err.Some? && Contains(missing.err.value, ACQUIRING)
    requires malformed.err.None? && tuf.targetsFromSigned(malformed.data, malformed.role).None?
    requires !Contains("error parsing delegation " + malformed.role, ACQUIRING)
    ensures Answered(args, [missing, malformed]) && Answered(args, [malformed, missing])
    ensures
      var choice := Select(tuf, s, args, [missing, malformed], 2);
      choice.Some? && choice.value.used == [TARGETS] && SameBase(s, choice.value.s)
    ensures Select(tuf, s, args, [malformed, missing], 2) == None
  {
    var names := Delegations(args);
    assert IsDelegation(names[0]) && IsDelegation(names[1]);
    assert names[0] == missing.role && names[1..] == [malformed.role];
    BothListed(missing.role, malformed.role, s.targets[TARGETS].value.roles);
    ContainsLater("error downloading delegation " + missing.role + ": ", missing.err.value, ACQUIRING);
    var forth, back := [missing, malformed], [malformed, missing];
    assert forth[0] in forth && back[0] in back && names[0] in names;
    var i := FirstUnusableChooses(tuf, s, args, forth, 2);
    var j := FirstUnusableChooses(tuf, s, args, back, 2);
  }

  lemma BothListed(a: string, b: string, roles: seq<string>)
    requires a in roles && b in roles
    ensures FirstUnlisted([a, b], roles).None? && FirstUnlisted([b, a], roles).None?
  {
    OneListed(a, roles);
    OneListed(b, roles);
    assert [a, b][1..] == [b] && [b, a][1..] == [a];
  }

  lemma OneListed(a: string, roles: seq<string>)
    requires a in roles
    ensures FirstUnlisted([a], roles).None?
  {
    assert [a][1..] == [];
  }

  lemma ContainsLater(a: string, b: string, sub: string)
    requires Contains(b, sub)
    ensures Contains(a + b, sub)
  {
    var i :| 0 <= i <= |b| - |sub| && IsPrefix(sub, b[i..]);
    assert (a + b)[|a| + i..] == b[i..];
  }
}
