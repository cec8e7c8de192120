/**
 Trust data of one repository on a notary server: downloaded in any order, validated in stages, then
 extended by delegations. Cryptography, parsing and hashing are library routines and parameters.
 */
module NotaryRepo {
  import opened Wrappers
  import opened Distinct
  import opened GoStrings

  const ROOT := "root"
  const TARGETS := "targets"
  const SNAPSHOT := "snapshot"
  const TIMESTAMP := "timestamp"
  const BASE_ROLES := [ROOT, TARGETS, SNAPSHOT, TIMESTAMP]

  /** signed is the canonical signed part; None if it cannot be written. */
  datatype RootFile = RootFile(signed: Option<string>, signatures: seq<string>, body: string)

  /** roles: the delegations listed; files: the hex digest of each tag. */
  datatype TargetsFile = TargetsFile(body: string, roles: seq<string>, files: map<string, string>)

  /** hashes: the hashes given for each role. */
  datatype HashFile = HashFile(body: string, hashes: map<string, string>)

  /** checkHashes gives the error, if there is one. */
  datatype Tuf = Tuf(
    rootFromSigned: string -> Option<RootFile>,
    targetsFromSigned: (string, string) -> Option<TargetsFile>,
    snapshotFromSigned: string -> Option<HashFile>,
    timestampFromSigned: string -> Option<HashFile>,
    verifySignature: (string, string, string) -> bool,
    buildBaseRole: (RootFile, string) -> Option<string>,
    buildDelegationRole: (TargetsFile, string) -> Result<string>,
    toSigned: string -> Result<string>,
    verifySignatures: (string, string) -> bool,
    expired: (string, string) -> bool,
    checkHashes: (string, string, Option<string>) -> Option<string>)

  /** One answer of the server. */
  datatype TrustData = TrustData(role: string, data: string, raw: string, err: Option<string>)

  datatype RepoState = RepoState(
    root: Option<RootFile>,
    targets: map<string, Option<TargetsFile>>,
    snapshot: Option<HashFile>,
    timestamp: Option<HashFile>,
    raw: map<string, string>)

  const EMPTY := RepoState(None, map[], None, None, map[])

  function HashesFor(f: HashFile, role: string): Option<string> {
    if role in f.hashes then Some(f.hashes[role]) else None
  }

  // ---------- downloading the base roles ----------

  /** The message is free of errors and parses. */
  predicate Usable(tuf: Tuf, m: TrustData) {
    && m.err.None?
    && (m.role == ROOT ==> tuf.rootFromSigned(m.data).Some?)
    && (m.role == TARGETS ==> tuf.targetsFromSigned(m.data, TARGETS).Some?)
    && (m.role == SNAPSHOT ==> tuf.snapshotFromSigned(m.data).Some?)
    && (m.role == TIMESTAMP ==> tuf.timestampFromSigned(m.data).Some?)
  }

  /** The repository after a message for a base role; a file that does not parse is stored as missing. */
  function Absorb(tuf: Tuf, s: RepoState, m: TrustData): RepoState {
    var t :=
      if m.role == ROOT then s.(root := tuf.rootFromSigned(m.data))
      else if m.role == TARGETS then s.(targets := s.targets[TARGETS := tuf.targetsFromSigned(m.data, TARGETS)])
      else if m.role == SNAPSHOT then s.(snapshot := tuf.snapshotFromSigned(m.data))
      else if m.role == TIMESTAMP then s.(timestamp := tuf.timestampFromSigned(m.data))
      else s;
    t.(raw := s.raw[m.role := m.raw])
  }

  function AbsorbAll(tuf: Tuf, s: RepoState, msgs: seq<TrustData>): RepoState {
    if msgs == [] then s
    else Absorb(tuf, AbsorbAll(tuf, s, msgs[..|msgs| - 1]), msgs[|msgs| - 1])
  }

  predicate AllUsable(tuf: Tuf, msgs: seq<TrustData>) {
    forall m :: m in msgs ==> Usable(tuf, m)
  }

  /** Exactly one message per base role, in any order. */
  ghost predicate OnePerBaseRole(msgs: seq<TrustData>) {
    && |msgs| == 4
    && (forall i, j :: 0 <= i < j < 4 ==> msgs[i].role != msgs[j].role)
    && (forall i :: 0 <= i < 4 ==> msgs[i].role in BASE_ROLES)
  }

  /** The message's file and bytes are what the repository holds for its role. */
  predicate Holds(tuf: Tuf, s: RepoState, m: TrustData) {
    && m.role in s.raw && s.raw[m.role] == m.raw
    && (m.role == ROOT ==> s.root == tuf.rootFromSigned(m.data))
    && (m.role == TARGETS ==> TARGETS in s.targets && s.targets[TARGETS] == tuf.targetsFromSigned(m.data, TARGETS))
    && (m.role == SNAPSHOT ==> s.snapshot == tuf.snapshotFromSigned(m.data))
    && (m.role == TIMESTAMP ==> s.timestamp == tuf.timestampFromSigned(m.data))
  }

  function Roles(msgs: seq<TrustData>): set<string> {
    set m | m in msgs :: m.role
  }

  lemma AbsorbStep(tuf: Tuf, s: RepoState, m: TrustData)
    ensures Holds(tuf, Absorb(tuf, s, m), m)
    ensures Absorb(tuf, s, m).raw.Keys == s.raw.Keys + {m.role}
    ensures Absorb(tuf, s, m).targets.Keys == s.targets.Keys + (if m.role == TARGETS then {TARGETS} else {})
  {
  }

  lemma AbsorbKeeps(tuf: Tuf, s: RepoState, m: TrustData, earlier: TrustData)
    requires Holds(tuf, s, earlier) && m.role != earlier.role
    ensures Holds(tuf, Absorb(tuf, s, m), earlier)
  {
  }

  /** After one message per role the repository holds every message, and nothing else. */
  lemma {:induction false} AbsorbedHolds(tuf: Tuf, msgs: seq<TrustData>)
    requires forall i, j :: 0 <= i < j < |msgs| ==> msgs[i].role != msgs[j].role
    ensures forall i :: 0 <= i < |msgs| ==> Holds(tuf, AbsorbAll(tuf, EMPTY, msgs), msgs[i])
    ensures AbsorbAll(tuf, EMPTY, msgs).raw.Keys == Roles(msgs)
    ensures AbsorbAll(tuf, EMPTY, msgs).targets.Keys == (if TARGETS in Roles(msgs) then {TARGETS} else {})
  {
    AbsorbedKeys(tuf, msgs);
    AbsorbedEach(tuf, msgs);
  }

  lemma {:induction false} AbsorbedEach(tuf: Tuf, msgs: seq<TrustData>)
    requires forall i, j :: 0 <= i < j < |msgs| ==> msgs[i].role != msgs[j].role
    ensures forall i :: 0 <= i < |msgs| ==> Holds(tuf, AbsorbAll(tuf, EMPTY, msgs), msgs[i])
  {
    if msgs != [] {
      var last := |msgs| - 1;
      AbsorbedEach(tuf, msgs[..last]);
      AbsorbLast(tuf, AbsorbAll(tuf, EMPTY, msgs[..last]), msgs[..last], msgs);
    }
  }

  lemma AbsorbLast(tuf: Tuf, s: RepoState, front: seq<TrustData>, msgs: seq<TrustData>)
    requires msgs != [] && front == msgs[..|msgs| - 1]
    requires forall i :: 0 <= i < |front| ==> Holds(tuf, s, front[i]) && front[i].role != msgs[|front|].role
    ensures forall i :: 0 <= i < |msgs| ==> Holds(tuf, Absorb(tuf, s, msgs[|front|]), msgs[i])
  {
    var m := msgs[|front|];
    AbsorbStep(tuf, s, m);
    forall i | 0 <= i < |front|
      ensures Holds(tuf, Absorb(tuf, s, m), msgs[i])
    {
      assert front[i] == msgs[i];
      AbsorbKeeps(tuf, s, m, msgs[i]);
    }
  }

  lemma {:induction false} AbsorbedKeys(tuf: Tuf, msgs: seq<TrustData>)
    ensures AbsorbAll(tuf, EMPTY, msgs).raw.Keys == Roles(msgs)
    ensures AbsorbAll(tuf, EMPTY, msgs).targets.Keys == (if TARGETS in Roles(msgs) then {TARGETS} else {})
  {
    if msgs != [] {
      var last := |msgs| - 1;
      AbsorbedKeys(tuf, msgs[..last]);
      AbsorbStep(tuf, AbsorbAll(tuf, EMPTY, msgs[..last]), msgs[last]);
      RolesOfLast(msgs);
    }
  }

  lemma RolesOfLast(msgs: seq<TrustData>)
    requires msgs != []
    ensures Roles(msgs) == Roles(msgs[..|msgs| - 1]) + {msgs[|msgs| - 1].role}
  {
    assert msgs == msgs[..|msgs| - 1] + [msgs[|msgs| - 1]];
  }

  lemma EqualSizes(a: set<string>, b: set<string>)
    requires a <= b && |a| == |b|
    ensures a == b
  {
    assert b == a + (b - a);
  }

  lemma AllRolesPresent(msgs: seq<TrustData>)
    requires OnePerBaseRole(msgs)
    ensures Roles(msgs) == Elements(BASE_ROLES)
    ensures forall r :: r in BASE_ROLES ==> exists m :: m in msgs && m.role == r
  {
    var names := seq(4, i requires 0 <= i < 4 => msgs[i].role);
    assert NoDup(names);
    NoDupSize(names);
    NoDupSize(BASE_ROLES);
    assert Elements(names) <= Elements(BASE_ROLES);
    EqualSizes(Elements(names), Elements(BASE_ROLES));
    forall r | r in BASE_ROLES
      ensures exists m :: m in msgs && m.role == r
    {
      assert r in Elements(names);
      var i :| 0 <= i < 4 && names[i] == r;
      assert msgs[i] in msgs;
    }
  }

  /** Every base role has its file and its bytes, so no later stage meets a missing one. */
  predicate Loaded(s: RepoState) {
    && s.root.Some? && s.snapshot.Some? && s.timestamp.Some?
    && TARGETS in s.targets && s.targets[TARGETS].Some?
    && forall r :: r in BASE_ROLES ==> r in s.raw
  }

  /** Once all four messages were usable, no later stage meets a missing role. */
  lemma DownloadComplete(tuf: Tuf, msgs: seq<TrustData>)
    requires OnePerBaseRole(msgs) && AllUsable(tuf, msgs)
    ensures Loaded(AbsorbAll(tuf, EMPTY, msgs))
  {
    AbsorbedHolds(tuf, msgs);
    AllRolesPresent(msgs);
    var s := AbsorbAll(tuf, EMPTY, msgs);
    var r := HeldFor(tuf, s, msgs, ROOT);
    var t := HeldFor(tuf, s, msgs, TARGETS);
    var sn := HeldFor(tuf, s, msgs, SNAPSHOT);
    var ts := HeldFor(tuf, s, msgs, TIMESTAMP);
    assert Usable(tuf, r) && Usable(tuf, t) && Usable(tuf, sn) && Usable(tuf, ts);
  }

  lemma HeldFor(tuf: Tuf, s: RepoState, msgs: seq<TrustData>, role: string) returns (m: TrustData)
    requires OnePerBaseRole(msgs) && role in BASE_ROLES
    requires forall i :: 0 <= i < |msgs| ==> Holds(tuf, s, msgs[i])
    ensures m in msgs && m.role == role && Holds(tuf, s, m)
  {
    AllRolesPresent(msgs);
    m :| m in msgs && m.role == role;
    var i :| 0 <= i < |msgs| && msgs[i] == m;
  }

  /** Whatever order the messages arrive in, the repository ends up the same. */
  lemma DownloadConfluent(tuf: Tuf, msgs: seq<TrustData>, reordered: seq<TrustData>)
    requires OnePerBaseRole(msgs) && OnePerBaseRole(reordered)
    requires multiset(msgs) == multiset(reordered)
    ensures AllUsable(tuf, msgs) <==> AllUsable(tuf, reordered)
    ensures AbsorbAll(tuf, EMPTY, msgs) == AbsorbAll(tuf, EMPTY, reordered)
  {
    PermutationMembers(msgs, reordered);
    HoldsEach(tuf, msgs);
    HoldsEach(tuf, reordered);
    assert Roles(msgs) == Roles(reordered);
    var a, b := AbsorbAll(tuf, EMPTY, msgs), AbsorbAll(tuf, EMPTY, reordered);
    SameFiles(tuf, a, b, msgs);
    SameBytes(tuf, a, b, msgs);
  }

  /** The repository after one message per base role, in terms of the set of messages. */
  lemma HoldsEach(tuf: Tuf, msgs: seq<TrustData>)
    requires OnePerBaseRole(msgs)
    ensures
      var s := AbsorbAll(tuf, EMPTY, msgs);
      && (forall m :: m in msgs ==> Holds(tuf, s, m))
      && s.raw.Keys == Roles(msgs) && s.targets.Keys == {TARGETS}
  {
    AbsorbedHolds(tuf, msgs);
    AllRolesPresent(msgs);
    forall m | m in msgs
      ensures Holds(tuf, AbsorbAll(tuf, EMPTY, msgs), m)
    {
      var i :| 0 <= i < |msgs| && msgs[i] == m;
    }
    assert TARGETS in BASE_ROLES;
  }

  lemma SameBytes(tuf: Tuf, a: RepoState, b: RepoState, msgs: seq<TrustData>)
    requires forall m :: m in msgs ==> Holds(tuf, a, m) && Holds(tuf, b, m)
    requires a.raw.Keys == Roles(msgs) == b.raw.Keys
    ensures a.raw == b.raw
  {
    forall k | k in a.raw
      ensures a.raw[k] == b.raw[k]
    {
      var m :| m in msgs && m.role == k;
      assert Holds(tuf, a, m) && Holds(tuf, b, m);
    }
  }

  lemma SameFiles(tuf: Tuf, a: RepoState, b: RepoState, msgs: seq<TrustData>)
    requires OnePerBaseRole(msgs)
    requires forall m :: m in msgs ==> Holds(tuf, a, m) && Holds(tuf, b, m)
    requires a.targets.Keys == {TARGETS} == b.targets.Keys
    ensures a.root == b.root && a.snapshot == b.snapshot && a.timestamp == b.timestamp && a.targets == b.targets
  {
    var r := HeldFor(tuf, a, msgs, ROOT);
    var t := HeldFor(tuf, a, msgs, TARGETS);
    var sn := HeldFor(tuf, a, msgs, SNAPSHOT);
    var ts := HeldFor(tuf, a, msgs, TIMESTAMP);
    assert Holds(tuf, b, r) && Holds(tuf, b, t) && Holds(tuf, b, sn) && Holds(tuf, b, ts);
    assert a.targets == b.targets;
  }

  // ---------- validating the base roles ----------

  /** Some signature of the root file verifies with the key. */
  predicate RootSignedWith(tuf: Tuf, root: RootFile, key: string) {
    && root.signed.Some?
    && exists i :: 0 <= i < |root.signatures| && tuf.verifySignature(root.signed.value, root.signatures[i], key)
  }

  predicate RootValid(tuf: Tuf, root: RootFile, keys: seq<string>) {
    && root.signed.Some? && root.signatures != []
    && (forall key :: key in keys ==> RootSignedWith(tuf, root, key))
    && !tuf.expired(root.body, ROOT)
  }

  /** The file carries the signatures root asks for in this role, and has not expired. */
  predicate RoleValid(tuf: Tuf, root: RootFile, role: string, body: string) {
    && tuf.toSigned(body).Success?
    && tuf.buildBaseRole(root, role).Some?
    && tuf.verifySignatures(tuf.toSigned(body).value, tuf.buildBaseRole(root, role).value)
    && !tuf.expired(body, role)
  }

  function Body(s: RepoState, role: string): string
    requires Loaded(s)
  {
    if role == TARGETS then s.targets[TARGETS].value.body
    else if role == SNAPSHOT then s.snapshot.value.body
    else s.timestamp.value.body
  }

  predicate ChecksumValid(tuf: Tuf, s: RepoState, role: string, hashes: HashFile)
    requires Loaded(s) && role in BASE_ROLES
  {
    tuf.checkHashes(s.raw[role], role, HashesFor(hashes, role)).None?
  }

  /** What ValidateBaseTrustData establishes. */
  predicate BaseValid(tuf: Tuf, s: RepoState, keys: seq<string>)
    requires Loaded(s)
  {
    && RootValid(tuf, s.root.value, keys)
    && RoleValid(tuf, s.root.value, TARGETS, s.targets[TARGETS].value.body)
    && RoleValid(tuf, s.root.value, SNAPSHOT, s.snapshot.value.body)
    && RoleValid(tuf, s.root.value, TIMESTAMP, s.timestamp.value.body)
    && ChecksumValid(tuf, s, ROOT, s.snapshot.value)
    && ChecksumValid(tuf, s, TARGETS, s.snapshot.value)
    && ChecksumValid(tuf, s, SNAPSHOT, s.timestamp.value)
  }

  /** The bytes of a role match the hashes that a file gives for it, whether it gives any or not. */
  predicate Hashed(tuf: Tuf, raw: string, role: string, hashes: map<string, string>) {
    && (role in hashes ==> tuf.checkHashes(raw, role, Some(hashes[role])).None?)
    && (role !in hashes ==> tuf.checkHashes(raw, role, None).None?)
  }

  /** The file is signed in the role that root has for it, and has not expired. */
  predicate SignedUnderRoot(tuf: Tuf, root: RootFile, role: string, body: string) {
    && !tuf.expired(body, role)
    && tuf.buildBaseRole(root, role).Some? && tuf.toSigned(body).Success?
    && tuf.verifySignatures(tuf.toSigned(body).value, tuf.buildBaseRole(root, role).value)
  }

  /** Base validity, role by role. */
  lemma BaseValidMeans(tuf: Tuf, s: RepoState, keys: seq<string>)
    requires Loaded(s)
    ensures BaseValid(tuf, s, keys)
       <==> && RootValid(tuf, s.root.value, keys)
            && SignedUnderRoot(tuf, s.root.value, "targets", s.targets["targets"].value.body)
            && SignedUnderRoot(tuf, s.root.value, "snapshot", s.snapshot.value.body)
            && SignedUnderRoot(tuf, s.root.value, "timestamp", s.timestamp.value.body)
            && Hashed(tuf, s.raw["root"], "root", s.snapshot.value.hashes)
            && Hashed(tuf, s.raw["targets"], "targets", s.snapshot.value.hashes)
            && Hashed(tuf, s.raw["snapshot"], "snapshot", s.timestamp.value.hashes)
  {
  }

  lemma RootValidMeans(tuf: Tuf, root: RootFile, keys: seq<string>)
    ensures RootValid(tuf, root, keys)
       <==> && root.signed.Some? && |root.signatures| > 0 && !tuf.expired(root.body, "root")
            && forall key :: key in keys ==>
                               exists i :: 0 <= i < |root.signatures|
                                           && tuf.verifySignature(root.signed.value, root.signatures[i], key)
  {
    if RootValid(tuf, root, keys) {
      forall key | key in keys
        ensures exists i :: 0 <= i < |root.signatures|
                            && tuf.verifySignature(root.signed.value, root.signatures[i], key)
      {
        assert RootSignedWith(tuf, root, key);
      }
    }
  }

  // ---------- delegations ----------

  function HasDelegations(s: RepoState): bool
    requires Loaded(s)
  {
    |s.targets[TARGETS].value.roles| > 0
  }

  predicate HasDelegationHashes(s: RepoState, delegations: seq<string>)
    requires Loaded(s)
  {
    forall d :: d in delegations ==> d in s.snapshot.value.hashes
  }

  /** The delegation is signed as the targets file asks, unexpired, and hashed in the snapshot. */
  predicate DelegationValid(tuf: Tuf, s: RepoState, d: string)
    requires Loaded(s)
  {
    && d in s.targets && s.targets[d].Some?
    && (var file := s.targets[d].value;
        var role := tuf.buildDelegationRole(s.targets[TARGETS].value, d);
        && role.Success?
        && tuf.toSigned(file.body).Success?
        && tuf.verifySignatures(tuf.toSigned(file.body).value, role.value)
        && !tuf.expired(file.body, d))
    && d in s.raw
    && tuf.checkHashes(s.raw[d], d, HashesFor(s.snapshot.value, d)).None?
  }

  lemma DelegationValidMeans(tuf: Tuf, s: RepoState, d: string)
    requires Loaded(s) && DelegationValid(tuf, s, d)
    ensures d in s.targets && s.targets[d].Some? && d in s.raw
    ensures Hashed(tuf, s.raw[d], d, s.snapshot.value.hashes)
    ensures
      var file, role := s.targets[d].value, tuf.buildDelegationRole(s.targets["targets"].value, d);
      && !tuf.expired(file.body, d)
      && role.Success? && tuf.toSigned(file.body).Success?
      && tuf.verifySignatures(tuf.toSigned(file.body).value, role.value)
  {
  }

  /** The error validateDelegations reports for one delegation. */
  function DelegationError(tuf: Tuf, s: RepoState, d: string): Option<string>
    requires Loaded(s)
  {
    if d !in s.targets || s.targets[d].None? then Some("delegation " + d + " not found")
    else
      var file := s.targets[d].value;
      match tuf.buildDelegationRole(s.targets[TARGETS].value, d)
      case Failure(e) => Some("error building delegation role " + d + ": " + e)
      case Success(role) =>
        match tuf.toSigned(file.body)
        case Failure(e) => Some("serialization error from signedTarget to signed for delegation " + d + ": " + e)
        case Success(signedObj) =>
          if !tuf.verifySignatures(signedObj, role) then Some("error validating delegation " + d + " signatures")
          else if tuf.expired(file.body, d) then Some(d + " trust data expired")
          else if d !in s.raw then Some("no checksums found for " + d)
          else match tuf.checkHashes(s.raw[d], d, HashesFor(s.snapshot.value, d))
            case None => None
            case Some(e) => Some("error validating " + d + " checksums: " + e)
  }

  function FirstError(tuf: Tuf, s: RepoState, delegations: seq<string>): Option<string>
    requires Loaded(s)
  {
    if delegations == [] then None
    else if DelegationError(tuf, s, delegations[0]).Some? then DelegationError(tuf, s, delegations[0])
    else FirstError(tuf, s, delegations[1..])
  }

  /** No error exactly if every delegation is valid. */
  lemma {:induction false} NoErrorMeansValid(tuf: Tuf, s: RepoState, delegations: seq<string>)
    requires Loaded(s)
    ensures FirstError(tuf, s, delegations).None? <==> forall d :: d in delegations ==> DelegationValid(tuf, s, d)
  {
    if delegations != [] {
      NoErrorMeansValid(tuf, s, delegations[1..]);
      assert delegations == [delegations[0]] + delegations[1..];
      assert DelegationError(tuf, s, delegations[0]).None? <==> DelegationValid(tuf, s, delegations[0]);
    }
  }

  /** A repository and the error met on the way there, if any. */
  datatype Progress = Progress(s: RepoState, err: Option<string>)

  /** What is wrong with the answer for a delegation, if anything. */
  function MessageError(tuf: Tuf, m: TrustData): Option<string> {
    if m.err.Some? then Some("error downloading delegation " + m.role + ": " + m.err.value)
    else if tuf.targetsFromSigned(m.data, m.role).None? then Some("error parsing delegation " + m.role)
    else None
  }

  /** One message of a delegation; a file that does not parse is stored as missing before giving up. */
  function AbsorbDelegation(tuf: Tuf, s: RepoState, m: TrustData): Progress {
    if m.err.Some? then Progress(s, MessageError(tuf, m))
    else
      var file := tuf.targetsFromSigned(m.data, m.role);
      var t := s.(targets := s.targets[m.role := file]);
      if file.None? then Progress(t, MessageError(tuf, m))
      else Progress(t.(raw := s.raw[m.role := m.raw]), None)
  }

  /** The first n messages, stopping at the first error. */
  function AbsorbDelegations(tuf: Tuf, s: RepoState, msgs: seq<TrustData>): Progress {
    if msgs == [] then Progress(s, None)
    else
      var front := AbsorbDelegations(tuf, s, msgs[..|msgs| - 1]);
      if front.err.Some? then front else AbsorbDelegation(tuf, front.s, msgs[|msgs| - 1])
  }

  /** The context is found done before the receive number cutoff, if there is one. */
  function Received(msgs: seq<TrustData>, n: nat, cutoff: nat): seq<TrustData>
    requires |msgs| >= n || |msgs| >= cutoff
  {
    if cutoff < n then msgs[..cutoff] else msgs[..n]
  }

  function FirstUnlisted(delegations: seq<string>, roles: seq<string>): Option<string> {
    if delegations == [] then None
    else if delegations[0] !in roles then Some(delegations[0])
    else FirstUnlisted(delegations[1..], roles)
  }

  /** DownloadAndValidateDelegations */
  function DelegationPhase(
    tuf: Tuf, s: RepoState, delegations: seq<string>, msgs: seq<TrustData>, cutoff: nat): Progress
    requires Loaded(s)
    requires |msgs| >= |delegations| || |msgs| >= cutoff
    requires forall m :: m in msgs ==> IsDelegation(m.role)
  {
    match FirstUnlisted(delegations, s.targets[TARGETS].value.roles)
    case Some(d) => Progress(s, Some("delegation " + d + " not found"))
    case None =>
      var o := AbsorbDelegations(tuf, s, Received(msgs, |delegations|, cutoff));
      AbsorbKeepsBase(tuf, s, Received(msgs, |delegations|, cutoff));
      if o.err.Some? then o
      else if cutoff < |delegations| then Progress(o.s, Some("context cancelled"))
      else Progress(o.s, FirstError(tuf, o.s, delegations))
  }

  predicate IsDelegation(name: string) {
    IsPrefix("targets/", name)
  }

  /** Nothing of the base roles differs. */
  predicate SameBase(s: RepoState, t: RepoState) {
    && s.root == t.root && s.snapshot == t.snapshot && s.timestamp == t.timestamp
    && TARGETS in s.targets && TARGETS in t.targets && s.targets[TARGETS] == t.targets[TARGETS]
    && forall r :: r in BASE_ROLES ==> r in s.raw && r in t.raw && s.raw[r] == t.raw[r]
  }

  lemma {:induction false} AbsorbKeepsBase(tuf: Tuf, s: RepoState, msgs: seq<TrustData>)
    requires Loaded(s)
    requires forall m :: m in msgs ==> IsDelegation(m.role)
    ensures SameBase(s, AbsorbDelegations(tuf, s, msgs).s)
  {
    if msgs != [] {
      var last := |msgs| - 1;
      AbsorbKeepsBase(tuf, s, msgs[..last]);
      assert msgs[last] in msgs;
      NotABaseRole(msgs[last].role);
    }
  }

  lemma NotABaseRole(name: string)
    requires IsDelegation(name)
    ensures name !in BASE_ROLES
  {
    assert |name| >= 8 && name[7] == name[..8][7];
    assert forall i :: 0 <= i < 4 && |BASE_ROLES[i]| >= 8 ==> BASE_ROLES[i][7] != '/';
  }

  /**
   The delegation phase, even if it stops half way, leaves root, snapshot, timestamp, the targets
   file and the bytes of every base role alone; so base validity survives it.
   */
  lemma DelegationPhaseFramed(
    tuf: Tuf, s: RepoState, delegations: seq<string>, msgs: seq<TrustData>, cutoff: nat, keys: seq<string>)
    requires Loaded(s)
    requires |msgs| >= |delegations| || |msgs| >= cutoff
    requires forall m :: m in msgs ==> IsDelegation(m.role)
    ensures
      var t := DelegationPhase(tuf, s, delegations, msgs, cutoff).s;
      SameBase(s, t) && Loaded(t) && (BaseValid(tuf, t, keys) <==> BaseValid(tuf, s, keys))
  {
    AbsorbKeepsBase(tuf, s, Received(msgs, |delegations|, cutoff));
  }

  predicate DelegationUsable(tuf: Tuf, m: TrustData) {
    m.err.None? && tuf.targetsFromSigned(m.data, m.role).Some?
  }

  /** The first answer that cannot be used, if there is one, gives the error. */
  lemma {:induction false} FirstUnusableDecides(tuf: Tuf, s: RepoState, msgs: seq<TrustData>)
    ensures AbsorbDelegations(tuf, s, msgs).err.None?
       <==> forall i :: 0 <= i < |msgs| ==> DelegationUsable(tuf, msgs[i])
    ensures AbsorbDelegations(tuf, s, msgs).err.Some? ==>
              exists i :: 0 <= i < |msgs| && AbsorbDelegations(tuf, s, msgs).err == MessageError(tuf, msgs[i])
                          && forall j :: 0 <= j < i ==> DelegationUsable(tuf, msgs[j])
  {
    if msgs != [] {
      var last := |msgs| - 1;
      FirstUnusableDecides(tuf, s, msgs[..last]);
      if AbsorbDelegations(tuf, s, msgs[..last]).err.Some? {
        var i :| 0 <= i < last && AbsorbDelegations(tuf, s, msgs[..last]).err == MessageError(tuf, msgs[..last][i])
                 && forall j :: 0 <= j < i ==> DelegationUsable(tuf, msgs[..last][j]);
        assert msgs[..last][i] == msgs[i];
        assert forall j :: 0 <= j < i ==> msgs[..last][j] == msgs[j];
      } else {
        assert forall j :: 0 <= j < last ==> msgs[..last][j] == msgs[j];
      }
    }
  }

  /** What f makes of the message of each role. */
  function Table<V>(msgs: seq<TrustData>, f: TrustData -> V): map<string, V> {
    if msgs == [] then map[]
    else Table(msgs[..|msgs| - 1], f)[msgs[|msgs| - 1].role := f(msgs[|msgs| - 1])]
  }

  /** Messages for the same role are the same message. */
  ghost predicate OneAnswerPerRole(msgs: seq<TrustData>) {
    forall a, b :: a in msgs && b in msgs && a.role == b.role ==> a == b
  }

  lemma {:induction false} TableHolds<V>(msgs: seq<TrustData>, f: TrustData -> V)
    requires OneAnswerPerRole(msgs)
    ensures Table(msgs, f).Keys == Roles(msgs)
    ensures forall m :: m in msgs ==> Table(msgs, f)[m.role] == f(m)
  {
    if msgs != [] {
      var last := |msgs| - 1;
      assert msgs == msgs[..last] + [msgs[last]];
      TableHolds(msgs[..last], f);
      RolesOfLast(msgs);
    }
  }

  lemma TableIgnoresOrder<V>(msgs: seq<TrustData>, reordered: seq<TrustData>, f: TrustData -> V)
    requires OneAnswerPerRole(msgs) && multiset(msgs) == multiset(reordered)
    ensures Table(msgs, f) == Table(reordered, f)
  {
    PermutationMembers(msgs, reordered);
    TableHolds(msgs, f);
    TableHolds(reordered, f);
    forall k | k in Table(msgs, f)
      ensures k in Table(reordered, f) && Table(msgs, f)[k] == Table(reordered, f)[k]
    {
      var m :| m in msgs && m.role == k;
      assert m in reordered;
    }
    assert Roles(msgs) == Roles(reordered);
  }

  /** Usable delegations add their files and bytes, and change nothing else. */
  lemma {:induction false} DelegationsAbsorbed(tuf: Tuf, s: RepoState, msgs: seq<TrustData>)
    requires forall i :: 0 <= i < |msgs| ==> DelegationUsable(tuf, msgs[i])
    ensures
      AbsorbDelegations(tuf, s, msgs) == Progress(
        s.(targets := s.targets + Table(msgs, (m: TrustData) => tuf.targetsFromSigned(m.data, m.role)),
           raw := s.raw + Table(msgs, (m: TrustData) => m.raw)),
        None)
  {
    if msgs == [] {
      assert s.targets + map[] == s.targets && s.raw + map[] == s.raw;
    } else {
      var last := msgs[|msgs| - 1];
      var front := msgs[..|msgs| - 1];
      DelegationsAbsorbed(tuf, s, front);
      AddLast(s.targets, Table(front, (m: TrustData) => tuf.targetsFromSigned(m.data, m.role)), last.role,
              tuf.targetsFromSigned(last.data, last.role));
      AddLast(s.raw, Table(front, (m: TrustData) => m.raw), last.role, last.raw);
    }
  }

  lemma AddLast<V>(a: map<string, V>, b: map<string, V>, k: string, v: V)
    ensures a + b[k := v] == (a + b)[k := v]
  {
  }

  /** Usable delegations give the same repository and verdict in every order. */
  lemma DelegationPhaseConfluent(
    tuf: Tuf, s: RepoState, delegations: seq<string>, msgs: seq<TrustData>, reordered: seq<TrustData>, cutoff: nat)
    requires Loaded(s) && |msgs| == |delegations| <= cutoff
    requires multiset(msgs) == multiset(reordered) && OneAnswerPerRole(msgs)
    requires forall m :: m in msgs ==> IsDelegation(m.role) && DelegationUsable(tuf, m)
    ensures |reordered| == |delegations| && forall m :: m in reordered ==> IsDelegation(m.role)
    ensures DelegationPhase(tuf, s, delegations, msgs, cutoff)
         == DelegationPhase(tuf, s, delegations, reordered, cutoff)
  {
    PermutationMembers(msgs, reordered);
    UsableInAnyOrder(tuf, s, msgs, reordered);
    assert Received(msgs, |delegations|, cutoff) == msgs;
    assert Received(reordered, |delegations|, cutoff) == reordered;
  }

  lemma UsableInAnyOrder(tuf: Tuf, s: RepoState, msgs: seq<TrustData>, reordered: seq<TrustData>)
    requires multiset(msgs) == multiset(reordered) && OneAnswerPerRole(msgs)
    requires forall m :: m in msgs ==> DelegationUsable(tuf, m)
    ensures AbsorbDelegations(tuf, s, msgs) == AbsorbDelegations(tuf, s, reordered)
  {
    PermutationMembers(msgs, reordered);
    forall i | 0 <= i < |reordered|
      ensures DelegationUsable(tuf, reordered[i])
    {
      assert reordered[i] in msgs;
    }
    DelegationsAbsorbed(tuf, s, msgs);
    DelegationsAbsorbed(tuf, s, reordered);
    TableIgnoresOrder(msgs, reordered, (m: TrustData) => tuf.targetsFromSigned(m.data, m.role));
    TableIgnoresOrder(msgs, reordered, (m: TrustData) => m.raw);
  }

  // ---------- the object ----------

  class Repo {
    var root: Option<RootFile>
    var targets: map<string, Option<TargetsFile>>
    var snapshot: Option<HashFile>
    var timestamp: Option<HashFile>
    var notCheckedChecksums: map<string, string>

    constructor ()
      ensures State() == EMPTY
    {
      root, targets, snapshot, timestamp, notCheckedChecksums := None, map[], None, None, map[];
    }

    function State(): RepoState
      reads this
    {
      RepoState(root, targets, snapshot, timestamp, notCheckedChecksums)
    }

    /** arrivals come in this order; cutoff is the first receive that finds the context done. */
    method DownloadBaseTrustData(tuf: Tuf, arrivals: seq<TrustData>, cutoff: nat) returns (err: Option<string>)
      requires |arrivals| >= 4 || |arrivals| >= cutoff
      requires State() == EMPTY
      modifies this
      ensures err.None? <==> cutoff >= 4 && AllUsable(tuf, arrivals[..4])
      ensures err.None? ==> State() == AbsorbAll(tuf, EMPTY, arrivals[..4])
    {
      targets, notCheckedChecksums := map[], map[];
      for i := 0 to 4
        invariant i <= cutoff && (i <= |arrivals|)
        invariant State() == AbsorbAll(tuf, EMPTY, arrivals[..i])
        invariant AllUsable(tuf, arrivals[..i])
      {
        if i == cutoff {
          return Some("context cancelled");
        }
        var m := arrivals[i];
        assert arrivals[..i + 1][..i] == arrivals[..i];
        assert m in arrivals[..i + 1] && (|arrivals| >= 4 ==> m in arrivals[..4]);
        if m.err.Some? {
          return Some("error acquiring trust data " + m.role + ": " + m.err.value);
        }
        var parsed := Store(tuf, m);
        if !parsed {
          return Some("error parsing trust data for " + m.role);
        }
        assert arrivals[..i + 1] == arrivals[..i] + [m];
      }
      return None;
    }

    /** One message of a base role. */
    method Store(tuf: Tuf, m: TrustData) returns (parsed: bool)
      requires m.err.None?
      modifies this
      ensures parsed <==> Usable(tuf, m)
      ensures parsed ==> State() == Absorb(tuf, old(State()), m)
    {
      parsed := true;
      if m.role == ROOT {
        root := tuf.rootFromSigned(m.data);
        parsed := root.Some?;
      } else if m.role == TARGETS {
        targets := targets[TARGETS := tuf.targetsFromSigned(m.data, TARGETS)];
        parsed := targets[TARGETS].Some?;
      } else if m.role == SNAPSHOT {
        snapshot := tuf.snapshotFromSigned(m.data);
        parsed := snapshot.Some?;
      } else if m.role == TIMESTAMP {
        timestamp := tuf.timestampFromSigned(m.data);
        parsed := timestamp.Some?;
      }
      if parsed {
        notCheckedChecksums := notCheckedChecksums[m.role := m.raw];
      }
    }

    method ValidateRoot(tuf: Tuf, keys: seq<string>) returns (err: Option<string>)
      requires Loaded(State())
      ensures err.None? <==> RootValid(tuf, root.value, keys)
    {
      var file := root.value;
      if file.signed.None? {
        return Some("serialization error for root");
      }
      if |file.signatures| < 1 {
        return Some("no signatures found for root");
      }
      for k := 0 to |keys|
        invariant forall j :: 0 <= j < k ==> RootSignedWith(tuf, file, keys[j])
      {
        var verified := false;
        for i := 0 to |file.signatures|
          invariant !verified
          invariant forall j :: 0 <= j < i ==> !tuf.verifySignature(file.signed.value, file.signatures[j], keys[k])
        {
          if tuf.verifySignature(file.signed.value, file.signatures[i], keys[k]) {
            verified := true;
            break;
          }
        }
        if !verified {
          assert keys[k] in keys && !RootSignedWith(tuf, file, keys[k]);
          return Some("error validating root signature");
        }
      }
      if tuf.expired(file.body, ROOT) {
        return Some("root trust data expired");
      }
      return None;
    }

    method ValidateRestOfBase(tuf: Tuf) returns (err: Option<string>)
      requires Loaded(State())
      ensures err.None?
         <==> forall r :: r in BASE_ROLES && r != ROOT ==> RoleValid(tuf, root.value, r, Body(State(), r))
    {
      for i := 0 to |BASE_ROLES|
        invariant forall j :: 0 <= j < i && BASE_ROLES[j] != ROOT ==>
                                RoleValid(tuf, root.value, BASE_ROLES[j], Body(State(), BASE_ROLES[j]))
      {
        var role := BASE_ROLES[i];
        assert role in BASE_ROLES;
        if role == ROOT {
          continue;
        }
        var body := if role == TARGETS then targets[TARGETS].value.body
                    else if role == SNAPSHOT then snapshot.value.body
                    else timestamp.value.body;
        var signedObj := tuf.toSigned(body);
        if signedObj.Failure? {
          return Some("serialization error for " + role);
        }
        var verifyRole := tuf.buildBaseRole(root.value, role);
        if verifyRole.None? {
          return Some("error building base role " + role);
        }
        if !tuf.verifySignatures(signedObj.value, verifyRole.value) {
          return Some("error validating signatures of " + role);
        }
        if tuf.expired(body, role) {
          return Some(role + " trust data expired");
        }
      }
      return None;
    }

    method ValidateBaseChecksums(tuf: Tuf) returns (err: Option<string>)
      requires Loaded(State())
      ensures err.None? <==>
              && ChecksumValid(tuf, State(), ROOT, snapshot.value)
              && ChecksumValid(tuf, State(), TARGETS, snapshot.value)
              && ChecksumValid(tuf, State(), SNAPSHOT, timestamp.value)
    {
      for i := 0 to |BASE_ROLES|
        invariant i > 0 ==> ChecksumValid(tuf, State(), ROOT, snapshot.value)
        invariant i > 1 ==> ChecksumValid(tuf, State(), TARGETS, snapshot.value)
        invariant i > 2 ==> ChecksumValid(tuf, State(), SNAPSHOT, timestamp.value)
      {
        var role := BASE_ROLES[i];
        if role == TIMESTAMP {
          continue;
        }
        var hashes := if role == SNAPSHOT then HashesFor(timestamp.value, role) else HashesFor(snapshot.value, role);
        if role !in notCheckedChecksums {
          return Some("no checksums found for " + role);
        }
        if tuf.checkHashes(notCheckedChecksums[role], role, hashes).Some? {
          return Some("error validating checksums of " + role);
        }
      }
      return None;
    }

    method ValidateBaseTrustData(tuf: Tuf, keys: seq<string>) returns (err: Option<string>)
      requires Loaded(State())
      ensures err.None? <==> BaseValid(tuf, State(), keys)
    {
      err := ValidateRoot(tuf, keys);
      if err.Some? {
        return;
      }
      err := ValidateRestOfBase(tuf);
      assert TARGETS in BASE_ROLES && SNAPSHOT in BASE_ROLES && TIMESTAMP in BASE_ROLES;
      if err.Some? {
        return;
      }
      err := ValidateBaseChecksums(tuf);
    }

    method ValidateDelegations(tuf: Tuf, delegations: seq<string>) returns (err: Option<string>)
      requires Loaded(State())
      ensures err == FirstError(tuf, State(), delegations)
    {
      for i := 0 to |delegations|
        invariant FirstError(tuf, State(), delegations) == FirstError(tuf, State(), delegations[i..])
      {
        err := ValidateDelegation(tuf, delegations[i]);
        if err.Some? {
          return;
        }
        assert delegations[i..][1..] == delegations[i + 1..];
      }
      return None;
    }

    method ValidateDelegation(tuf: Tuf, delegation: string) returns (err: Option<string>)
      requires Loaded(State())
      ensures err == DelegationError(tuf, State(), delegation)
    {
      if delegation !in targets || targets[delegation].None? {
        return Some("delegation " + delegation + " not found");
      }
      var delegationTarget := targets[delegation].value;
      var delegationRole := tuf.buildDelegationRole(targets[TARGETS].value, delegation);
      if delegationRole.Failure? {
        return Some("error building delegation role " + delegation + ": " + delegationRole.error);
      }
      var signedObj := tuf.toSigned(delegationTarget.body);
      if signedObj.Failure? {
        return Some("serialization error from signedTarget to signed for delegation " + delegation + ": "
                    + signedObj.error);
      }
      if !tuf.verifySignatures(signedObj.value, delegationRole.value) {
        return Some("error validating delegation " + delegation + " signatures");
      }
      if tuf.expired(delegationTarget.body, delegation) {
        return Some(delegation + " trust data expired");
      }
      if delegation !in notCheckedChecksums {
        return Some("no checksums found for " + delegation);
      }
      var payload, hashes := notCheckedChecksums[delegation], HashesFor(snapshot.value, delegation);
      var mismatch := tuf.checkHashes(payload, delegation, hashes);
      if mismatch.Some? {
        return Some("error validating " + delegation + " checksums: " + mismatch.value);
      }
      return None;
    }

    method DownloadAndValidateDelegations(tuf: Tuf, delegations: seq<string>, arrivals: seq<TrustData>, cutoff: nat)
      returns (err: Option<string>)
      requires Loaded(State())
      requires |arrivals| >= |delegations| || |arrivals| >= cutoff
      requires forall m :: m in arrivals ==> IsDelegation(m.role)
      modifies this
      ensures Progress(State(), err) == DelegationPhase(tuf, old(State()), delegations, arrivals, cutoff)
      ensures SameBase(old(State()), State()) && Loaded(State())
    {
      ghost var start := State();
      for i := 0 to |delegations|
        invariant State() == start
        invariant FirstUnlisted(delegations, targets[TARGETS].value.roles)
               == FirstUnlisted(delegations[i..], targets[TARGETS].value.roles)
      {
        if delegations[i] !in targets[TARGETS].value.roles {
          return Some("delegation " + delegations[i] + " not found");
        }
        assert delegations[i..][1..] == delegations[i + 1..];
      }
      AbsorbKeepsBase(tuf, start, Received(arrivals, |delegations|, cutoff));
      err := ReceiveDelegations(tuf, |delegations|, arrivals, cutoff);
      if err.None? {
        err := ValidateDelegations(tuf, delegations);
      }
    }

    /** The receive loop of DownloadAndValidateDelegations. */
    method ReceiveDelegations(tuf: Tuf, n: nat, arrivals: seq<TrustData>, cutoff: nat) returns (err: Option<string>)
      requires |arrivals| >= n || |arrivals| >= cutoff
      modifies this
      ensures
        var o := AbsorbDelegations(tuf, old(State()), Received(arrivals, n, cutoff));
        && State() == o.s
        && err == if o.err.Some? then o.err else if cutoff < n then Some("context cancelled") else None
    {
      ghost var start := State();
      for i := 0 to n
        invariant i <= cutoff && i <= |arrivals|
        invariant AbsorbDelegations(tuf, start, arrivals[..i]) == Progress(State(), None)
      {
        if i == cutoff {
          return Some("context cancelled");
        }
        var m := arrivals[i];
        assert arrivals[..i + 1][..i] == arrivals[..i] && arrivals[..i + 1][i] == m;
        if m.err.Some? {
          StopsAt(tuf, start, arrivals, i, if cutoff < n then cutoff else n);
          return Some("error downloading delegation " + m.role + ": " + m.err.value);
        }
        targets := targets[m.role := tuf.targetsFromSigned(m.data, m.role)];
        if targets[m.role].None? {
          StopsAt(tuf, start, arrivals, i, if cutoff < n then cutoff else n);
          return Some("error parsing delegation " + m.role);
        }
        notCheckedChecksums := notCheckedChecksums[m.role := m.raw];
      }
      return None;
    }
  }

  /** After the first error no later message matters. */
  lemma {:induction false} StopsAt(tuf: Tuf, s: RepoState, msgs: seq<TrustData>, i: nat, n: nat)
    requires i < n <= |msgs|
    requires AbsorbDelegations(tuf, s, msgs[..i + 1]).err.Some?
    ensures AbsorbDelegations(tuf, s, msgs[..n]) == AbsorbDelegations(tuf, s, msgs[..i + 1])
    decreases n
  {
    if n > i + 1 {
      StopsAt(tuf, s, msgs, i, n - 1);
      assert msgs[..n][..n - 1] == msgs[..n - 1];
    }
  }
}
