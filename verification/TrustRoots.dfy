/** Which configured trust roots a list of names stands for. */
module TrustRoots {
  import opened Wrappers

  datatype TrustRoot = TrustRoot(name: string, key: string)

  predicate NoReference(keyRefs: seq<string>) {
    keyRefs == [] || keyRefs == [""]
  }

  /** The names that are looked up. */
  function Requested(keyRefs: seq<string>, useDefault: bool): seq<string> {
    if NoReference(keyRefs) && useDefault then ["default"] else keyRefs
  }

  function FirstNamed(roots: seq<TrustRoot>, name: string): Option<TrustRoot> {
    if roots == [] then None
    else if roots[0].name == name then Some(roots[0])
    else FirstNamed(roots[1..], name)
  }

  /** What GetTrustRoots promises: all roots for the lone star, else one root per name, in order. */
  ghost predicate Answers(keyRefs: seq<string>, roots: seq<TrustRoot>, useDefault: bool, r: Result<seq<TrustRoot>>) {
    var names := Requested(keyRefs, useDefault);
    if names == ["*"] then r == Success(roots)
    else
      && (r.Success? <==> names != [] && forall n :: n in names ==> FirstNamed(roots, n).Some?)
      && (r.Success? ==> |r.value| == |names|
                         && forall i :: 0 <= i < |names| ==> FirstNamed(roots, names[i]) == Some(r.value[i]))
  }

  method GetTrustRoots(keyRefs: seq<string>, roots: seq<TrustRoot>, useDefault: bool)
    returns (r: Result<seq<TrustRoot>>)
    ensures Answers(keyRefs, roots, useDefault, r)
  {
    var trustRootsKeys: seq<TrustRoot> := [];
    var names := keyRefs;
    var noKeyRefProvided := |keyRefs| == 0 || (|keyRefs| == 1 && keyRefs[0] == "");
    if noKeyRefProvided && useDefault {
      names := ["default"];
    }
    for idx := 0 to |names|
      invariant names != ["*"] || idx == 0
      invariant |trustRootsKeys| == idx
      invariant forall i :: 0 <= i < idx ==> FirstNamed(roots, names[i]) == Some(trustRootsKeys[i])
    {
      var keyRef := names[idx];
      if keyRef == "*" && |names| == 1 {
        return Success(roots);
      }
      for k := 0 to |roots|
        invariant FirstNamed(roots, keyRef) == FirstNamed(roots[k..], keyRef)
        invariant |trustRootsKeys| == idx
        invariant forall i :: 0 <= i < idx ==> FirstNamed(roots, names[i]) == Some(trustRootsKeys[i])
      {
        if roots[k].name == keyRef {
          trustRootsKeys := trustRootsKeys + [roots[k]];
          break;
        }
        assert roots[k..][1..] == roots[k + 1..];
      }
      if |trustRootsKeys| < idx + 1 {
        assert names[idx] in names;
        return Failure("unable to find trust root " + keyRef);
      }
    }
    if |trustRootsKeys| == 0 {
      return Failure("no trust roots defined for key references");
    }
    return Success(trustRootsKeys);
  }

  /** The answer is the first root with the name. */
  lemma {:induction false} FirstNamedExact(roots: seq<TrustRoot>, name: string)
    ensures FirstNamed(roots, name).None? <==> forall k :: 0 <= k < |roots| ==> roots[k].name != name
    ensures FirstNamed(roots, name).Some? ==>
              exists k :: 0 <= k < |roots| && roots[k] == FirstNamed(roots, name).value && roots[k].name == name
                          && forall j :: 0 <= j < k ==> roots[j].name != name
  {
    if roots != [] && roots[0].name != name {
      FirstNamedExact(roots[1..], name);
      if FirstNamed(roots, name).Some? {
        var rest := roots[1..];
        var k :| 0 <= k < |rest| && rest[k] == FirstNamed(rest, name).value && rest[k].name == name
                 && forall j :: 0 <= j < k ==> rest[j].name != name;
        assert roots[k + 1] == rest[k];
      }
    }
  }
}
