/**
 Image references. Parsing itself is a library routine and a parameter: it yields the normalised
 repository name and the identifier, which is the digest if there is one and the tag otherwise.
 */
module Image {
  import opened Wrappers
  import opened GoStrings

  /** name.Reference: Context().Name() and Identifier(). */
  datatype Reference = Reference(context: string, identifier: string)

  /** name.ParseReference; None is its error. */
  type Parser = string -> Option<Reference>

  const SHA256_PREFIX := "sha256:"

  /** The tag New stores: cut out of the written reference if the identifier is a digest. */
  function TagOf(original: string, ref: Reference): string {
    if IsPrefix(SHA256_PREFIX, ref.identifier) then
      Cut(original, Overlap(ref.context, original), ref.identifier)
    else
      TrimPrefix(ref.identifier, ":")
  }

  /** What is left of a written reference without its repository, a colon and its digest. */
  function Cut(original: string, path: string, id: string): string {
    TrimSuffix(TrimPrefix(TrimPrefix(original, path), ":"), "@" + id)
  }

  function DigestOf(ref: Reference): string {
    if IsPrefix(SHA256_PREFIX, ref.identifier) then ref.identifier else ""
  }

  function Normalised(digest: string): string {
    if digest != "" && !IsPrefix(SHA256_PREFIX, digest) then SHA256_PREFIX + digest else digest
  }

  /** A bare digest gets its prefix, and nothing else is changed. */
  lemma NormalisedExactly(digest: string)
    ensures digest == "" ==> Normalised(digest) == ""
    ensures digest != "" ==> IsPrefix("sha256:", Normalised(digest)) && IsSuffix(digest, Normalised(digest))
    ensures |Normalised(digest)| == |digest| || |Normalised(digest)| == |digest| + 7
    ensures IsPrefix("sha256:", digest) ==> Normalised(digest) == digest
  {
  }

  /** Without a digest the identifier is the tag, and the full name is repository, colon and tag. */
  lemma TaggedReference(original: string, ref: Reference)
    requires !IsPrefix("sha256:", ref.identifier) && ref.identifier != "" && ref.identifier[0] != ':'
    ensures TagOf(original, ref) == ref.identifier && DigestOf(ref) == ""
    ensures FullName(ref.context, TagOf(original, ref), DigestOf(ref)) == ref.context + ":" + ref.identifier
  {
  }

  /** The fully qualified name for a repository, a tag and a digest, either of which may be empty. */
  function FullName(context: string, tag: string, digest: string): string {
    context + TagPart(tag) + DigestPart(digest)
  }

  function TagPart(tag: string): string {
    if tag == "" then "" else ":" + tag
  }

  function DigestPart(digest: string): string {
    if digest == "" then "" else "@" + digest
  }

  class Image {
    const original: string
    const ref: Reference
    var tag: string
    var digest: string

    /** The body of New once parsing has succeeded. */
    constructor (image: string, ref: Reference)
      ensures original == image && this.ref == ref
      ensures tag == TagOf(image, ref) && digest == DigestOf(ref)
    {
      this.original := image;
      this.ref := ref;
      this.tag := "";
      this.digest := "";
      new;
      var id := ref.identifier;
      if IsPrefix(SHA256_PREFIX, id) {
        digest := id;
        var fullyQualifiedImagePath := StringOverlap(ref.context, original);
        var tagAndDigest := TrimPrefix(TrimPrefix(original, fullyQualifiedImagePath), ":");
        tag := TrimSuffix(tagAndDigest, "@" + id);
      } else {
        tag := TrimPrefix(id, ":");
      }
    }

    function Name(): string
      reads this
    {
      var t := if tag != "" then ":" + tag else "";
      var d := if digest != "" then "@" + digest else "";
      ref.context + t + d
    }

    function OriginalString(): string {
      original
    }

    method SetDigest(digest: string)
      modifies this`digest
      ensures this.digest == Normalised(digest)
      ensures Name() == FullName(ref.context, tag, Normalised(digest))
    {
      var d := digest;
      if d != "" && !IsPrefix("sha256:", d) {
        d := "sha256:" + d;
      }
      this.digest := d;
    }
  }

  method New(image: string, parse: Parser) returns (img: Image?)
    ensures img == null <==> parse(image).None?
    ensures img != null ==>
              && fresh(img) && img.original == image && img.ref == parse(image).value
              && img.tag == TagOf(image, img.ref) && img.digest == DigestOf(img.ref)
  {
    match parse(image)
    case None => return null;
    case Some(ref) => img := new Image(image, ref);
  }

  // ---------- recovering the tag ----------

  /** A reference with a digest as it is written: repository, optional tag, digest. */
  function Written(repo: string, tag: string, digest: string): string {
    repo + TagPart(tag) + DigestPart(digest)
  }

  predicate Plain(s: string) {
    forall i :: 0 <= i < |s| ==> s[i] != ':' && s[i] != '@'
  }

  /** Cutting with the written repository itself gives back the tag. */
  lemma CutAtRepo(repo: string, tag: string, digest: string)
    requires digest != ""
    ensures Cut(Written(repo, tag, digest), repo, digest) == tag
  {
    var d := "@" + digest;
    var rest := TagPart(tag) + d;
    assert Written(repo, tag, digest) == repo + rest;
    TrimExactPrefix(repo, rest);
    if tag == "" {
      assert rest == d;
    } else {
      assert rest == ":" + (tag + d);
      TrimExactPrefix(":", tag + d);
    }
    assert TrimPrefix(rest, ":") == tag + d;
    TrimExactSuffix(tag, d);
  }

  /** What follows the repository starts with a separator, so a plain overlap ends at or before it. */
  lemma PlainOverlapStaysInRepo(context: string, repo: string, tag: string, digest: string)
    requires digest != "" && Plain(context)
    ensures |Overlap(context, Written(repo, tag, digest))| <= |repo|
  {
    var s := Written(repo, tag, digest);
    var path := Overlap(context, s);
    OverlapEnds(context, s);
    assert s[|repo|] == ':' || s[|repo|] == '@';
    assert forall i :: 0 <= i < |path| ==> path[i] == s[i];
    assert forall i :: 0 <= i < |path| ==> path[i] == context[|context| - |path| + i];
  }

  lemma OverlapIsRepo(context: string, repo: string, tag: string, digest: string)
    requires digest != ""
    requires IsSuffix(repo, context)
    requires repo == context || Plain(context)
    ensures Overlap(context, Written(repo, tag, digest)) == repo
  {
    var s := Written(repo, tag, digest);
    var path := Overlap(context, s);
    assert s[..|repo|] == repo;
    OverlapEnds(context, s);
    OverlapLongest(context, s, repo);
    if repo != context {
      PlainOverlapStaysInRepo(context, repo, tag, digest);
    }
    assert path == s[..|path|];
  }

  /** New recovers the written tag, and the name is the normalised repository plus the unchanged rest. */
  lemma ReferenceRecovery(repo: string, tag: string, ref: Reference)
    requires IsPrefix(SHA256_PREFIX, ref.identifier)
    requires IsSuffix(repo, ref.context)
    requires repo == ref.context || Plain(ref.context)
    ensures TagOf(Written(repo, tag, ref.identifier), ref) == tag
    ensures DigestOf(ref) == ref.identifier
    ensures FullName(ref.context, tag, ref.identifier) == ref.context + Written(repo, tag, ref.identifier)[|repo|..]
  {
    var id := ref.identifier;
    OverlapIsRepo(ref.context, repo, tag, id);
    CutAtRepo(repo, tag, id);
    NameKeepsTheRest(ref.context, repo, tag, id);
  }

  lemma NameKeepsTheRest(context: string, repo: string, tag: string, digest: string)
    ensures FullName(context, tag, digest) == context + Written(repo, tag, digest)[|repo|..]
  {
    var rest := TagPart(tag) + DigestPart(digest);
    assert Written(repo, tag, digest) == repo + rest;
    assert FullName(context, tag, digest) == context + rest;
  }

  /** The full name of a parsed reference. */
  function NameOf(parse: Parser, image: string): Option<string> {
    match parse(image)
    case None => None
    case Some(ref) => Some(FullName(ref.context, TagOf(image, ref), DigestOf(ref)))
  }

  /**
   If the library reads the full name as the reference it belongs to, then parsing that name gives
   the name again.
   */
  lemma NameIsFixedPoint(parse: Parser, repo: string, tag: string, ref: Reference)
    requires parse(Written(repo, tag, ref.identifier)) == Some(ref)
    requires parse(FullName(ref.context, tag, ref.identifier)) == Some(ref)
    requires IsPrefix(SHA256_PREFIX, ref.identifier)
    requires IsSuffix(repo, ref.context)
    requires repo == ref.context || Plain(ref.context)
    ensures
      var name := NameOf(parse, Written(repo, tag, ref.identifier));
      name == Some(FullName(ref.context, tag, ref.identifier)) && NameOf(parse, name.value) == name
  {
    ReferenceRecovery(repo, tag, ref);
    ReferenceRecovery(ref.context, tag, ref);
  }

  /**
   Among references without a port, the tag is recovered exactly if the written repository is a
   suffix of the normalised one.
   */
  lemma RecoveredIffSuffix(repo: string, tag: string, ref: Reference)
    requires IsPrefix(SHA256_PREFIX, ref.identifier)
    requires Plain(repo) && Plain(ref.context)
    ensures TagOf(Written(repo, tag, ref.identifier), ref) == tag <==> IsSuffix(repo, ref.context)
  {
    if IsSuffix(repo, ref.context) {
      ReferenceRecovery(repo, tag, ref);
    } else {
      ShortOverlapKeepsTooMuch(repo, tag, ref);
    }
  }

  lemma ShortOverlapKeepsTooMuch(repo: string, tag: string, ref: Reference)
    requires IsPrefix(SHA256_PREFIX, ref.identifier)
    requires Plain(repo) && Plain(ref.context)
    requires !IsSuffix(repo, ref.context)
    ensures |TagOf(Written(repo, tag, ref.identifier), ref)| > |tag|
  {
    var path := OverlapEndsInsideRepo(ref.context, repo, tag, ref.identifier);
    CutTooEarly(Written(repo, tag, ref.identifier), path, ref.identifier);
  }

  lemma OverlapEndsInsideRepo(context: string, repo: string, tag: string, digest: string) returns (path: string)
    requires digest != "" && Plain(repo) && Plain(context) && !IsSuffix(repo, context)
    ensures path == Overlap(context, Written(repo, tag, digest))
    ensures IsPrefix(path, Written(repo, tag, digest))
    ensures |path| < |repo| && Written(repo, tag, digest)[|path|] != ':'
  {
    var s := Written(repo, tag, digest);
    path := Overlap(context, s);
    PlainOverlapStaysInRepo(context, repo, tag, digest);
    OverlapEnds(context, s);
    assert s[..|repo|] == repo;
    assert |path| == |repo| ==> path == repo;
    assert s[|path|] == repo[|path|];
  }

  /** A cut that ends before a character other than a colon leaves everything after it. */
  lemma CutTooEarly(s: string, path: string, id: string)
    requires IsPrefix(path, s) && |path| < |s| && s[|path|] != ':'
    ensures |Cut(s, path, id)| >= |s| - |path| - |id| - 1
  {
    var rest := s[|path|..];
    assert TrimPrefix(s, path) == rest && rest[0] != ':';
    assert TrimPrefix(rest, ":") == rest;
  }

  /** The family that fails: the short Docker Hub host is spelled out, tag and digest are given. */
  lemma DockerHubLosesTag(tag: string, ref: Reference)
    requires IsPrefix(SHA256_PREFIX, ref.identifier)
    requires ref.context == "index.docker.io/library/nginx"
    ensures TagOf(Written("docker.io/nginx", tag, ref.identifier), ref) != tag
  {
    assert ref.context[|ref.context| - 15] == 'o';
    RecoveredIffSuffix("docker.io/nginx", tag, ref);
  }

  /** A digest stored after validation and set again on a fresh image gives the same name. */
  lemma StoredDigestSameName(context: string, tag: string, digest: string)
    ensures FullName(context, tag, Normalised(Normalised(digest))) == FullName(context, tag, Normalised(digest))
    ensures Normalised(digest) == "" <==> digest == ""
  {
    if digest != "" && !IsPrefix(SHA256_PREFIX, digest) {
      assert (SHA256_PREFIX + digest)[..|SHA256_PREFIX|] == SHA256_PREFIX;
    }
  }
}
