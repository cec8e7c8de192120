/** Workload objects: where each kind keeps its containers, and which containers share an image. */
module Workload {
  import opened Wrappers
  import opened Distinct
  import opened JsonTree

  datatype ContainerType = Containers | InitContainers | EphemeralContainers {
    function Name(): string {
      match this
      case Containers => "containers"
      case InitContainers => "initContainers"
      case EphemeralContainers => "ephemeralContainers"
    }
  }

  datatype IdxType = IdxType(index: nat, kind: ContainerType)

  /** Each list holds the images of the containers of one type, in order. */
  datatype WorkloadObject = WorkloadObject(
    kind: string,
    containers: seq<string>,
    initContainers: seq<string>,
    ephemeralContainers: seq<string>,
    deleted: bool)
  {
    function List(t: ContainerType): seq<string> {
      match t
      case Containers => containers
      case InitContainers => initContainers
      case EphemeralContainers => ephemeralContainers
    }

    predicate Has(p: IdxType) {
      p.index < |List(p.kind)|
    }

    function ImageAt(p: IdxType): string
      requires Has(p)
    {
      List(p.kind)[p.index]
    }

    function Images(): seq<string> {
      containers + initContainers + ephemeralContainers
    }
  }

  // ---------- decoding ----------

  const TEMPLATE_KINDS := {"Deployment", "ReplicationController", "ReplicaSet", "DaemonSet", "StatefulSet", "Job"}

  predicate KnownKind(kind: string) {
    kind == "Pod" || kind == "CronJob" || kind in TEMPLATE_KINDS
  }

  /** The pod specification each kind's Go type is read from. */
  function PodSpec(kind: string): Path
    requires KnownKind(kind)
  {
    if kind == "Pod" then [Key("spec")]
    else if kind == "CronJob" then [Key("spec"), Key("jobTemplate"), Key("spec"), Key("template"), Key("spec")]
    else [Key("spec"), Key("template"), Key("spec")]
  }

  /** Only pods have their ephemeral containers read. */
  predicate Reads(kind: string, t: ContainerType) {
    t.EphemeralContainers? ==> kind == "Pod"
  }

  /** A missing or null image decodes to the empty string; anything but text is an error. */
  function DecodeImage(container: Json): Option<string> {
    match container
    case Null => Some("")
    case Obj(fields) =>
      if "image" !in fields || fields["image"].Null? then Some("")
      else if fields["image"].Text? then Some(fields["image"].text)
      else None
    case _ => None
  }

  function DecodeImages(items: seq<Json>): (r: Option<seq<string>>)
    ensures r.Some? ==> |r.value| == |items|
                        && forall i :: 0 <= i < |items| ==> DecodeImage(items[i]) == Some(r.value[i])
  {
    if items == [] then Some([])
    else
      var last := |items| - 1;
      match (DecodeImages(items[..last]), DecodeImage(items[last]))
      case (Some(front), Some(image)) => Some(front + [image])
      case _ => None
  }

  function DecodeList(spec: Json, t: ContainerType): Option<seq<string>> {
    match Child(spec, Key(t.Name()))
    case None => Some([])
    case Some(Null) => Some([])
    case Some(Arr(items)) => DecodeImages(items)
    case _ => None
  }

  /** Whatever is found along the path is an object, null or missing. */
  predicate WellTyped(doc: Json, path: Path) {
    || doc.Null?
    || (doc.Obj? && (path == [] || Child(doc, path[0]).None? || WellTyped(Child(doc, path[0]).value, path[1..])))
  }

  const METADATA := [Key("metadata")]
  const TEMPLATE := [Key("spec"), Key("template")]

  /** Replication controllers alone keep their template behind a pointer, and it is followed unchecked. */
  predicate NilTemplate(raw: Json, kind: string) {
    && kind == "ReplicationController"
    && match Get(raw, TEMPLATE) case None => true case Some(template) => template.Null?
  }

  /** Crashed: the call never returns, because it follows a nil pointer. */
  datatype Decoding = Decoded(w: WorkloadObject) | Refused(error: string) | Crashed

  /** NewWorkloadObjectFromBytes */
  function Decode(raw: Json, kind: string): Decoding {
    if !KnownKind(kind) then Refused("unknown workload kind \"" + kind + "\"")
    else if !WellTyped(raw, PodSpec(kind)) || !WellTyped(raw, METADATA) then Refused(ConversionError(kind))
    else
      var spec := match Get(raw, PodSpec(kind)) case Some(s) => s case None => Null;
      var ephemeral := if Reads(kind, EphemeralContainers) then DecodeList(spec, EphemeralContainers) else Some([]);
      match (DecodeList(spec, Containers), DecodeList(spec, InitContainers), ephemeral)
      case (Some(c), Some(i), Some(e)) =>
        if NilTemplate(raw, kind) then Crashed
        else if c == [] && i == [] && e == [] then Refused("no containers found in workload object")
        else
          var mark := Get(raw, [Key("metadata"), Key("deletionTimestamp")]);
          Decoded(WorkloadObject(kind, c, i, e, mark.Some? && !mark.value.Null?))
      case _ => Refused(ConversionError(kind))
  }

  function ConversionError(kind: string): string {
    "deserialize conversion to \"" + kind + "\" has failed"
  }

  /** Decoding crashes exactly on a well-formed replication controller without a template. */
  lemma CrashesExactly(raw: Json, kind: string)
    ensures Decode(raw, kind).Crashed?
       <==> NilTemplate(raw, kind) && WellTyped(raw, PodSpec("ReplicationController")) && WellTyped(raw, METADATA)
  {
    if NilTemplate(raw, kind) {
      NoSpecBelow(raw);
    }
  }

  lemma NoSpecBelow(raw: Json)
    requires NilTemplate(raw, "ReplicationController")
    ensures Get(raw, PodSpec("ReplicationController")).None?
  {
    assert PodSpec("ReplicationController") == TEMPLATE + [Key("spec")];
    if Get(raw, TEMPLATE).Some? {
      GetBelow(raw, TEMPLATE, [Key("spec")]);
    } else {
      NothingBelow(raw, TEMPLATE, [Key("spec")]);
    }
  }

  /** For instance an empty specification, or one whose template is null. */
  lemma EmptyControllerCrashes()
    ensures Decode(Obj(map["spec" := Obj(map[])]), "ReplicationController").Crashed?
    ensures Decode(Obj(map["spec" := Obj(map["template" := Null])]), "ReplicationController").Crashed?
  {
    var bare, null_ := Obj(map["spec" := Obj(map[])]), Obj(map["spec" := Obj(map["template" := Null])]);
    var path := PodSpec("ReplicationController");
    assert path[1..] == [Key("template"), Key("spec")] && path[1..][1..] == [Key("spec")];
    assert TEMPLATE[1..] == [Key("template")] && TEMPLATE[1..][1..] == [];
    CrashesExactly(bare, "ReplicationController");
    CrashesExactly(null_, "ReplicationController");
  }

  /** Every location on the path holds an object or null, or nothing. */
  lemma {:induction false} WellTypedMeans(doc: Json, path: Path)
    ensures WellTyped(doc, path)
       <==> forall n :: 0 <= n <= |path| ==>
                          match Get(doc, path[..n]) case None => true case Some(v) => v.Obj? || v.Null?
  {
    assert path[..0] == [] && Get(doc, path[..0]) == Some(doc);
    forall n | 0 < n <= |path|
      ensures Get(doc, path[..n]) ==
              match Child(doc, path[0]) case None => None case Some(c) => Get(c, path[1..][..n - 1])
    {
      assert path[..n][0] == path[0] && path[..n][1..] == path[1..][..n - 1];
    }
    if path != [] && Child(doc, path[0]).Some? {
      WellTypedMeans(Child(doc, path[0]).value, path[1..]);
      var c := Child(doc, path[0]).value;
      forall n | 0 <= n <= |path| - 1
        ensures Get(c, path[1..][..n]) == Get(doc, path[..n + 1])
      {
        assert path[..n + 1][0] == path[0] && path[..n + 1][1..] == path[1..][..n];
      }
    }
  }

  /** The metadata of the object carries a deletion time. */
  predicate MarkedForDeletion(raw: Json) {
    && raw.Obj? && "metadata" in raw.fields && raw.fields["metadata"].Obj?
    && var metadata := raw.fields["metadata"].fields;
    && "deletionTimestamp" in metadata && !metadata["deletionTimestamp"].Null?
  }

  lemma DeletedExactly(raw: Json, kind: string, w: WorkloadObject)
    requires Decode(raw, kind) == Decoded(w)
    ensures w.deleted <==> MarkedForDeletion(raw)
  {
    var rest := [Key("deletionTimestamp")];
    assert [Key("metadata"), Key("deletionTimestamp")] == [Key("metadata")] + rest && rest == rest + [];
    if raw.Obj? && "metadata" in raw.fields {
      BelowKey(raw.fields, "metadata", rest);
      var metadata := raw.fields["metadata"];
      if metadata.Obj? && "deletionTimestamp" in metadata.fields {
        BelowKey(metadata.fields, "deletionTimestamp", []);
      }
    }
  }

  predicate ObjectLike(doc: Json) {
    doc.Obj? || doc.Null?
  }

  /** What is no object, or has metadata or a specification that is none, is refused. */
  lemma MisshapenRefused(raw: Json, kind: string)
    requires || !ObjectLike(raw)
             || (raw.Obj? && "metadata" in raw.fields && !ObjectLike(raw.fields["metadata"]))
             || (raw.Obj? && "spec" in raw.fields && !ObjectLike(raw.fields["spec"]))
    ensures Decode(raw, kind).Refused?
  {
    UnsupportedRefused(raw, kind);
    if raw.Obj? && "metadata" in raw.fields && !ObjectLike(raw.fields["metadata"]) {
      assert METADATA[0] == Key("metadata");
      assert !WellTyped(raw, METADATA);
    } else if raw.Obj? && Supported(kind) {
      assert PodSpec(kind)[0] == Key("spec");
      assert !WellTyped(raw, PodSpec(kind));
    }
  }

  /** The object of each kind with this metadata and pod specification, and nothing else. */
  function Manifest(kind: string, metadata: Json, spec: Json): Json {
    var template := Obj(map["template" := Obj(map["spec" := spec])]);
    var body :=
      if kind == "Pod" then spec
      else if kind == "CronJob" then Obj(map["jobTemplate" := Obj(map["spec" := template])])
      else template;
    Obj(map["metadata" := metadata, "spec" := body])
  }

  function Specification(containers: seq<string>, inits: seq<string>, ephemerals: seq<string>): Json {
    Obj(map["containers" := Arr(ContainersWith(containers)),
            "initContainers" := Arr(ContainersWith(inits)),
            "ephemeralContainers" := Arr(ContainersWith(ephemerals))])
  }

  function ContainersWith(images: seq<string>): seq<Json> {
    seq(|images|, i requires 0 <= i < |images| => Obj(map["image" := Text(images[i])]))
  }

  /** The eight kinds that are validated. */
  predicate Supported(kind: string) {
    kind in {"Pod", "Deployment", "ReplicationController", "ReplicaSet", "DaemonSet", "StatefulSet", "Job", "CronJob"}
  }

  lemma UnsupportedRefused(raw: Json, kind: string)
    ensures KnownKind(kind) <==> Supported(kind)
    ensures !Supported(kind) ==> Decode(raw, kind).Refused?
  {
  }

  lemma SpecOfManifest(kind: string, metadata: Json, spec: Json)
    requires KnownKind(kind) && spec.Obj? && (metadata.Obj? || metadata.Null?)
    ensures
      var raw := Manifest(kind, metadata, spec);
      && Get(raw, PodSpec(kind)) == Some(spec)
      && WellTyped(raw, PodSpec(kind)) && WellTyped(raw, METADATA) && !NilTemplate(raw, kind)
  {
    var doc := Manifest(kind, metadata, spec);
    BelowKey(doc.fields, "metadata", []);
    assert METADATA == [Key("metadata")] + [];
    if kind == "Pod" {
      BelowKey(doc.fields, "spec", []);
      assert PodSpec(kind) == [Key("spec")] + [];
    } else if kind == "CronJob" {
      CronJobSpec(metadata, spec);
    } else {
      TemplateSpec(spec);
      var template := Obj(map["template" := Obj(map["spec" := spec])]);
      BelowKey(doc.fields, "spec", [Key("template"), Key("spec")]);
      assert PodSpec(kind) == [Key("spec")] + [Key("template"), Key("spec")];
      BelowKey(template.fields, "template", []);
      BelowKey(doc.fields, "spec", [Key("template")]);
      assert TEMPLATE == [Key("spec")] + [Key("template")] && [Key("template")] == [Key("template")] + [];
    }
  }

  lemma TemplateSpec(spec: Json)
    requires spec.Obj?
    ensures
      var template := Obj(map["template" := Obj(map["spec" := spec])]);
      && Get(template, [Key("template"), Key("spec")]) == Some(spec)
      && WellTyped(template, [Key("template"), Key("spec")])
  {
    BelowKey(map["spec" := spec], "spec", []);
    BelowKey(map["template" := Obj(map["spec" := spec])], "template", [Key("spec")]);
    assert [Key("template"), Key("spec")] == [Key("template")] + [Key("spec")] && [Key("spec")] == [Key("spec")] + [];
  }

  lemma CronJobSpec(metadata: Json, spec: Json)
    requires spec.Obj?
    ensures
      var raw := Manifest("CronJob", metadata, spec);
      Get(raw, PodSpec("CronJob")) == Some(spec) && WellTyped(raw, PodSpec("CronJob"))
  {
    var template := Obj(map["template" := Obj(map["spec" := spec])]);
    var job, raw := Obj(map["jobTemplate" := Obj(map["spec" := template])]), Manifest("CronJob", metadata, spec);
    var path1 := [Key("template"), Key("spec")];
    var path2 := [Key("spec")] + path1;
    var path3 := [Key("jobTemplate")] + path2;
    TemplateSpec(spec);
    BelowKey(map["spec" := template], "spec", path1);
    BelowKey(job.fields, "jobTemplate", path2);
    BelowKey(raw.fields, "spec", path3);
    assert PodSpec("CronJob") == [Key("spec")] + path3;
  }

  /** One key down. */
  lemma BelowKey(fields: map<string, Json>, k: string, rest: Path)
    requires k in fields
    ensures Get(Obj(fields), [Key(k)] + rest) == Get(fields[k], rest)
    ensures WellTyped(Obj(fields), [Key(k)] + rest) <==> WellTyped(fields[k], rest)
  {
    assert ([Key(k)] + rest)[1..] == rest;
  }

  lemma {:induction false} ContainersDecode(images: seq<string>)
    ensures DecodeImages(ContainersWith(images)) == Some(images)
  {
    if images != [] {
      var last := |images| - 1;
      ContainersDecode(images[..last]);
      assert ContainersWith(images)[..last] == ContainersWith(images[..last]);
      assert images == images[..last] + [images[last]];
    }
  }

  /**
   Of every supported kind the containers and init containers are read from the pod specification, and
   of pods the ephemeral containers too; the order within each list is kept.
   */
  lemma ManifestDecodes(
    kind: string, metadata: Json, containers: seq<string>, inits: seq<string>, ephemerals: seq<string>)
    requires Supported(kind) && (metadata.Obj? || metadata.Null?)
    requires containers + inits + (if kind == "Pod" then ephemerals else []) != []
    ensures
      var raw := Manifest(kind, metadata, Specification(containers, inits, ephemerals));
      && Decode(raw, kind).Decoded?
      && var w := Decode(raw, kind).w;
      && w.kind == kind && w.containers == containers && w.initContainers == inits
      && w.ephemeralContainers == if kind == "Pod" then ephemerals else []
  {
    var spec := Specification(containers, inits, ephemerals);
    UnsupportedRefused(Null, kind);
    SpecOfManifest(kind, metadata, spec);
    ListsOfSpecification(containers, inits, ephemerals);
  }

  lemma ListsOfSpecification(containers: seq<string>, inits: seq<string>, ephemerals: seq<string>)
    ensures DecodeList(Specification(containers, inits, ephemerals), Containers) == Some(containers)
    ensures DecodeList(Specification(containers, inits, ephemerals), InitContainers) == Some(inits)
    ensures DecodeList(Specification(containers, inits, ephemerals), EphemeralContainers) == Some(ephemerals)
  {
    ContainersDecode(containers);
    ContainersDecode(inits);
    ContainersDecode(ephemerals);
  }

  /** A list of containers can be read exactly if each is an object, or null, and its image a text, null or missing. */
  lemma {:induction false} ReadableExactly(items: seq<Json>)
    ensures DecodeImages(items).Some?
       <==> forall i :: 0 <= i < |items| ==>
                          || items[i].Null?
                          || (items[i].Obj? && ("image" in items[i].fields ==>
                                                  items[i].fields["image"].Null? || items[i].fields["image"].Text?))
    ensures DecodeImages(items).Some? ==>
              forall i :: 0 <= i < |items| ==>
                            DecodeImages(items).value[i]
                            == if items[i].Obj? && "image" in items[i].fields && items[i].fields["image"].Text?
                               then items[i].fields["image"].text else ""
  {
    if items != [] {
      var last := |items| - 1;
      ReadableExactly(items[..last]);
      assert forall i :: 0 <= i < last ==> items[..last][i] == items[i];
    }
  }

  /** ContainerPathFormatString, filled in for one container. */
  function ImagePath(kind: string, p: IdxType): Path {
    (if kind == "Pod" then [Key("spec")]
     else if kind == "CronJob" then [Key("spec"), Key("jobTemplate"), Key("spec"), Key("template"), Key("spec")]
     else [Key("spec"), Key("template"), Key("spec")])
    + [Key(p.kind.Name()), Index(p.index), Key("image")]
  }

  // ---------- consolidation ----------

  /** Where an image occurs in one list, in ascending order. */
  function Occurrences(list: seq<string>, t: ContainerType, image: string): seq<IdxType> {
    if list == [] then []
    else
      var last := |list| - 1;
      Occurrences(list[..last], t, image) + (if list[last] == image then [IdxType(last, t)] else [])
  }

  function Places(w: WorkloadObject, image: string): seq<IdxType> {
    Occurrences(w.containers, Containers, image)
    + Occurrences(w.initContainers, InitContainers, image)
    + Occurrences(w.ephemeralContainers, EphemeralContainers, image)
  }

  function Recorded(m: map<string, seq<IdxType>>, image: string): seq<IdxType> {
    if image in m then m[image] else []
  }

  lemma OccurrencesStep(list: seq<string>, t: ContainerType, image: string, idx: nat)
    requires idx < |list|
    ensures Occurrences(list[..idx + 1], t, image)
         == Occurrences(list[..idx], t, image) + if list[idx] == image then [IdxType(idx, t)] else []
  {
    assert list[..idx + 1][..idx] == list[..idx];
  }

  /** r is base with each occurrence in the list appended under its image. */
  ghost predicate Extended(
    base: map<string, seq<IdxType>>, list: seq<string>, t: ContainerType, r: map<string, seq<IdxType>>)
  {
    && r.Keys == base.Keys + Elements(list)
    && forall image {:trigger Recorded(r, image)} ::
         Recorded(r, image) == Recorded(base, image) + Occurrences(list, t, image)
  }

  lemma Appended(base: seq<IdxType>, list: seq<string>, t: ContainerType, image: string, idx: nat)
    requires idx < |list|
    ensures base + Occurrences(list[..idx + 1], t, image)
         == base + Occurrences(list[..idx], t, image) + if list[idx] == image then [IdxType(idx, t)] else []
  {
    OccurrencesStep(list, t, image, idx);
  }

  lemma ElementsStep(list: seq<string>, idx: nat)
    requires idx < |list|
    ensures Elements(list[..idx + 1]) == Elements(list[..idx]) + {list[idx]}
  {
    assert list[..idx + 1] == list[..idx] + [list[idx]];
  }

  function Push(m: map<string, seq<IdxType>>, image: string, entry: IdxType): (r: map<string, seq<IdxType>>)
    ensures r.Keys == m.Keys + {image}
  {
    m[image := Recorded(m, image) + [entry]]
  }

  lemma RecordedPush(m: map<string, seq<IdxType>>, image: string, entry: IdxType, other: string)
    ensures Recorded(Push(m, image, entry), other) == Recorded(m, other) + if image == other then [entry] else []
  {
  }

  lemma ExtendedByOne(
    base: map<string, seq<IdxType>>, list: seq<string>, t: ContainerType, m: map<string, seq<IdxType>>, idx: nat)
    requires idx < |list| && Extended(base, list[..idx], t, m)
    ensures Extended(base, list[..idx + 1], t, Push(m, list[idx], IdxType(idx, t)))
  {
    ElementsStep(list, idx);
    forall image
      ensures Recorded(Push(m, list[idx], IdxType(idx, t)), image)
           == Recorded(base, image) + Occurrences(list[..idx + 1], t, image)
    {
      Appended(Recorded(base, image), list, t, image, idx);
      RecordedPush(m, list[idx], IdxType(idx, t), image);
    }
  }

  method AddContainers(consolidated: map<string, seq<IdxType>>, list: seq<string>, t: ContainerType)
    returns (r: map<string, seq<IdxType>>)
    ensures Extended(consolidated, list, t, r)
  {
    r := consolidated;
    for idx := 0 to |list|
      invariant Extended(consolidated, list[..idx], t, r)
    {
      ExtendedByOne(consolidated, list, t, r, idx);
      var newEntry := IdxType(idx, t);
      if list[idx] in r {
        r := r[list[idx] := r[list[idx]] + [newEntry]];
      } else {
        assert Recorded(r, list[idx]) + [newEntry] == [newEntry];
        r := r[list[idx] := [newEntry]];
      }
    }
    assert list[..|list|] == list;
  }

  method ConsolidatedContainers(w: WorkloadObject) returns (consolidated: map<string, seq<IdxType>>)
    ensures consolidated.Keys == Elements(w.Images())
    ensures forall image :: image in consolidated ==> consolidated[image] == Places(w, image)
  {
    var c := AddContainers(map[], w.containers, Containers);
    var ci := AddContainers(c, w.initContainers, InitContainers);
    consolidated := AddContainers(ci, w.ephemeralContainers, EphemeralContainers);
    assert consolidated.Keys == Elements(w.Images());
    forall image | image in consolidated
      ensures consolidated[image] == Places(w, image)
    {
      assert Recorded(c, image) == Occurrences(w.containers, Containers, image);
      assert Recorded(ci, image) == Recorded(c, image) + Occurrences(w.initContainers, InitContainers, image);
      assert consolidated[image] == Recorded(consolidated, image);
    }
  }

  /** The different images, in the arbitrary order of a map iteration. */
  method ImageSet(w: WorkloadObject) returns (imageSet: seq<string>)
    ensures NoDup(imageSet)
    ensures forall image :: image in imageSet <==> image in w.Images()
  {
    var imageMap: set<string> := {};
    var all := w.Images();
    for i := 0 to |all|
      invariant forall image :: image in imageMap <==> image in all[..i]
    {
      imageMap := imageMap + {all[i]};
    }
    imageSet := [];
    while imageMap != {}
      invariant NoDup(imageSet) && forall image :: image in imageSet ==> image !in imageMap
      invariant forall image :: image in imageSet || image in imageMap <==> image in all
      decreases imageMap
    {
      var i :| i in imageMap;
      imageSet := imageSet + [i];
      imageMap := imageMap - {i};
    }
  }

  // ---------- consolidation is a partition ----------

  lemma {:induction false} OccurrencesExact(list: seq<string>, t: ContainerType, image: string)
    ensures forall p :: p in Occurrences(list, t, image) <==> p.kind == t && p.index < |list| && list[p.index] == image
    ensures Ascending(Occurrences(list, t, image))
  {
    if list != [] {
      var last := |list| - 1;
      OccurrencesExact(list[..last], t, image);
      var o := Occurrences(list[..last], t, image);
      assert forall i :: 0 <= i < |o| ==> o[i] in o;
    }
  }

  /** Within each type, positions ascend. */
  predicate Ascending(o: seq<IdxType>) {
    forall i, j :: 0 <= i < j < |o| && o[i].kind == o[j].kind ==> o[i].index < o[j].index
  }

  lemma AscendingAppend(a: seq<IdxType>, b: seq<IdxType>)
    requires Ascending(a) && Ascending(b)
    requires forall p, q :: p in a && q in b ==> p.kind != q.kind
    ensures Ascending(a + b)
  {
    assert forall i :: 0 <= i < |a| ==> a[i] in a;
    assert forall j :: 0 <= j < |b| ==> b[j] in b;
  }

  /** The places of an image are exactly its containers, each once, ascending within a type. */
  lemma PlacesExact(w: WorkloadObject, image: string)
    ensures forall p :: p in Places(w, image) <==> w.Has(p) && w.ImageAt(p) == image
    ensures NoDup(Places(w, image)) && Ascending(Places(w, image))
  {
    OccurrencesExact(w.containers, Containers, image);
    OccurrencesExact(w.initContainers, InitContainers, image);
    OccurrencesExact(w.ephemeralContainers, EphemeralContainers, image);
    PlacesAscend(w, image);
    AscendingIsNoDup(Places(w, image));
  }

  lemma PlacesAscend(w: WorkloadObject, image: string)
    ensures Ascending(Places(w, image))
  {
    var a := Occurrences(w.containers, Containers, image);
    var b := Occurrences(w.initContainers, InitContainers, image);
    var c := Occurrences(w.ephemeralContainers, EphemeralContainers, image);
    OccurrencesExact(w.containers, Containers, image);
    OccurrencesExact(w.initContainers, InitContainers, image);
    OccurrencesExact(w.ephemeralContainers, EphemeralContainers, image);
    AscendingAppend(a, b);
    AscendingAppend(a + b, c);
  }

  lemma AscendingIsNoDup(o: seq<IdxType>)
    requires Ascending(o)
    ensures NoDup(o)
  {
    assert forall i, j :: 0 <= i < j < |o| ==> o[i].kind == o[j].kind ==> o[i].index < o[j].index;
  }

  /** The places of all the listed images, one image after the other. */
  function AllPlaces(w: WorkloadObject, order: seq<string>): seq<IdxType> {
    if order == [] then []
    else AllPlaces(w, order[..|order| - 1]) + Places(w, order[|order| - 1])
  }

  lemma {:induction false} AllPlacesExact(w: WorkloadObject, order: seq<string>)
    requires NoDup(order)
    ensures NoDup(AllPlaces(w, order))
    ensures forall p :: p in AllPlaces(w, order) <==> w.Has(p) && w.ImageAt(p) in order
  {
    if order != [] {
      var last := |order| - 1;
      AllPlacesExact(w, order[..last]);
      PlacesExact(w, order[last]);
      var a, b := AllPlaces(w, order[..last]), Places(w, order[last]);
      assert forall p :: p in a ==> p !in b;
      AppendNoDup(a, b);
      assert order == order[..last] + [order[last]];
    }
  }

  function Enumerate(t: ContainerType, n: nat): (r: seq<IdxType>)
    ensures |r| == n
    ensures forall i :: 0 <= i < n ==> r[i] == IdxType(i, t)
  {
    seq(n, i requires 0 <= i => IdxType(i, t))
  }

  /**
   However the images are enumerated, their lists together name every container exactly once, so
   their lengths add up to the number of containers.
   */
  lemma ConsolidationIsPartition(w: WorkloadObject, order: seq<string>)
    requires NoDup(order) && forall image :: image in order <==> image in w.Images()
    ensures forall p :: p in AllPlaces(w, order) <==> w.Has(p)
    ensures NoDup(AllPlaces(w, order))
    ensures |AllPlaces(w, order)| == |w.containers| + |w.initContainers| + |w.ephemeralContainers|
  {
    AllPlacesExact(w, order);
    forall p | w.Has(p)
      ensures w.ImageAt(p) in order
    {
      assert w.ImageAt(p) in w.List(p.kind);
    }
    var every := Enumerate(Containers, |w.containers|) + Enumerate(InitContainers, |w.initContainers|)
    + Enumerate(EphemeralContainers, |w.ephemeralContainers|);
    forall p | w.Has(p)
      ensures p in every
    {
      match p.kind
      case Containers => assert every[p.index] == p;
      case InitContainers => assert every[|w.containers| + p.index] == p;
      case EphemeralContainers => assert every[|w.containers| + |w.initContainers| + p.index] == p;
    }
    SameElementsSameLength(AllPlaces(w, order), every);
  }
}
