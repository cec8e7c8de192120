/** From validation results to a patch, and what the patch does to the workload. */
module Patch {
  import opened Wrappers
  import opened Distinct
  import opened JsonTree
  import opened Workload
  import opened Outputs

  // ---------- building ----------

  function OpsFor(o: ValidationOutput, kind: string, places: seq<IdxType>): seq<Op> {
    if places == [] then []
    else
      var last := |places| - 1;
      OpsFor(o, kind, places[..last]) + [Replacement(ImagePath(kind, places[last]), o.newImage)]
  }

  function PatchOps(results: seq<ValidationOutput>, kind: string): seq<Op> {
    if results == [] then []
    else
      var last := |results| - 1;
      PatchOps(results[..last], kind)
      + if results[last].Changes() then OpsFor(results[last], kind, results[last].idxsTypes) else []
  }

  /** The image each operation is for, as written in the workload. */
  function PatchedImages(results: seq<ValidationOutput>): seq<string> {
    if results == [] then []
    else
      var last := results[|results| - 1];
      PatchedImages(results[..|results| - 1])
      + if last.Changes() then seq(|last.idxsTypes|, _ => last.rawImage) else []
  }

  /** The result asks for this place to be changed: its mode is mutate, and its reference has changed. */
  predicate Asks(o: ValidationOutput, p: IdxType) {
    o.mode == "mutate" && o.newImage != o.oldImage && p in o.idxsTypes
  }

  /** The operations are exactly those that the results ask for. */
  ghost predicate AskedFor(results: seq<ValidationOutput>, kind: string, ops: seq<Op>) {
    forall op :: op in ops
            <==> exists o, p :: o in results && Asks(o, p) && op == Replacement(ImagePath(kind, p), o.newImage)
  }

  lemma {:induction false} OpsForExactly(o: ValidationOutput, kind: string, places: seq<IdxType>)
    ensures forall op :: op in OpsFor(o, kind, places)
                    <==> exists p :: p in places && op == Replacement(ImagePath(kind, p), o.newImage)
    ensures |OpsFor(o, kind, places)| == |places|
  {
    if places != [] {
      var last := |places| - 1;
      OpsForExactly(o, kind, places[..last]);
      assert places == places[..last] + [places[last]];
    }
  }

  lemma {:induction false} OpsExactly(results: seq<ValidationOutput>, kind: string)
    ensures AskedFor(results, kind, PatchOps(results, kind))
  {
    if results != [] {
      var last := |results| - 1;
      var front, o := results[..last], results[last];
      OpsExactly(front, kind);
      OpsForExactly(o, kind, o.idxsTypes);
      assert results == front + [o];
      OneMoreResult(front, o, kind);
    }
  }

  lemma OneMoreResult(front: seq<ValidationOutput>, o: ValidationOutput, kind: string)
    requires AskedFor(front, kind, PatchOps(front, kind))
    requires forall op :: op in OpsFor(o, kind, o.idxsTypes)
                     <==> exists p :: p in o.idxsTypes && op == Replacement(ImagePath(kind, p), o.newImage)
    ensures AskedFor(front + [o], kind, PatchOps(front + [o], kind))
  {
    var all := front + [o];
    assert all[..|front|] == front;
    forall op
      ensures op in PatchOps(all, kind)
         <==> exists r, p :: r in all && Asks(r, p) && op == Replacement(ImagePath(kind, p), r.newImage)
    {
      if op in PatchOps(front, kind) {
        var r, p :| r in front && Asks(r, p) && op == Replacement(ImagePath(kind, p), r.newImage);
        assert r in all;
      } else if op in PatchOps(all, kind) {
        var p :| p in o.idxsTypes && op == Replacement(ImagePath(kind, p), o.newImage);
        assert o in all && Asks(o, p);
      }
    }
  }

  /** As many operations as there are places to change, each reported with the image it is for. */
  function Due(results: seq<ValidationOutput>): nat {
    if results == [] then 0
    else
      var last := results[|results| - 1];
      Due(results[..|results| - 1])
      + if last.mode == "mutate" && last.newImage != last.oldImage then |last.idxsTypes| else 0
  }

  lemma {:induction false} PatchSizes(results: seq<ValidationOutput>, kind: string)
    ensures |PatchOps(results, kind)| == |PatchedImages(results)| == Due(results)
    ensures forall k :: 0 <= k < |PatchOps(results, kind)| ==>
                          exists o :: o in results && o.rawImage == PatchedImages(results)[k]
                                      && o.newImage == PatchOps(results, kind)[k].value
  {
    if results != [] {
      var last := |results| - 1;
      var o := results[last];
      PatchSizes(results[..last], kind);
      OpsForExactly(o, kind, o.idxsTypes);
      assert results == results[..last] + [o];
      var n := |PatchOps(results[..last], kind)|;
      forall k | n <= k < |PatchOps(results, kind)|
        ensures o.rawImage == PatchedImages(results)[k] && o.newImage == PatchOps(results, kind)[k].value
      {
        assert PatchOps(results, kind)[k] == OpsFor(o, kind, o.idxsTypes)[k - n];
        assert OpsFor(o, kind, o.idxsTypes)[k - n] in OpsFor(o, kind, o.idxsTypes);
      }
    }
  }

  /** The nested loops over results and their containers. */
  method BuildPatch(results: seq<ValidationOutput>, kind: string)
    returns (jsonPatches: seq<Op>, images: seq<string>, skipped: bool)
    ensures jsonPatches == PatchOps(results, kind)
    ensures images == PatchedImages(results)
    ensures AskedFor(results, kind, jsonPatches) && |jsonPatches| == |images| == Due(results)
    ensures skipped <==> forall o :: o in results ==> o.skipped
  {
    OpsExactly(results, kind);
    PatchSizes(results, kind);
    jsonPatches, images, skipped := [], [], true;
    for i := 0 to |results|
      invariant jsonPatches == PatchOps(results[..i], kind)
      invariant images == PatchedImages(results[..i])
      invariant skipped <==> forall o :: o in results[..i] ==> o.skipped
    {
      var valOut := results[i];
      assert results[..i + 1][..i] == results[..i];
      if valOut.mode == MUTATE_MODE && valOut.newImage != valOut.oldImage {
        jsonPatches, images := AppendPatches(valOut, kind, jsonPatches, images);
      }
      skipped := skipped && valOut.skipped;
      assert results[..i + 1] == results[..i] + [valOut];
    }
    assert results[..|results|] == results;
  }

  /** The inner loop. */
  method AppendPatches(valOut: ValidationOutput, kind: string, jsonPatches: seq<Op>, images: seq<string>)
    returns (ops: seq<Op>, named: seq<string>)
    ensures ops == jsonPatches + OpsFor(valOut, kind, valOut.idxsTypes)
    ensures named == images + seq(|valOut.idxsTypes|, _ => valOut.rawImage)
  {
    var places := valOut.idxsTypes;
    ops, named := jsonPatches, images;
    for j := 0 to |places|
      invariant ops == jsonPatches + OpsFor(valOut, kind, places[..j])
      invariant named == images + seq(j, _ => valOut.rawImage)
    {
      assert places[..j + 1][..j] == places[..j];
      ops := ops + [Replacement(ImagePath(kind, places[j]), valOut.newImage)];
      named := named + [valOut.rawImage];
    }
    assert places[..|places|] == places;
  }

  // ---------- the reference: rewrite every container on its own ----------

  /** The image a container with this type, index and image is to run. */
  type Rewriter = (IdxType, string) -> string

  function RewriteContainer(c: Json, p: IdxType, g: Rewriter): Json {
    if c.Obj? && "image" in c.fields && c.fields["image"].Text?
    then Obj(c.fields["image" := Text(g(p, c.fields["image"].text))])
    else c
  }

  function RewriteItems(items: seq<Json>, t: ContainerType, g: Rewriter): seq<Json> {
    seq(|items|, i requires 0 <= i < |items| => RewriteContainer(items[i], IdxType(i, t), g))
  }

  function TypeNamed(k: string): Option<ContainerType> {
    if k == "containers" then Some(Containers)
    else if k == "initContainers" then Some(InitContainers)
    else if k == "ephemeralContainers" then Some(EphemeralContainers)
    else None
  }

  function RewriteField(k: string, v: Json, g: Rewriter): Json {
    match TypeNamed(k)
    case Some(t) => if v.Arr? then Arr(RewriteItems(v.items, t, g)) else v
    case None => v
  }

  function RewriteSpec(spec: Json, g: Rewriter): Json {
    if spec.Obj? then Obj(map k | k in spec.fields :: RewriteField(k, spec.fields[k], g)) else spec
  }

  function RewriteDoc(raw: Json, kind: string, g: Rewriter): Json
    requires KnownKind(kind)
  {
    match Get(raw, PodSpec(kind))
    case None => raw
    case Some(spec) => Replace(raw, PodSpec(kind), RewriteSpec(spec, g)).value
  }

  /** The containers a kind is read for get the image out decides on; everything else stays. */
  function Target(kind: string, out: string -> ValidationOutput): Rewriter {
    (p: IdxType, image: string) =>
      if Reads(kind, p.kind) && out(image).Changes() then out(image).newImage else image
  }

  function Rewritten(raw: Json, kind: string, out: string -> ValidationOutput): Json
    requires KnownKind(kind)
  {
    RewriteDoc(raw, kind, Target(kind, out))
  }

  // ---------- the patch does what the reference says ----------

  /** The containers in done already run what out decides, the others still their own image. */
  function Partly(done: set<IdxType>, out: string -> ValidationOutput): Rewriter {
    (p: IdxType, image: string) => if p in done then out(image).newImage else image
  }

  /** Where decoding finds a non-empty image there is a text field to replace. */
  lemma ImageFieldExists(raw: Json, w: WorkloadObject, p: IdxType)
    requires Decode(raw, w.kind) == Decoded(w) && w.Has(p) && w.ImageAt(p) != ""
    ensures
      var spec := Get(raw, PodSpec(w.kind));
      && spec.Some? && spec.value.Obj?
      && Reads(w.kind, p.kind)
      && p.kind.Name() in spec.value.fields
      && var list := spec.value.fields[p.kind.Name()];
      && list.Arr? && p.index < |list.items| == |w.List(p.kind)|
      && var c := list.items[p.index];
      && c.Obj? && "image" in c.fields && c.fields["image"] == Text(w.ImageAt(p))
  {
    ListsDecoded(raw, w, p.kind);
    ImageIsText(SpecOf(raw, w.kind), p, w.List(p.kind));
  }

  lemma ImageIsText(spec: Json, p: IdxType, list: seq<string>)
    requires DecodeList(spec, p.kind) == Some(list) && p.index < |list| && list[p.index] != ""
    ensures
      && spec.Obj? && p.kind.Name() in spec.fields
      && var items := spec.fields[p.kind.Name()];
      && items.Arr? && p.index < |items.items| == |list|
      && var c := items.items[p.index];
      && c.Obj? && "image" in c.fields && c.fields["image"] == Text(list[p.index])
  {
  }

  /** Replacing one image inside a half rewritten specification rewrites one container more. */
  lemma ReplaceInSpec(spec: Json, p: IdxType, done: set<IdxType>, out: string -> ValidationOutput, image: string)
    requires spec.Obj? && p.kind.Name() in spec.fields
    requires
      var list := spec.fields[p.kind.Name()];
      && list.Arr? && p.index < |list.items|
      && var c := list.items[p.index];
      && c.Obj? && "image" in c.fields && c.fields["image"] == Text(image)
    ensures
      var rest := [Key(p.kind.Name()), Index(p.index), Key("image")];
      && Get(RewriteSpec(spec, Partly(done, out)), rest).Some?
      && Replace(RewriteSpec(spec, Partly(done, out)), rest, Text(out(image).newImage))
         == Some(RewriteSpec(spec, Partly(done + {p}, out)))
  {
    var g, h := Partly(done, out), Partly(done + {p}, out);
    var name, rest := p.kind.Name(), [Key(p.kind.Name()), Index(p.index), Key("image")];
    var before, after := RewriteSpec(spec, g), RewriteSpec(spec, h);
    var items := spec.fields[name].items;
    assert TypeNamed(name) == Some(p.kind);
    ReplaceInItems(items, p, done, out, image);
    var changed := Replace(Arr(RewriteItems(items, p.kind, g)), rest[1..], Text(out(image).newImage)).value;
    assert rest[1..] == [Index(p.index), Key("image")];
    forall k | k in spec.fields && k != name
      ensures before.fields[k] == after.fields[k]
    {
      OtherFieldSame(k, spec.fields[k], p, done, out);
    }
    assert before.fields[name := changed] == after.fields;
  }

  lemma ReplaceInItems(items: seq<Json>, p: IdxType, done: set<IdxType>, out: string -> ValidationOutput, image: string)
    requires p.index < |items|
    requires
      var c := items[p.index];
      c.Obj? && "image" in c.fields && c.fields["image"] == Text(image)
    ensures
      var rest := [Index(p.index), Key("image")];
      Replace(Arr(RewriteItems(items, p.kind, Partly(done, out))), rest, Text(out(image).newImage))
      == Some(Arr(RewriteItems(items, p.kind, Partly(done + {p}, out))))
  {
    var g, h := Partly(done, out), Partly(done + {p}, out);
    var before, after := RewriteItems(items, p.kind, g), RewriteItems(items, p.kind, h);
    var c := before[p.index];
    var rest := [Index(p.index), Key("image")];
    assert rest[1..] == [Key("image")] && rest[1..][1..] == [];
    assert c.fields["image" := Text(out(image).newImage)] == after[p.index].fields;
    assert Replace(c, rest[1..], Text(out(image).newImage)) == Some(after[p.index]);
    assert before[p.index := after[p.index]] == after;
  }

  lemma OtherFieldSame(k: string, v: Json, p: IdxType, done: set<IdxType>, out: string -> ValidationOutput)
    requires k != p.kind.Name()
    ensures RewriteField(k, v, Partly(done, out)) == RewriteField(k, v, Partly(done + {p}, out))
  {
    if TypeNamed(k).Some? && v.Arr? {
      var t := TypeNamed(k).value;
      assert RewriteItems(v.items, t, Partly(done, out)) == RewriteItems(v.items, t, Partly(done + {p}, out));
    }
  }

  lemma ApplyOne(raw: Json, w: WorkloadObject, p: IdxType, done: set<IdxType>, out: string -> ValidationOutput)
    requires Decode(raw, w.kind) == Decoded(w) && w.Has(p) && w.ImageAt(p) != ""
    ensures ApplyOps(RewriteDoc(raw, w.kind, Partly(done, out)),
                     [Replacement(ImagePath(w.kind, p), out(w.ImageAt(p)).newImage)])
         == Some(RewriteDoc(raw, w.kind, Partly(done + {p}, out)))
  {
    var base, rest := PodSpec(w.kind), [Key(p.kind.Name()), Index(p.index), Key("image")];
    var value := Text(out(w.ImageAt(p)).newImage);
    assert ImagePath(w.kind, p) == base + rest;
    ImageFieldExists(raw, w, p);
    var spec := Get(raw, base).value;
    var half, more := RewriteSpec(spec, Partly(done, out)), RewriteSpec(spec, Partly(done + {p}, out));
    ReplaceInSpec(spec, p, done, out, w.ImageAt(p));
    ReplaceTwice(raw, base, half, more);
    var doc := RewriteDoc(raw, w.kind, Partly(done, out));
    ReplaceBelow(doc, base, rest, value);
    assert Replace(doc, base + rest, value) == Some(RewriteDoc(raw, w.kind, Partly(done + {p}, out)));
  }

  lemma {:induction false} ApplyPlaces(
    raw: Json, w: WorkloadObject, image: string, places: seq<IdxType>,
    done: set<IdxType>, out: string -> ValidationOutput)
    requires Decode(raw, w.kind) == Decoded(w) && image != ""
    requires forall p :: p in places ==> w.Has(p) && w.ImageAt(p) == image
    ensures ApplyOps(RewriteDoc(raw, w.kind, Partly(done, out)), OpsFor(out(image), w.kind, places))
         == Some(RewriteDoc(raw, w.kind, Partly(done + Elements(places), out)))
  {
    if places == [] {
      assert done + Elements(places) == done;
    } else {
      var last := |places| - 1;
      var p, front := places[last], places[..last];
      var half := done + Elements(front);
      ApplyPlaces(raw, w, image, front, done, out);
      ApplyOne(raw, w, p, half, out);
      var start, ops := RewriteDoc(raw, w.kind, Partly(done, out)), OpsFor(out(image), w.kind, front);
      ApplyAppend(start, ops, [Replacement(ImagePath(w.kind, p), out(image).newImage)]);
      ElementsLast(places, done);
    }
  }

  lemma ElementsLast(places: seq<IdxType>, done: set<IdxType>)
    requires places != []
    ensures done + Elements(places) == done + Elements(places[..|places| - 1]) + {places[|places| - 1]}
  {
    assert places == places[..|places| - 1] + [places[|places| - 1]];
  }

  /** The results of validating these images, in this order. */
  function ResultsOf(order: seq<string>, out: string -> ValidationOutput): seq<ValidationOutput> {
    seq(|order|, i requires 0 <= i < |order| => out(order[i]))
  }

  /** The containers whose image is among these and is to be replaced. */
  function ChangedPlaces(w: WorkloadObject, order: seq<string>, out: string -> ValidationOutput): set<IdxType> {
    if order == [] then {}
    else
      var last := |order| - 1;
      ChangedPlaces(w, order[..last], out)
      + if out(order[last]).Changes() then Elements(Places(w, order[last])) else {}
  }

  lemma {:induction false} ChangedPlacesExact(
    w: WorkloadObject, order: seq<string>, out: string -> ValidationOutput, p: IdxType)
    ensures p in ChangedPlaces(w, order, out) <==> w.Has(p) && w.ImageAt(p) in order && out(w.ImageAt(p)).Changes()
  {
    if order != [] {
      var last := |order| - 1;
      ChangedPlacesExact(w, order[..last], out, p);
      PlacesExact(w, order[last]);
      assert order == order[..last] + [order[last]];
    }
  }

  /** out reports for each image its own reference and its own containers. */
  ghost predicate ReportsFor(w: WorkloadObject, out: string -> ValidationOutput) {
    forall image :: image in w.Images() ==> out(image).rawImage == image && out(image).idxsTypes == Places(w, image)
  }

  /** Results applied one after the other, if each of them takes one document of a family to the next. */
  lemma {:induction false} ApplyInTurn(
    docs: set<IdxType> -> Json, w: WorkloadObject, order: seq<string>, out: string -> ValidationOutput)
    requires ReportsFor(w, out) && forall image :: image in order ==> image in w.Images()
    requires forall image, done :: image in order ==>
                                     ApplyOps(docs(done), OpsFor(out(image), w.kind, Places(w, image)))
                                     == Some(docs(done + Elements(Places(w, image))))
    ensures ApplyOps(docs({}), PatchOps(ResultsOf(order, out), w.kind)) == Some(docs(ChangedPlaces(w, order, out)))
  {
    if order != [] {
      var last := |order| - 1;
      var image, front := order[last], order[..last];
      ApplyInTurn(docs, w, front, out);
      assert ResultsOf(order, out)[..last] == ResultsOf(front, out);
      var ops := PatchOps(ResultsOf(front, out), w.kind);
      if out(image).Changes() {
        ApplyAppend(docs({}), ops, OpsFor(out(image), w.kind, Places(w, image)));
      } else {
        assert ops + [] == ops && ChangedPlaces(w, front, out) + {} == ChangedPlaces(w, front, out);
      }
    }
  }

  lemma ApplyResults(raw: Json, w: WorkloadObject, order: seq<string>, out: string -> ValidationOutput)
    requires Decode(raw, w.kind) == Decoded(w)
    requires ReportsFor(w, out) && "" !in order
    requires forall image :: image in order ==> image in w.Images()
    ensures ApplyOps(RewriteDoc(raw, w.kind, Partly({}, out)), PatchOps(ResultsOf(order, out), w.kind))
         == Some(RewriteDoc(raw, w.kind, Partly(ChangedPlaces(w, order, out), out)))
  {
    KnownIfDecoded(raw, w);
    var kind := w.kind;
    var docs := (done: set<IdxType>) requires KnownKind(kind) => RewriteDoc(raw, kind, Partly(done, out));
    assert forall done :: docs.requires(done);
    forall image, done | image in order
      ensures ApplyOps(RewriteDoc(raw, kind, Partly(done, out)), OpsFor(out(image), kind, Places(w, image)))
           == Some(RewriteDoc(raw, kind, Partly(done + Elements(Places(w, image)), out)))
    {
      PlacesExact(w, image);
      ApplyPlaces(raw, w, image, Places(w, image), done, out);
    }
    ApplyInTurn(docs, w, order, out);
  }

  lemma KnownIfDecoded(raw: Json, w: WorkloadObject)
    requires Decode(raw, w.kind) == Decoded(w)
    ensures KnownKind(w.kind)
  {
  }

  /** Decoding finds the list of each type that the kind is read for. */
  lemma ListsDecoded(raw: Json, w: WorkloadObject, t: ContainerType)
    requires Decode(raw, w.kind) == Decoded(w)
    ensures Reads(w.kind, t) ==> DecodeList(SpecOf(raw, w.kind), t) == Some(w.List(t))
    ensures !Reads(w.kind, t) ==> w.List(t) == []
    ensures w.List(t) != [] ==> Get(raw, PodSpec(w.kind)).Some?
  {
  }

  function SpecOf(raw: Json, kind: string): Json
    requires KnownKind(kind)
  {
    match Get(raw, PodSpec(kind)) case Some(s) => s case None => Null
  }

  /** A container of a type the kind is read for is one of the workload, with this image. */
  predicate MayHold(w: WorkloadObject, p: IdxType, image: string) {
    Reads(w.kind, p.kind) ==> w.Has(p) && w.ImageAt(p) == image
  }

  /** Rewriters that agree on the containers of the workload rewrite the document alike. */
  lemma RewriteAlike(raw: Json, w: WorkloadObject, g: Rewriter, h: Rewriter)
    requires Decode(raw, w.kind) == Decoded(w)
    requires forall p: IdxType, image :: MayHold(w, p, image) ==> g(p, image) == h(p, image)
    ensures RewriteDoc(raw, w.kind, g) == RewriteDoc(raw, w.kind, h)
  {
    var spec := SpecOf(raw, w.kind);
    forall t: ContainerType
      ensures Reads(w.kind, t) ==> DecodeList(spec, t) == Some(w.List(t))
    {
      ListsDecoded(raw, w, t);
    }
    SpecAlike(spec, w, g, h);
  }

  lemma SpecAlike(spec: Json, w: WorkloadObject, g: Rewriter, h: Rewriter)
    requires forall t: ContainerType :: Reads(w.kind, t) ==> DecodeList(spec, t) == Some(w.List(t))
    requires forall p: IdxType, image :: MayHold(w, p, image) ==> g(p, image) == h(p, image)
    ensures RewriteSpec(spec, g) == RewriteSpec(spec, h)
  {
    if spec.Obj? {
      forall k | k in spec.fields
        ensures RewriteField(k, spec.fields[k], g) == RewriteField(k, spec.fields[k], h)
      {
        if TypeNamed(k).Some? && spec.fields[k].Arr? {
          var t, items := TypeNamed(k).value, spec.fields[k].items;
          assert k == t.Name();
          assert Reads(w.kind, t) ==> DecodeImages(items) == Some(w.List(t));
          ItemsAlike(items, t, w, g, h);
        }
      }
    }
  }

  lemma ItemsAlike(items: seq<Json>, t: ContainerType, w: WorkloadObject, g: Rewriter, h: Rewriter)
    requires Reads(w.kind, t) ==> DecodeImages(items) == Some(w.List(t))
    requires forall p: IdxType, image :: MayHold(w, p, image) ==> g(p, image) == h(p, image)
    ensures RewriteItems(items, t, g) == RewriteItems(items, t, h)
  {
    forall i | 0 <= i < |items|
      ensures RewriteContainer(items[i], IdxType(i, t), g) == RewriteContainer(items[i], IdxType(i, t), h)
    {
      assert Reads(w.kind, t) ==> DecodeImage(items[i]) == Some(w.List(t)[i]);
    }
  }

  lemma RewriteNothing(raw: Json, kind: string, out: string -> ValidationOutput)
    requires KnownKind(kind)
    ensures RewriteDoc(raw, kind, Partly({}, out)) == raw
  {
    var g := Partly({}, out);
    if Get(raw, PodSpec(kind)).Some? {
      var spec := Get(raw, PodSpec(kind)).value;
      if spec.Obj? {
        forall k | k in spec.fields
          ensures RewriteField(k, spec.fields[k], g) == spec.fields[k]
        {
          if TypeNamed(k).Some? && spec.fields[k].Arr? {
            ItemsUnchanged(spec.fields[k].items, TypeNamed(k).value, out);
          }
        }
        assert RewriteSpec(spec, g).fields == spec.fields;
      }
      ReplaceSame(raw, PodSpec(kind));
    }
  }

  lemma ItemsUnchanged(items: seq<Json>, t: ContainerType, out: string -> ValidationOutput)
    ensures RewriteItems(items, t, Partly({}, out)) == items
  {
    forall i | 0 <= i < |items|
      ensures RewriteContainer(items[i], IdxType(i, t), Partly({}, out)) == items[i]
    {
      var c := items[i];
      if c.Obj? && "image" in c.fields && c.fields["image"].Text? {
        assert c.fields["image" := Text(c.fields["image"].text)] == c.fields;
      }
    }
  }

  /**
   Whatever order the results arrive in, applying their patch to the object gives every container
   the validated reference if its mode is mutate and the reference changed, and changes nothing else.
   */
  lemma PatchIsRewrite(raw: Json, w: WorkloadObject, order: seq<string>, out: string -> ValidationOutput)
    requires Decode(raw, w.kind) == Decoded(w)
    requires ReportsFor(w, out)
    requires forall image :: image in order <==> image in w.Images()
    requires "" !in order
    ensures ApplyOps(raw, PatchOps(ResultsOf(order, out), w.kind)) == Some(Rewritten(raw, w.kind, out))
  {
    RewriteNothing(raw, w.kind, out);
    ApplyResults(raw, w, order, out);
    var g, h := Partly(ChangedPlaces(w, order, out), out), Target(w.kind, out);
    forall p: IdxType, image | MayHold(w, p, image)
      ensures g(p, image) == h(p, image)
    {
      ChangedIsTarget(raw, w, order, out, p, image);
    }
    RewriteAlike(raw, w, g, h);
  }

  lemma ChangedIsTarget(
    raw: Json, w: WorkloadObject, order: seq<string>, out: string -> ValidationOutput, p: IdxType, image: string)
    requires Decode(raw, w.kind) == Decoded(w)
    requires forall i :: i in order <==> i in w.Images()
    requires Reads(w.kind, p.kind) ==> w.Has(p) && w.ImageAt(p) == image
    ensures Partly(ChangedPlaces(w, order, out), out)(p, image) == Target(w.kind, out)(p, image)
  {
    ChangedPlacesExact(w, order, out, p);
    if w.Has(p) {
      assert w.ImageAt(p) in w.List(p.kind);
      assert w.ImageAt(p) in w.Images();
    }
  }

  // ---------- what the rewritten object runs ----------

  function Mapped(images: seq<string>, t: ContainerType, g: Rewriter): (r: seq<string>)
    ensures |r| == |images| && forall i :: 0 <= i < |r| ==> r[i] == g(IdxType(i, t), images[i])
  {
    seq(|images|, i requires 0 <= i < |images| => g(IdxType(i, t), images[i]))
  }

  lemma MappedLast(front: seq<string>, image: string, t: ContainerType, g: Rewriter)
    ensures Mapped(front + [image], t, g) == Mapped(front, t, g) + [g(IdxType(|front|, t), image)]
  {
  }

  lemma DecodeRewrittenContainer(c: Json, p: IdxType, g: Rewriter, image: string)
    requires DecodeImage(c) == Some(image) && image != ""
    ensures DecodeImage(RewriteContainer(c, p, g)) == Some(g(p, image))
  {
  }

  lemma RewriteItemsLast(front: seq<Json>, c: Json, t: ContainerType, g: Rewriter)
    ensures RewriteItems(front + [c], t, g) == RewriteItems(front, t, g) + [RewriteContainer(c, IdxType(|front|, t), g)]
  {
  }

  lemma DecodeImagesLast(front: seq<Json>, c: Json)
    requires DecodeImages(front).Some? && DecodeImage(c).Some?
    ensures DecodeImages(front + [c]) == Some(DecodeImages(front).value + [DecodeImage(c).value])
  {
    assert (front + [c])[..|front|] == front;
  }

  lemma DecodeImagesSplit(items: seq<Json>)
    requires items != [] && DecodeImages(items).Some? && "" !in DecodeImages(items).value
    ensures
      var front, c := items[..|items| - 1], items[|items| - 1];
      && DecodeImages(front).Some? && DecodeImage(c).Some?
      && DecodeImages(items).value == DecodeImages(front).value + [DecodeImage(c).value]
      && "" !in DecodeImages(front).value && DecodeImage(c).value != ""
  {
    var images, image := DecodeImages(items[..|items| - 1]).value, DecodeImage(items[|items| - 1]).value;
    assert image in images + [image];
  }

  lemma {:induction false} DecodeRewrittenItems(items: seq<Json>, t: ContainerType, g: Rewriter)
    requires DecodeImages(items).Some? && "" !in DecodeImages(items).value
    ensures DecodeImages(RewriteItems(items, t, g)) == Some(Mapped(DecodeImages(items).value, t, g))
  {
    if items == [] {
      assert Mapped([], t, g) == [];
    } else {
      var last := |items| - 1;
      var front, c := items[..last], items[last];
      assert items == front + [c];
      DecodeImagesSplit(items);
      var images, image := DecodeImages(front).value, DecodeImage(c).value;
      DecodeRewrittenItems(front, t, g);
      DecodeRewrittenContainer(c, IdxType(last, t), g, image);
      RewriteItemsLast(front, c, t, g);
      DecodeImagesLast(RewriteItems(front, t, g), RewriteContainer(c, IdxType(last, t), g));
      MappedLast(images, image, t, g);
    }
  }

  lemma DecodeRewrittenList(spec: Json, t: ContainerType, g: Rewriter)
    requires DecodeList(spec, t).Some? && "" !in DecodeList(spec, t).value
    ensures DecodeList(RewriteSpec(spec, g), t) == Some(Mapped(DecodeList(spec, t).value, t, g))
  {
    assert TypeNamed(t.Name()) == Some(t);
    NamedField(spec, t.Name(), g);
    if Child(spec, Key(t.Name())).Some? && spec.fields[t.Name()].Arr? {
      DecodeRewrittenItems(spec.fields[t.Name()].items, t, g);
    } else {
      assert Mapped([], t, g) == [];
    }
  }

  lemma NamedField(spec: Json, k: string, g: Rewriter)
    ensures Child(RewriteSpec(spec, g), Key(k))
         == match Child(spec, Key(k)) case None => None case Some(v) => Some(RewriteField(k, v, g))
  {
  }

  /** The rewritten object decodes to the same containers, each with the image decided for it. */
  lemma RewrittenRuns(raw: Json, w: WorkloadObject, out: string -> ValidationOutput)
    requires Decode(raw, w.kind) == Decoded(w) && "" !in w.Images()
    ensures
      var r := Decode(Rewritten(raw, w.kind, out), w.kind);
      && r.Decoded?
      && forall p :: (r.w.Has(p) <==> w.Has(p))
                     && (w.Has(p) ==> r.w.ImageAt(p) == Target(w.kind, out)(p, w.ImageAt(p)))
  {
    var g, base := Target(w.kind, out), PodSpec(w.kind);
    var spec := SpecOf(raw, w.kind);
    forall t: ContainerType
      ensures "" !in w.List(t)
      ensures Reads(w.kind, t) ==> DecodeList(RewriteSpec(spec, g), t) == Some(Mapped(w.List(t), t, g))
    {
      assert forall image :: image in w.List(t) ==> image in w.Images();
      ListsDecoded(raw, w, t);
      if Reads(w.kind, t) {
        DecodeRewrittenList(spec, t, g);
      }
    }
    SpecRewritten(raw, w, g);
    var lists := (t: ContainerType) => if Reads(w.kind, t) then Mapped(w.List(t), t, g) else [];
    ListsDecoded(raw, w, EphemeralContainers);
    RewrittenIsWellTyped(raw, w, g);
    NotEmpty(raw, w);
    DecodedFromLists(RewriteDoc(raw, w.kind, g), w, lists);
    ListsAreMapped(w, Decode(RewriteDoc(raw, w.kind, g), w.kind).w, g);
  }

  lemma NotEmpty(raw: Json, w: WorkloadObject)
    requires Decode(raw, w.kind) == Decoded(w)
    ensures KnownKind(w.kind) && w.Images() != []
  {
  }

  /** Rewriting keeps the way to the specification, the metadata, and the template. */
  lemma RewrittenIsWellTyped(raw: Json, w: WorkloadObject, g: Rewriter)
    requires Decode(raw, w.kind) == Decoded(w)
    ensures
      var doc := RewriteDoc(raw, w.kind, g);
      WellTyped(doc, PodSpec(w.kind)) && WellTyped(doc, METADATA) && !NilTemplate(doc, w.kind)
  {
    if Get(raw, PodSpec(w.kind)).Some? {
      var spec := Get(raw, PodSpec(w.kind)).value;
      ReplaceIsWellTyped(raw, PodSpec(w.kind), RewriteSpec(spec, g));
      ReplaceKeepsMetadata(raw, PodSpec(w.kind), RewriteSpec(spec, g));
      if w.kind == "ReplicationController" {
        ReplaceTwice(raw, PodSpec(w.kind), RewriteSpec(spec, g), Null);
        TemplateAboveSpec(RewriteDoc(raw, w.kind, g));
      }
    }
  }

  /** What stays in place of an object on the way down is an object again. */
  lemma {:induction false} ReplaceIsWellTyped(doc: Json, path: Path, value: Json)
    requires WellTyped(doc, path) && Get(doc, path).Some?
    requires Get(doc, path).value.Obj? ==> value.Obj?
    requires Get(doc, path).value.Null? ==> value.Null?
    ensures WellTyped(Replace(doc, path, value).value, path)
  {
    if path != [] {
      ReplaceIsWellTyped(Child(doc, path[0]).value, path[1..], value);
    }
  }

  lemma ReplaceKeepsMetadata(doc: Json, path: Path, value: Json)
    requires path != [] && path[0] == Key("spec") && Get(doc, path).Some? && WellTyped(doc, METADATA)
    ensures WellTyped(Replace(doc, path, value).value, METADATA)
  {
    assert METADATA[1..] == [];
    var changed := Replace(doc, path, value).value;
    assert Child(changed, METADATA[0]) == Child(doc, METADATA[0]);
  }

  lemma TemplateAboveSpec(doc: Json)
    requires Get(doc, PodSpec("ReplicationController")).Some?
    ensures !NilTemplate(doc, "ReplicationController")
  {
    if NilTemplate(doc, "ReplicationController") {
      NoSpecBelow(doc);
    }
  }

  /** Decoding succeeds if it finds lists of the lengths it found before. */
  lemma DecodedFromLists(doc: Json, w: WorkloadObject, lists: ContainerType -> seq<string>)
    requires KnownKind(w.kind) && w.Images() != []
    requires forall t: ContainerType :: Reads(w.kind, t) ==> DecodeList(SpecOf(doc, w.kind), t) == Some(lists(t))
    requires forall t: ContainerType :: |lists(t)| == |w.List(t)| && (!Reads(w.kind, t) ==> lists(t) == [])
    requires WellTyped(doc, PodSpec(w.kind)) && WellTyped(doc, METADATA) && !NilTemplate(doc, w.kind)
    ensures Decode(doc, w.kind).Decoded?
    ensures forall t: ContainerType :: Decode(doc, w.kind).w.List(t) == lists(t)
  {
    assert lists(Containers) != [] || lists(InitContainers) != [] || lists(EphemeralContainers) != [];
  }

  lemma ListsAreMapped(w: WorkloadObject, r: WorkloadObject, g: Rewriter)
    requires forall t: ContainerType :: r.List(t) == if Reads(w.kind, t) then Mapped(w.List(t), t, g) else []
    requires forall t: ContainerType :: !Reads(w.kind, t) ==> w.List(t) == []
    ensures forall p :: (r.Has(p) <==> w.Has(p)) && (w.Has(p) ==> r.ImageAt(p) == g(p, w.ImageAt(p)))
  {
    forall p: IdxType
      ensures (r.Has(p) <==> w.Has(p)) && (w.Has(p) ==> r.ImageAt(p) == g(p, w.ImageAt(p)))
    {
      assert r.List(p.kind) == if Reads(w.kind, p.kind) then Mapped(w.List(p.kind), p.kind, g) else [];
    }
  }

  /** The rewritten specification is where decoding looks. */
  lemma SpecRewritten(raw: Json, w: WorkloadObject, g: Rewriter)
    requires Decode(raw, w.kind) == Decoded(w)
    ensures SpecOf(RewriteDoc(raw, w.kind, g), w.kind) == RewriteSpec(SpecOf(raw, w.kind), g)
  {
    if Get(raw, PodSpec(w.kind)).Some? {
      ReplaceTwice(raw, PodSpec(w.kind), RewriteSpec(SpecOf(raw, w.kind), g), Null);
    }
  }

  /**
   After the patch every container runs the validated reference if its mode is mutate and the reference
   has changed, and otherwise the image it had.
   */
  lemma AfterPatch(raw: Json, w: WorkloadObject, order: seq<string>, out: string -> ValidationOutput, p: IdxType)
    requires Decode(raw, w.kind) == Decoded(w) && ReportsFor(w, out)
    requires forall image :: image in order <==> image in w.Images()
    requires "" !in order && w.Has(p)
    ensures
      var after := ApplyOps(raw, PatchOps(ResultsOf(order, out), w.kind));
      && after.Some? && Decode(after.value, w.kind).Decoded? && Decode(after.value, w.kind).w.Has(p)
      && Decode(after.value, w.kind).w.ImageAt(p)
         == (var o := out(w.ImageAt(p));
             if o.mode == "mutate" && o.newImage != o.oldImage then o.newImage else w.ImageAt(p))
  {
    PatchIsRewrite(raw, w, order, out);
    RewrittenRuns(raw, w, out);
    ListsDecoded(raw, w, p.kind);
  }

  /** Whatever is no image of a container, and holds none, is as it was. */
  lemma PatchTouchesImagesOnly(
    raw: Json, w: WorkloadObject, order: seq<string>, out: string -> ValidationOutput, q: Path)
    requires Decode(raw, w.kind) == Decoded(w) && ReportsFor(w, out)
    requires forall image :: image in order <==> image in w.Images()
    requires "" !in order && forall p :: w.Has(p) ==> Apart(ImagePath(w.kind, p), q)
    ensures
      var after := ApplyOps(raw, PatchOps(ResultsOf(order, out), w.kind));
      after.Some? && Get(after.value, q) == Get(raw, q)
  {
    PatchIsRewrite(raw, w, order, out);
    var results := ResultsOf(order, out);
    OpsExactly(results, w.kind);
    forall op | op in PatchOps(results, w.kind)
      ensures Apart(op.path, q)
    {
      var o, p :| o in results && Asks(o, p) && op == Replacement(ImagePath(w.kind, p), o.newImage);
      var i :| 0 <= i < |order| && results[i] == o;
      PlacesExact(w, order[i]);
    }
    ApplyElsewhere(raw, PatchOps(results, w.kind), q);
  }
}
