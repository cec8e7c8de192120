/** JSON documents, locations in them, and the replace operation of a JSON patch (section 4.3 of RFC 6902). */
module JsonTree {
  import opened Wrappers

  datatype Json =
    | Null
    | Bool(b: bool)
    | Number(n: int)
    | Text(text: string)
    | Arr(items: seq<Json>)
    | Obj(fields: map<string, Json>)

  datatype Step = Key(k: string) | Index(i: nat)

  type Path = seq<Step>

  function Child(doc: Json, step: Step): Option<Json> {
    match step
    case Key(k) => if doc.Obj? && k in doc.fields then Some(doc.fields[k]) else None
    case Index(i) => if doc.Arr? && i < |doc.items| then Some(doc.items[i]) else None
  }

  function SetChild(doc: Json, step: Step, value: Json): Json
    requires Child(doc, step).Some?
  {
    match step
    case Key(k) => Obj(doc.fields[k := value])
    case Index(i) => Arr(doc.items[i := value])
  }

  function Get(doc: Json, path: Path): Option<Json> {
    if path == [] then Some(doc)
    else match Child(doc, path[0])
      case None => None
      case Some(child) => Get(child, path[1..])
  }

  /** The operation fails if the target location does not exist; otherwise it changes only that location. */
  function Replace(doc: Json, path: Path, value: Json): (r: Option<Json>)
    ensures r.Some? <==> Get(doc, path).Some?
  {
    if path == [] then Some(value)
    else match Child(doc, path[0])
      case None => None
      case Some(child) =>
        match Replace(child, path[1..], value)
        case None => None
        case Some(changed) => Some(SetChild(doc, path[0], changed))
  }

  datatype Op = Replacement(path: Path, value: string)

  function ApplyOps(doc: Json, ops: seq<Op>): Option<Json>
    decreases |ops|
  {
    if ops == [] then Some(doc)
    else match Replace(doc, ops[0].path, Text(ops[0].value))
      case None => None
      case Some(changed) => ApplyOps(changed, ops[1..])
  }

  lemma {:induction false} ApplyAppend(doc: Json, ops: seq<Op>, more: seq<Op>)
    requires ApplyOps(doc, ops).Some?
    ensures ApplyOps(doc, ops + more) == ApplyOps(ApplyOps(doc, ops).value, more)
    decreases |ops|
  {
    if ops == [] {
      assert ops + more == more;
    } else {
      assert (ops + more)[1..] == ops[1..] + more;
      ApplyAppend(Replace(doc, ops[0].path, Text(ops[0].value)).value, ops[1..], more);
    }
  }

  // ---------- a location and what lies below it ----------

  lemma {:induction false} GetBelow(doc: Json, base: Path, rest: Path)
    requires Get(doc, base).Some?
    ensures Get(doc, base + rest) == Get(Get(doc, base).value, rest)
  {
    if base == [] {
      assert base + rest == rest;
    } else {
      assert (base + rest)[1..] == base[1..] + rest;
      GetBelow(Child(doc, base[0]).value, base[1..], rest);
    }
  }

  /** Two paths that part somewhere, so that neither location is inside the other. */
  predicate Apart(p: Path, q: Path) {
    p != [] && q != [] && (p[0] != q[0] || Apart(p[1..], q[1..]))
  }

  /** Replacing changes nothing outside of its location. */
  lemma {:induction false} ReplaceElsewhere(doc: Json, path: Path, value: Json, q: Path)
    requires Get(doc, path).Some? && Apart(path, q)
    ensures Get(Replace(doc, path, value).value, q) == Get(doc, q)
  {
    var child := Child(doc, path[0]).value;
    if path[0] == q[0] {
      ReplaceElsewhere(child, path[1..], value, q[1..]);
    } else {
      var changed := Replace(doc, path, value).value;
      assert Child(changed, q[0]) == Child(doc, q[0]);
    }
  }

  /** Nor does a whole patch. */
  lemma {:induction false} ApplyElsewhere(doc: Json, ops: seq<Op>, q: Path)
    requires ApplyOps(doc, ops).Some? && forall op :: op in ops ==> Apart(op.path, q)
    ensures Get(ApplyOps(doc, ops).value, q) == Get(doc, q)
    decreases |ops|
  {
    if ops != [] {
      var changed := Replace(doc, ops[0].path, Text(ops[0].value)).value;
      assert ops[0] in ops;
      ReplaceElsewhere(doc, ops[0].path, Text(ops[0].value), q);
      ApplyElsewhere(changed, ops[1..], q);
    }
  }

  /** Nothing is below a location that does not exist. */
  lemma {:induction false} NothingBelow(doc: Json, base: Path, rest: Path)
    requires Get(doc, base).None?
    ensures Get(doc, base + rest).None?
  {
    if Child(doc, base[0]).Some? {
      NothingBelow(Child(doc, base[0]).value, base[1..], rest);
      assert (base + rest)[1..] == base[1..] + rest;
    }
  }

  /** Replacing below a location is replacing the part there by its changed version. */
  lemma {:induction false} ReplaceBelow(doc: Json, base: Path, rest: Path, value: Json)
    requires Get(doc, base).Some?
    requires Get(Get(doc, base).value, rest).Some?
    ensures Replace(doc, base + rest, value) == Replace(doc, base, Replace(Get(doc, base).value, rest, value).value)
  {
    if base == [] {
      assert base + rest == rest;
    } else {
      assert (base + rest)[1..] == base[1..] + rest;
      ReplaceBelow(Child(doc, base[0]).value, base[1..], rest, value);
    }
  }

  lemma {:induction false} ReplaceTwice(doc: Json, path: Path, first: Json, second: Json)
    requires Get(doc, path).Some?
    ensures Get(Replace(doc, path, first).value, path) == Some(first)
    ensures Replace(Replace(doc, path, first).value, path, second) == Replace(doc, path, second)
  {
    if path != [] {
      var child := Child(doc, path[0]).value;
      ReplaceTwice(child, path[1..], first, second);
      var changed := Replace(child, path[1..], first).value;
      var doc' := SetChild(doc, path[0], changed);
      assert Child(doc', path[0]) == Some(changed);
      var again := Replace(child, path[1..], second).value;
      assert SetChild(doc', path[0], again) == SetChild(doc, path[0], again);
    }
  }

  lemma {:induction false} ReplaceSame(doc: Json, path: Path)
    requires Get(doc, path).Some?
    ensures Replace(doc, path, Get(doc, path).value) == Some(doc)
  {
    if path != [] {
      ReplaceSame(Child(doc, path[0]).value, path[1..]);
      match path[0]
      case Key(k) => assert doc.fields[k := doc.fields[k]] == doc.fields;
      case Index(i) => assert doc.items[i := doc.items[i]] == doc.items;
    }
  }
}
