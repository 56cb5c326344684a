/** JSON values as trees, with the path operations of gjson and sjson on them. Objects are maps: the
    order of members and repeated member names are not kept. */
module Json {
  import opened Common

  datatype Json =
    | Null
    | Bool(value: bool)
    | Num(digits: string)
    | Str(text: string)
    | Arr(items: seq<Json>)
    | Obj(fields: map<string, Json>)

  type Path = seq<string>

  /** The value at a path of member names. */
  function Get(j: Json, path: Path): Option<Json> {
    if path == [] then Some(j)
    else if j.Obj? && path[0] in j.fields then Get(j.fields[path[0]], path[1..])
    else None
  }

  predicate Has(j: Json, path: Path) {
    Get(j, path).Some?
  }

  /** Writes a member; intermediate objects are created, anything else in the way is left alone. */
  function Set(j: Json, path: Path, v: Json): Json
    decreases |path|
  {
    if path == [] then v
    else if !j.Obj? then j
    else Obj(j.fields[path[0] := Set(if path[0] in j.fields then j.fields[path[0]] else Obj(map[]), path[1..], v)])
  }

  /** Removes the member at a path, if it is there. */
  function Delete(j: Json, path: Path): Json {
    if path == [] || !j.Obj? || path[0] !in j.fields then j
    else if |path| == 1 then Obj(j.fields - {path[0]})
    else Obj(j.fields[path[0] := Delete(j.fields[path[0]], path[1..])])
  }

  /** gjson's `String()`: the text of a string, and of anything else its raw text. Of an array or
      object only the first character of the raw text is kept. */
  function TextOf(v: Option<Json>): string {
    match v
    case None => ""
    case Some(Null) => ""
    case Some(Bool(b)) => if b then "true" else "false"
    case Some(Num(d)) => d
    case Some(Str(t)) => t
    case Some(Arr(_)) => "["
    case Some(Obj(_)) => "{"
  }

  /** gjson's `String()` of the member at a path. */
  function Text(j: Json, path: Path): string {
    TextOf(Get(j, path))
  }

  predicate IsArr(v: Option<Json>) {
    v.Some? && v.value.Arr?
  }

  /** Neither path leads to or through the other. */
  predicate Apart(p: Path, q: Path) {
    p != [] && q != [] && (p[0] != q[0] || Apart(p[1..], q[1..]))
  }

  lemma {:induction false} GetSet(j: Json, path: Path, v: Json)
    requires Has(j, path)
    ensures Get(Set(j, path, v), path) == Some(v)
  {
    if path != [] { GetSet(j.fields[path[0]], path[1..], v); }
  }

  lemma {:induction false} GetSetApart(j: Json, path: Path, v: Json, q: Path)
    requires Has(j, path) && Apart(path, q)
    ensures Get(Set(j, path, v), q) == Get(j, q)
  {
    if path[0] == q[0] { GetSetApart(j.fields[path[0]], path[1..], v, q[1..]); }
  }

  lemma {:induction false} SetSame(j: Json, path: Path, v: Json)
    requires Get(j, path) == Some(v)
    ensures Set(j, path, v) == j
  {
    if path != [] {
      SetSame(j.fields[path[0]], path[1..], v);
      assert j.fields[path[0] := j.fields[path[0]]] == j.fields;
    }
  }

  lemma {:induction false} DeleteMissing(j: Json, path: Path)
    requires !Has(j, path)
    ensures Delete(j, path) == j
  {
    if path != [] && j.Obj? && path[0] in j.fields {
      DeleteMissing(j.fields[path[0]], path[1..]);
      assert j.fields[path[0] := j.fields[path[0]]] == j.fields;
    }
  }

  lemma {:induction false} GetDelete(j: Json, path: Path)
    requires path != []
    ensures !Has(Delete(j, path), path)
  {
    if |path| > 1 && j.Obj? && path[0] in j.fields {
      GetDelete(j.fields[path[0]], path[1..]);
    }
  }

  lemma {:induction false} GetDeleteApart(j: Json, path: Path, q: Path)
    requires Apart(path, q)
    ensures Get(Delete(j, path), q) == Get(j, q)
  {
    if |path| > 1 && path[0] == q[0] && j.Obj? && path[0] in j.fields {
      GetDeleteApart(j.fields[path[0]], path[1..], q[1..]);
    }
  }

  lemma TailPrefix(q: Path, path: Path)
    requires q != [] && path != [] && q[0] == path[0]
    ensures q <= path <==> q[1..] <= path[1..]
  {
    assert q == [q[0]] + q[1..] && path == [path[0]] + path[1..];
  }

  /** Paths of which neither leads through the other are apart. */
  lemma {:induction false} ApartUnlessPrefix(p: Path, q: Path)
    requires !(p <= q) && !(q <= p)
    ensures Apart(p, q)
  {
    if p[0] == q[0] {
      TailPrefix(p, q);
      TailPrefix(q, p);
      ApartUnlessPrefix(p[1..], q[1..]);
    }
  }
}
