/** Merging a generated configuration tree into the tree of the existing file, as functions. A node
    is a value here: comments, styles, aliases and collection tags are not part of it. */
module YamlMerge {
  import opened Common
  import opened Strings

  datatype Node =
    | Scalar(tag: string, value: string)
    | Mapping(entries: seq<Entry>)
    | Sequence(items: seq<Node>)

  datatype Entry = Entry(key: string, value: Node)

  type Path = seq<string>

  const NULL_TAG := "!!null"

  // ---------------------------------------------------------- known defaults

  /** `strings.Join(path, ".")`. */
  function Dotted(path: Path): string {
    if path == [] then "" else if |path| == 1 then path[0] else path[0] + "." + Dotted(path[1..])
  }

  /** `isZeroValueNode`. */
  predicate IsZero(n: Node) {
    match n
    case Scalar(tag, value) =>
      if tag == "!!bool" then value == "false"
      else if tag == "!!int" || tag == "!!float" then value == "0" || value == "0.0"
      else if tag == "!!str" then value == ""
      else tag == NULL_TAG
    case Sequence(items) => forall i :: 0 <= i < |items| ==> IsZero(items[i])
    case Mapping(entries) => forall i :: 0 <= i < |entries| ==> IsZero(entries[i].value)
  }

  /** The scalar defaults that are recognised by their full path. */
  predicate IsNamedDefault(path: Path, n: Node) {
    n.Scalar? && path != [] &&
    var full := Dotted(path);
    || (n.tag == "!!str" && full == "pprof.addr" && n.value == "127.0.0.1:8316")
    || (n.tag == "!!str" && full == "remote-management.panel-github-repository"
        && n.value == "https://github.com/router-for-me/Cli-Proxy-API-Management-Center")
    || (n.tag == "!!str" && full == "routing.strategy" && n.value == "round-robin")
    || (n.tag == "!!int" && full == "error-logs-max-files" && n.value == "10")
  }

  /** `isKnownDefaultValue`. */
  predicate IsDefault(path: Path, n: Node) {
    IsZero(n) || IsNamedDefault(path, n)
  }

  predicate IsEmptyCollection(n: Node) {
    (n.Mapping? && n.entries == []) || (n.Sequence? && n.items == [])
  }

  /** `pruneKnownDefaultsInNewNode`: a new node without its default-valued descendants. */
  function Prune(path: Path, n: Node): Node
    decreases n, 1
  {
    match n
    case Scalar(_, _) => n
    case Mapping(entries) => Mapping(PruneEntries(path, entries))
    case Sequence(items) => Sequence(PruneItems(path, items))
  }

  predicate DroppedWhenNew(path: Path, n: Node)
    decreases n, 2
  {
    IsDefault(path, n) || IsEmptyCollection(Prune(path, n))
  }

  function PruneEntries(path: Path, entries: seq<Entry>): seq<Entry>
    decreases entries, 0
  {
    if entries == [] then []
    else
      var e := entries[|entries| - 1];
      PruneEntries(path, entries[..|entries| - 1])
      + if DroppedWhenNew(path + [e.key], e.value) then [] else [Entry(e.key, Prune(path + [e.key], e.value))]
  }

  function PruneItems(path: Path, items: seq<Node>): (r: seq<Node>)
    ensures |r| == |items|
    decreases items, 0
  {
    if items == [] then []
    else PruneItems(path, items[..|items| - 1]) + [Prune(path, items[|items| - 1])]
  }

  // ------------------------------------------------------- matching elements

  /** `findMapKeyIndex`, from index `i` on. */
  function FindKeyFrom(entries: seq<Entry>, key: string, i: nat): (r: Option<nat>)
    requires i <= |entries|
    ensures r.Some? ==> i <= r.value < |entries| && entries[r.value].key == key
    ensures r.Some? ==> forall j :: i <= j < r.value ==> entries[j].key != key
    ensures r.None? ==> forall j :: i <= j < |entries| ==> entries[j].key != key
    decreases |entries| - i
  {
    if i == |entries| then None else if entries[i].key == key then Some(i) else FindKeyFrom(entries, key, i + 1)
  }

  function FindKey(entries: seq<Entry>, key: string): (r: Option<nat>)
    ensures r.Some? ==> r.value < |entries| && entries[r.value].key == key
    ensures r.Some? ==> forall j :: 0 <= j < r.value ==> entries[j].key != key
    ensures r.None? ==> forall j :: 0 <= j < |entries| ==> entries[j].key != key
  {
    FindKeyFrom(entries, key, 0)
  }

  /** `nodesStructurallyEqual`. */
  predicate StructurallyEqual(a: Node, b: Node) {
    match a
    case Scalar(_, v) => b.Scalar? && TrimSpace(v) == TrimSpace(b.value)
    case Sequence(items) =>
      b.Sequence? && |items| == |b.items| && forall i :: 0 <= i < |items| ==> StructurallyEqual(items[i], b.items[i])
    case Mapping(entries) =>
      b.Mapping? && |entries| == |b.entries| &&
      forall i :: 0 <= i < |entries| ==>
        TrimSpace(entries[i].key) == TrimSpace(b.entries[i].key) && StructurallyEqual(entries[i].value, b.entries[i].value)
  }

  const IDENTITY_KEYS := ["id", "name", "alias", "api-key", "api_key", "apikey", "key", "provider", "model"]

  /** `mappingScalarValue`, from entry `i` on. */
  function ScalarValueFrom(entries: seq<Entry>, lowerKey: string, i: nat): string
    decreases |entries| - i
  {
    if i >= |entries| then ""
    else if entries[i].value.Scalar? && ToLower(TrimSpace(entries[i].key)) == lowerKey then TrimSpace(entries[i].value.value)
    else ScalarValueFrom(entries, lowerKey, i + 1)
  }

  /** The first identity key, from number `i` on, with a value. */
  function IdentityByKey(entries: seq<Entry>, i: nat): string
    decreases |IDENTITY_KEYS| - i
  {
    if i >= |IDENTITY_KEYS| then ""
    else
      var v := ScalarValueFrom(entries, IDENTITY_KEYS[i], 0);
      if v != "" then IDENTITY_KEYS[i] + "=" + v else IdentityByKey(entries, i + 1)
  }

  /** The first entry, from number `i` on, with a non-blank scalar. */
  function IdentityByEntry(entries: seq<Entry>, i: nat): string
    decreases |entries| - i
  {
    if i >= |entries| then ""
    else if entries[i].value.Scalar? && TrimSpace(entries[i].value.value) != ""
    then ToLower(TrimSpace(entries[i].key)) + "=" + TrimSpace(entries[i].value.value)
    else IdentityByEntry(entries, i + 1)
  }

  /** `sequenceElementIdentity`. */
  function Identity(n: Node): string {
    if !n.Mapping? then ""
    else
      var id := IdentityByKey(n.entries, 0);
      if id != "" then id else IdentityByEntry(n.entries, 0)
  }

  /** An element that identifies itself as `target` does: mappings by identity, scalars by text. */
  predicate SameIdentity(n: Node, target: Node) {
    match target
    case Mapping(_) => Identity(target) != "" && n.Mapping? && Identity(n) == Identity(target)
    case Scalar(_, v) => TrimSpace(v) != "" && n.Scalar? && TrimSpace(n.value) == TrimSpace(v)
    case Sequence(_) => false
  }

  /** The first unused element, from number `i` on, that has the target's identity, or with `structural`
      its structure. */
  function FirstMatch(original: seq<Node>, used: set<nat>, target: Node, structural: bool, i: nat): (r: Option<nat>)
    requires i <= |original|
    ensures r.Some? ==> i <= r.value < |original| && r.value !in used
    decreases |original| - i
  {
    if i == |original| then None
    else if i !in used && (if structural then StructurallyEqual(original[i], target) else SameIdentity(original[i], target)) then Some(i)
    else FirstMatch(original, used, target, structural, i + 1)
  }

  /** `matchSequenceElement`. */
  function MatchElement(original: seq<Node>, used: set<nat>, target: Node): (r: Option<nat>)
    ensures r.Some? ==> r.value < |original| && r.value !in used
  {
    var m := FirstMatch(original, used, target, false, 0);
    if m.Some? then m else FirstMatch(original, used, target, true, 0)
  }

  /** The elements of `original` that the elements of `src` are matched with, one after the other. */
  function Matching(original: seq<Node>, src: seq<Node>): (r: seq<Option<nat>>)
    ensures |r| == |src|
    ensures forall i :: 0 <= i < |r| && r[i].Some? ==> r[i].value < |original|
  {
    if src == [] then []
    else
      var before := Matching(original, src[..|src| - 1]);
      before + [MatchElement(original, UsedBy(before), src[|src| - 1])]
  }

  function UsedBy(matched: seq<Option<nat>>): set<nat> {
    set i | 0 <= i < |matched| && matched[i].Some? :: matched[i].value
  }

  // ------------------------------------------------------------------ merging

  /** The trimmed, non-blank keys of a mapping. */
  function KeptKeys(entries: seq<Entry>): set<string> {
    set i | 0 <= i < |entries| && TrimSpace(entries[i].key) != "" :: TrimSpace(entries[i].key)
  }

  function KeepOnly(entries: seq<Entry>, keys: set<string>): seq<Entry> {
    if entries == [] then []
    else
      var e := entries[|entries| - 1];
      KeepOnly(entries[..|entries| - 1], keys) + if TrimSpace(e.key) in keys then [e] else []
  }

  /** `pruneMissingMapKeys` on two mappings; nothing happens to other nodes. */
  function PruneMissing(dst: Node, src: Node): Node {
    if dst.Mapping? && src.Mapping? then Mapping(KeepOnly(dst.entries, KeptKeys(src.entries))) else dst
  }

  /** `mergeNodePreserve`. */
  function MergeNode(dst: Node, src: Node, path: Path): Node
    decreases src, 1
  {
    match src
    case Scalar(_, _) => src
    case Mapping(entries) => Mapping(MergeEntries(if dst.Mapping? then dst.entries else entries, entries, path))
    case Sequence(items) =>
      if dst.Scalar? && dst.tag == NULL_TAG && items == [] then dst
      else
        var original := if dst.Sequence? then dst.items else [];
        Sequence(MergeItems(original, items, Matching(original, items), path))
  }

  /** The entries of `src` merged into those of `dst`, one after the other. */
  function MergeEntries(dst: seq<Entry>, src: seq<Entry>, path: Path): seq<Entry>
    decreases src, 0
  {
    if src == [] then dst
    else MergeStep(MergeEntries(dst, src[..|src| - 1], path), src[|src| - 1], path)
  }

  /** One entry of the source merged into the value of its key, or added pruned unless that is a default. */
  function MergeStep(before: seq<Entry>, e: Entry, path: Path): seq<Entry>
    decreases e, 0
  {
    var idx, childPath := FindKey(before, e.key), path + [e.key];
    if idx.Some? then before[idx.value := Entry(before[idx.value].key, MergeNode(before[idx.value].value, e.value, childPath))]
    else if IsDefault(childPath, Prune(childPath, e.value)) then before
    else before + [Entry(e.key, Prune(childPath, e.value))]
  }

  /** Each element of `src` merged into the element it is matched with, or copied. */
  function MergeItems(original: seq<Node>, src: seq<Node>, matching: seq<Option<nat>>, path: Path): (r: seq<Node>)
    requires |matching| == |src| && forall i :: 0 <= i < |matching| && matching[i].Some? ==> matching[i].value < |original|
    ensures |r| == |src|
    decreases src, 0
  {
    if src == [] then []
    else
      var n := |src| - 1;
      MergeItems(original, src[..n], matching[..n], path) + [MergeItem(original, matching[n], src[n], path)]
  }

  function MergeItem(original: seq<Node>, matched: Option<nat>, item: Node, path: Path): Node
    requires matched.Some? ==> matched.value < |original|
    decreases item, 2
  {
    if matched.None? then item else PruneMissing(MergeNode(original[matched.value], item, path), item)
  }
}
