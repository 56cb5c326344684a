/** What merging guarantees: the result covers its source, and keeps the layout of the file. */
module YamlMergeProofs {
  import opened Common
  import opened Strings
  import opened YamlMerge

  // ------------------------------------------------------------ well-formedness

  predicate DistinctKeys(entries: seq<Entry>) {
    forall i, j :: 0 <= i < j < |entries| ==> entries[i].key != entries[j].key
  }

  predicate NoBlankKeys(n: Node) {
    n.Mapping? ==> forall i :: 0 <= i < |n.entries| ==> TrimSpace(n.entries[i].key) != ""
  }

  /** Keys are distinct, and not blank in mappings that are elements of a sequence. */
  predicate WellFormed(n: Node) {
    match n
    case Scalar(_, _) => true
    case Mapping(entries) => DistinctKeys(entries) && forall i :: 0 <= i < |entries| ==> WellFormed(entries[i].value)
    case Sequence(items) => forall i :: 0 <= i < |items| ==> WellFormed(items[i]) && NoBlankKeys(items[i])
  }

  // ------------------------------------------------------------------- coverage

  /** `d` says what `s` says: scalars are equal, every key is there with a covered value unless its
      pruned value is a default, and sequences agree element by element. An explicit null may stand
      for an empty sequence. */
  predicate Covers(d: Node, s: Node, path: Path)
    decreases s
  {
    match s
    case Scalar(_, _) => d == s
    case Mapping(entries) => d.Mapping? && forall i :: 0 <= i < |entries| ==> CoversKey(d.entries, entries[i], path)
    case Sequence(items) =>
      || (d.Scalar? && d.tag == NULL_TAG && items == [])
      || (d.Sequence? && |d.items| == |items| && forall i :: 0 <= i < |items| ==> Covers(d.items[i], items[i], path))
  }

  predicate CoversKey(d: seq<Entry>, e: Entry, path: Path)
    decreases e
  {
    var idx, childPath := FindKey(d, e.key), path + [e.key];
    if idx.Some? then Covers(d[idx.value].value, e.value, childPath) else IsDefault(childPath, Prune(childPath, e.value))
  }

  // -------------------------------------------------------------------- pruning

  /** Pruning a zero node leaves a zero node. */
  lemma {:induction false} PrunedZero(path: Path, n: Node)
    requires IsZero(n)
    ensures IsZero(Prune(path, n))
    decreases n, 1
  {
    match n
    case Scalar(_, _) =>
    case Mapping(entries) => PrunedZeroEntries(path, entries);
    case Sequence(items) => PrunedZeroItems(path, items);
  }

  lemma {:induction false} PrunedZeroEntries(path: Path, entries: seq<Entry>)
    requires forall i :: 0 <= i < |entries| ==> IsZero(entries[i].value)
    ensures PruneEntries(path, entries) == []
    decreases entries, 0
  {
    if entries != [] {
      PrunedZeroEntries(path, entries[..|entries| - 1]);
      assert IsZero(entries[|entries| - 1].value);
    }
  }

  lemma {:induction false} PrunedZeroItems(path: Path, items: seq<Node>)
    requires forall i :: 0 <= i < |items| ==> IsZero(items[i])
    ensures forall i :: 0 <= i < |items| ==> IsZero(PruneItems(path, items)[i])
    decreases items, 0
  {
    if items != [] {
      var n := |items| - 1;
      PrunedZeroItems(path, items[..n]);
      PrunedZero(path, items[n]);
    }
  }

  /** What is dropped from a new node prunes to a default. */
  lemma DroppedIsDefault(path: Path, n: Node)
    requires DroppedWhenNew(path, n)
    ensures IsDefault(path, Prune(path, n))
  {
    if IsZero(n) { PrunedZero(path, n); }
  }

  /** The pruned entries hold what is left of entry `e`. */
  predicate HoldsPruned(pruned: seq<Entry>, path: Path, e: Entry) {
    var idx, childPath := FindKey(pruned, e.key), path + [e.key];
    if DroppedWhenNew(childPath, e.value) then idx.None?
    else idx.Some? && pruned[idx.value].value == Prune(childPath, e.value)
  }

  lemma {:induction false} PrunedOtherKeys(path: Path, entries: seq<Entry>, key: string)
    requires forall i :: 0 <= i < |entries| ==> entries[i].key != key
    ensures FindKey(PruneEntries(path, entries), key).None?
  {
    hide DroppedWhenNew, Prune;
    if entries != [] {
      var n := |entries| - 1;
      PrunedOtherKeys(path, entries[..n], key);
      FindKeySnoc(PruneEntries(path, entries[..n]), PruneEntries(path, entries), key);
    }
  }

  lemma {:induction false} PrunedKeys(path: Path, entries: seq<Entry>)
    requires DistinctKeys(entries)
    ensures forall i :: 0 <= i < |entries| ==> HoldsPruned(PruneEntries(path, entries), path, entries[i])
  {
    hide DroppedWhenNew, Prune;
    if entries != [] {
      var n := |entries| - 1;
      var before, all := PruneEntries(path, entries[..n]), PruneEntries(path, entries);
      PrunedKeys(path, entries[..n]);
      PrunedOtherKeys(path, entries[..n], entries[n].key);
      forall i | 0 <= i < |entries| ensures HoldsPruned(all, path, entries[i]) {
        if i < n {
          assert entries[..n][i] == entries[i] && HoldsPruned(before, path, entries[i]);
        }
        FindKeySnoc(before, all, entries[i].key);
      }
    }
  }

  /** Looking a key up in a list with one more entry behind. */
  lemma FindKeySnoc(before: seq<Entry>, all: seq<Entry>, key: string)
    requires |before| <= |all| <= |before| + 1 && before <= all
    ensures FindKey(before, key).Some? ==> FindKey(all, key) == FindKey(before, key)
    ensures FindKey(before, key).None? ==>
              FindKey(all, key) == if |all| > |before| && all[|before|].key == key then Some(|before|) else None
  {
    var a, b := FindKey(before, key), FindKey(all, key);
    assert forall j :: 0 <= j < |before| ==> all[j] == before[j];
  }

  /** A pruned new node covers the node it was made from. */
  lemma {:induction false} PrunedCovers(path: Path, n: Node)
    requires WellFormed(n)
    ensures Covers(Prune(path, n), n, path)
    decreases n
  {
    match n
    case Scalar(_, _) =>
    case Mapping(entries) =>
      PrunedKeys(path, entries);
      var pruned := PruneEntries(path, entries);
      forall i | 0 <= i < |entries| ensures CoversKey(pruned, entries[i], path) {
        var childPath := path + [entries[i].key];
        assert HoldsPruned(pruned, path, entries[i]);
        if DroppedWhenNew(childPath, entries[i].value) {
          DroppedIsDefault(childPath, entries[i].value);
        } else {
          PrunedCovers(childPath, entries[i].value);
        }
      }
    case Sequence(items) =>
      forall i | 0 <= i < |items| ensures Covers(PruneItems(path, items)[i], items[i], path) {
        PrunedItem(path, items, i);
        PrunedCovers(path, items[i]);
      }
  }

  lemma {:induction false} PrunedItem(path: Path, items: seq<Node>, i: nat)
    requires i < |items|
    ensures PruneItems(path, items)[i] == Prune(path, items[i])
  {
    hide Prune;
    var n := |items| - 1;
    if i < n { PrunedItem(path, items[..n], i); }
  }

  /** A node covers itself. */
  lemma {:induction false} CoversItself(n: Node, path: Path)
    requires WellFormed(n)
    ensures Covers(n, n, path)
    decreases n
  {
    match n
    case Scalar(_, _) =>
    case Mapping(entries) =>
      forall i | 0 <= i < |entries| ensures CoversKey(entries, entries[i], path) {
        assert FindKey(entries, entries[i].key) == Some(i);
        CoversItself(entries[i].value, path + [entries[i].key]);
      }
    case Sequence(items) =>
      forall i | 0 <= i < |items| ensures Covers(items[i], items[i], path) {
        CoversItself(items[i], path);
      }
  }

  // -------------------------------------------------------------------- merging

  /** Main result: after merging, the destination covers the source. */
  lemma {:induction false} MergeCovers(dst: Node, src: Node, path: Path)
    requires WellFormed(src)
    ensures Covers(MergeNode(dst, src, path), src, path)
    decreases src, 2
  {
    match src
    case Scalar(_, _) =>
    case Mapping(entries) =>
      MergeEntriesCover(if dst.Mapping? then dst.entries else entries, entries, path);
    case Sequence(items) =>
      if !(dst.Scalar? && dst.tag == NULL_TAG && items == []) {
        var original := if dst.Sequence? then dst.items else [];
        var matching := Matching(original, items);
        forall i | 0 <= i < |items| ensures Covers(MergeItems(original, items, matching, path)[i], items[i], path) {
          MergedItem(original, items, matching, path, i);
          if matching[i].None? {
            CoversItself(items[i], path);
          } else {
            MergeCovers(original[matching[i].value], items[i], path);
            PruneMissingCovers(MergeNode(original[matching[i].value], items[i], path), items[i], path);
          }
        }
      }
  }

  lemma {:induction false} MergedItem(original: seq<Node>, src: seq<Node>, matching: seq<Option<nat>>, path: Path, i: nat)
    requires |matching| == |src| && forall j :: 0 <= j < |matching| && matching[j].Some? ==> matching[j].value < |original|
    requires i < |src|
    ensures MergeItems(original, src, matching, path)[i] == MergeItem(original, matching[i], src[i], path)
  {
    hide MergeItem;
    var n := |src| - 1;
    if i < n { MergedItem(original, src[..n], matching[..n], path, i); }
  }

  /** Looking a key up after another entry was rewritten in place. */
  lemma FindKeyUpdate(entries: seq<Entry>, i: nat, v: Node, key: string)
    requires i < |entries|
    ensures FindKey(entries[i := Entry(entries[i].key, v)], key) == FindKey(entries, key)
  {
    var all := entries[i := Entry(entries[i].key, v)];
    assert forall j :: 0 <= j < |entries| ==> all[j].key == entries[j].key;
    var a, b := FindKey(entries, key), FindKey(all, key);
  }

  lemma {:induction false} MergeEntriesCover(dst: seq<Entry>, src: seq<Entry>, path: Path)
    requires DistinctKeys(src) && forall i :: 0 <= i < |src| ==> WellFormed(src[i].value)
    ensures forall i :: 0 <= i < |src| ==> CoversKey(MergeEntries(dst, src, path), src[i], path)
    decreases src, 1
  {
    if src != [] {
      var n := |src| - 1;
      MergeEntriesCover(dst, src[..n], path);
      var before, all := MergeEntries(dst, src[..n], path), MergeEntries(dst, src, path);
      MergeStepCovers(before, src[n], path);
      forall i | 0 <= i < n ensures CoversKey(all, src[i], path) {
        assert src[..n][i] == src[i] && CoversKey(before, src[i], path);
        MergeStepKeeps(before, src[n], path, src[i].key);
      }
    }
  }

  /** The merged key is covered. */
  lemma MergeStepCovers(before: seq<Entry>, e: Entry, path: Path)
    requires WellFormed(e.value)
    ensures CoversKey(MergeStep(before, e, path), e, path)
    decreases e, 3
  {
    var idx, childPath := FindKey(before, e.key), path + [e.key];
    if idx.Some? {
      var v := MergeNode(before[idx.value].value, e.value, childPath);
      FindKeyUpdate(before, idx.value, v, e.key);
      MergeCovers(before[idx.value].value, e.value, childPath);
    } else if !IsDefault(childPath, Prune(childPath, e.value)) {
      FindKeySnoc(before, MergeStep(before, e, path), e.key);
      PrunedCovers(childPath, e.value);
    }
  }

  /** Other keys keep their place and value. */
  lemma MergeStepKeeps(before: seq<Entry>, e: Entry, path: Path, key: string)
    requires key != e.key
    ensures FindKey(MergeStep(before, e, path), key) == FindKey(before, key)
    ensures FindKey(before, key).Some? ==>
              MergeStep(before, e, path)[FindKey(before, key).value].value == before[FindKey(before, key).value].value
  {
    hide MergeNode, Prune, IsDefault;
    var idx, childPath := FindKey(before, e.key), path + [e.key];
    if idx.Some? {
      FindKeyUpdate(before, idx.value, MergeNode(before[idx.value].value, e.value, childPath), key);
    } else {
      FindKeySnoc(before, MergeStep(before, e, path), key);
    }
  }

  lemma {:induction false} KeepOnlyFinds(entries: seq<Entry>, keys: set<string>, key: string)
    requires TrimSpace(key) in keys
    ensures FindKey(KeepOnly(entries, keys), key).Some? <==> FindKey(entries, key).Some?
    ensures FindKey(entries, key).Some? ==>
              KeepOnly(entries, keys)[FindKey(KeepOnly(entries, keys), key).value] == entries[FindKey(entries, key).value]
  {
    if entries != [] {
      var n := |entries| - 1;
      KeepOnlyFinds(entries[..n], keys, key);
      FindKeySnoc(entries[..n], entries, key);
      FindKeySnoc(KeepOnly(entries[..n], keys), KeepOnly(entries, keys), key);
    }
  }

  /** Pruning away what the source does not mention keeps the source covered. */
  lemma PruneMissingCovers(d: Node, s: Node, path: Path)
    requires Covers(d, s, path) && NoBlankKeys(s)
    ensures Covers(PruneMissing(d, s), s, path)
  {
    if s.Mapping? {
      var keys := KeptKeys(s.entries);
      forall i | 0 <= i < |s.entries| ensures CoversKey(KeepOnly(d.entries, keys), s.entries[i], path) {
        assert CoversKey(d.entries, s.entries[i], path);
        assert TrimSpace(s.entries[i].key) in keys;
        KeepOnlyFinds(d.entries, keys, s.entries[i].key);
      }
    }
  }

  // --------------------------------------------------------------------- layout

  /** The layout of mapping `d` is kept in `m`, for mappings reached without passing through a
      sequence: the old keys come first, in order; a key that the source does not have keeps its
      exact value; and inside a value that is a mapping on both sides the same holds. */
  predicate KeepsLayout(d: Node, m: Node, s: Node)
    decreases s
  {
    d.Mapping? && s.Mapping? ==>
      && m.Mapping? && |d.entries| <= |m.entries|
      && forall i :: 0 <= i < |d.entries| ==> KeepsEntry(d.entries[i], m.entries[i], s.entries, IsFirst(d.entries, i))
  }

  /** The entry is the first of its key. */
  predicate IsFirst(entries: seq<Entry>, i: nat)
    requires i < |entries|
  {
    FindKey(entries, entries[i].key) == Some(i)
  }

  predicate KeepsEntry(old_: Entry, new_: Entry, src: seq<Entry>, first: bool)
    decreases src
  {
    var idx := FindKey(src, old_.key);
    && new_.key == old_.key
    && (idx.None? || !first ==> new_.value == old_.value)
    && (idx.Some? && first ==> KeepsLayout(old_.value, new_.value, src[idx.value].value))
  }

  /** The new keys that merging adds, pruned, in source order. */
  function Additions(dst: seq<Entry>, src: seq<Entry>, path: Path): seq<Entry> {
    if src == [] then []
    else
      var e := src[|src| - 1];
      var childPath := path + [e.key];
      Additions(dst, src[..|src| - 1], path)
      + if FindKey(dst, e.key).Some? || IsDefault(childPath, Prune(childPath, e.value)) then [] else [Entry(e.key, Prune(childPath, e.value))]
  }

  /** What merging makes of entry `i` of the destination. */
  function MergedEntry(dst: seq<Entry>, src: seq<Entry>, path: Path, i: nat): Entry
    requires i < |dst|
  {
    var idx := FindKey(src, dst[i].key);
    if idx.Some? && IsFirst(dst, i)
    then Entry(dst[i].key, MergeNode(dst[i].value, src[idx.value].value, path + [dst[i].key])) else dst[i]
  }

  /** Main result on layout, exactly: the old entries stay in place, each merged with the source's
      entry of its key or left alone, and behind them come the additions. */
  lemma {:induction false} MergedEntries(dst: seq<Entry>, src: seq<Entry>, path: Path)
    requires DistinctKeys(src)
    ensures var m := MergeEntries(dst, src, path);
            && |m| >= |dst|
            && m == m[..|dst|] + Additions(dst, src, path)
            && forall i :: 0 <= i < |dst| ==> m[i] == MergedEntry(dst, src, path, i)
    decreases |src|
  {
    hide MergeNode, Prune, IsDefault, MergedEntry;
    if src == [] {
      assert dst == dst[..|dst|] + [];
      forall i | 0 <= i < |dst| ensures dst[i] == MergedEntry(dst, src, path, i) { NothingMerged(dst, path, i); }
    } else {
      var n := |src| - 1;
      MergedEntries(dst, src[..n], path);
      var before, all := MergeEntries(dst, src[..n], path), MergeEntries(dst, src, path);
      assert all == MergeStep(before, src[n], path);
      forall i | 0 <= i < |dst| ensures before[i].key == dst[i].key { MergedKey(dst, src[..n], path, i); }
      MergedLookup(dst, src, before, path);
      hide MergeEntries, MergeStep, Additions;
      MergedLayout(dst, src, before, path);
      forall i | 0 <= i < |dst| ensures all[i] == MergedEntry(dst, src, path, i) {
        MergedAt(dst, src, before, path, i);
      }
    }
  }

  lemma NothingMerged(dst: seq<Entry>, path: Path, i: nat)
    requires i < |dst|
    ensures MergedEntry(dst, [], path, i) == dst[i]
  {
  }

  lemma MergedKey(dst: seq<Entry>, src: seq<Entry>, path: Path, i: nat)
    requires i < |dst|
    ensures MergedEntry(dst, src, path, i).key == dst[i].key
  {
    hide MergeNode;
  }

  /** One step changes nothing behind the old entries, or adds the one addition. */
  lemma MergedLayout(dst: seq<Entry>, src: seq<Entry>, before: seq<Entry>, path: Path)
    requires src != [] && |before| >= |dst| && before == before[..|dst|] + Additions(dst, src[..|src| - 1], path)
    requires FindKey(before, src[|src| - 1].key) == FindKey(dst, src[|src| - 1].key)
    ensures var all := MergeStep(before, src[|src| - 1], path);
            |all| >= |dst| && all == all[..|dst|] + Additions(dst, src, path)
  {
    hide MergeNode, Prune, IsDefault, FindKey;
    var e, adds := src[|src| - 1], Additions(dst, src[..|src| - 1], path);
    var idx := FindKey(before, e.key);
    if idx.Some? {
      assert MergeStep(before, e, path) ==
             before[idx.value := Entry(before[idx.value].key, MergeNode(before[idx.value].value, e.value, path + [e.key]))];
      assert Additions(dst, src, path) == adds + [] == adds;
      UpdatedLayout(before, |dst|, adds, idx.value, MergeStep(before, e, path)[idx.value]);
    } else {
      var more := if IsDefault(path + [e.key], Prune(path + [e.key], e.value)) then [] else [Entry(e.key, Prune(path + [e.key], e.value))];
      assert MergeStep(before, e, path) == before + more;
      assert Additions(dst, src, path) == adds + more;
      AppendedLayout(before, |dst|, adds, more);
    }
  }

  lemma UpdatedLayout(before: seq<Entry>, d: nat, adds: seq<Entry>, i: nat, x: Entry)
    requires i < d <= |before| && before == before[..d] + adds
    ensures before[i := x] == before[i := x][..d] + adds
  {
    assert before[i := x][d..] == before[d..] == adds;
  }

  lemma AppendedLayout(before: seq<Entry>, d: nat, adds: seq<Entry>, more: seq<Entry>)
    requires d <= |before| && before == before[..d] + adds
    ensures before + more == (before + more)[..d] + (adds + more)
  {
    assert (before + more)[..d] == before[..d];
  }

  /** ... and of the old entries only the first one with the key. */
  lemma MergedAt(dst: seq<Entry>, src: seq<Entry>, before: seq<Entry>, path: Path, i: nat)
    requires DistinctKeys(src) && src != [] && |before| >= |dst| && i < |dst|
    requires before[i] == MergedEntry(dst, src[..|src| - 1], path, i)
    requires FindKey(before, src[|src| - 1].key) == FindKey(dst, src[|src| - 1].key)
    ensures |MergeStep(before, src[|src| - 1], path)| >= |dst|
    ensures MergeStep(before, src[|src| - 1], path)[i] == MergedEntry(dst, src, path, i)
  {
    hide MergeNode, Prune, IsDefault;
    FindKeySnoc(src[..|src| - 1], src, dst[i].key);
  }

  lemma {:induction false} AdditionKeys(dst: seq<Entry>, src: seq<Entry>, path: Path, key: string)
    requires forall i :: 0 <= i < |src| ==> src[i].key != key
    ensures FindKey(Additions(dst, src, path), key).None?
  {
    hide Prune, IsDefault;
    if src != [] {
      AdditionKeys(dst, src[..|src| - 1], path, key);
      FindKeySnoc(Additions(dst, src[..|src| - 1], path), Additions(dst, src, path), key);
    }
  }

  /** Before its turn, a source key is found exactly where the destination had it. */
  lemma MergedLookup(dst: seq<Entry>, src: seq<Entry>, before: seq<Entry>, path: Path)
    requires DistinctKeys(src) && src != []
    requires |before| >= |dst| && before == before[..|dst|] + Additions(dst, src[..|src| - 1], path)
    requires forall i :: 0 <= i < |dst| ==> before[i].key == dst[i].key
    ensures FindKey(before, src[|src| - 1].key) == FindKey(dst, src[|src| - 1].key)
  {
    var key, n := src[|src| - 1].key, |src| - 1;
    var adds := Additions(dst, src[..n], path);
    AdditionKeys(dst, src[..n], path, key);
    hide DistinctKeys, Additions;
    assert forall j :: |dst| <= j < |before| ==> before[j] == adds[j - |dst|];
    var a, b := FindKey(dst, key), FindKey(before, key);
  }

  /** Main result on layout, for whole trees. */
  lemma {:induction false} MergeKeepsLayout(dst: Node, src: Node, path: Path)
    requires WellFormed(src)
    ensures KeepsLayout(dst, MergeNode(dst, src, path), src)
    decreases src
  {
    if dst.Mapping? && src.Mapping? {
      var m := MergeEntries(dst.entries, src.entries, path);
      MergedEntries(dst.entries, src.entries, path);
      forall i | 0 <= i < |dst.entries|
        ensures KeepsEntry(dst.entries[i], m[i], src.entries, IsFirst(dst.entries, i))
      {
        var idx := FindKey(src.entries, dst.entries[i].key);
        if idx.Some? {
          MergeKeepsLayout(dst.entries[i].value, src.entries[idx.value].value, path + [dst.entries[i].key]);
        }
      }
    }
  }

  // ------------------------------------------------------------------ reordering

  predicate UsedOnce(m: seq<Option<nat>>) {
    forall i, j {:trigger m[i], m[j]} :: 0 <= i < j < |m| && m[i].Some? ==> m[i] != m[j]
  }

  /** Main result on reordering: no element of the old sequence is used twice. */
  lemma {:induction false} MatchingInjective(original: seq<Node>, src: seq<Node>)
    ensures UsedOnce(Matching(original, src))
  {
    if src != [] {
      var before := Matching(original, src[..|src| - 1]);
      MatchingInjective(original, src[..|src| - 1]);
      var last := MatchElement(original, UsedBy(before), src[|src| - 1]);
      forall i | 0 <= i < |before| && before[i].Some? ensures before[i] != last {
        assert before[i].value in UsedBy(before);
      }
    }
  }

  lemma {:induction false} FirstMatchIs(original: seq<Node>, used: set<nat>, target: Node, structural: bool, i: nat)
    requires i <= |original|
    ensures var m := FirstMatch(original, used, target, structural, i);
            && (m.Some? ==> if structural then StructurallyEqual(original[m.value], target) else SameIdentity(original[m.value], target))
            && forall j :: i <= j < (if m.Some? then m.value else |original|) && j !in used ==>
                 if structural then !StructurallyEqual(original[j], target) else !SameIdentity(original[j], target)
    decreases |original| - i
  {
    hide StructurallyEqual, SameIdentity;
    if i < |original| { FirstMatchIs(original, used, target, structural, i + 1); }
  }

  /** An old element that shares its identity with the source element is preferred over one that
      merely looks alike, and the source element is copied only when no unused one is either. */
  lemma MatchPrefersIdentity(original: seq<Node>, used: set<nat>, target: Node)
    ensures var m := MatchElement(original, used, target);
            && (m.None? <==> forall j :: 0 <= j < |original| && j !in used ==>
                  !SameIdentity(original[j], target) && !StructurallyEqual(original[j], target))
            && (forall j :: 0 <= j < |original| && j !in used && SameIdentity(original[j], target) ==>
                  m.Some? && m.value <= j && SameIdentity(original[m.value], target))
  {
    hide StructurallyEqual, SameIdentity;
    FirstMatchIs(original, used, target, false, 0);
    FirstMatchIs(original, used, target, true, 0);
  }

  /** A mapping in the merged sequence has only keys of the source element at its place. */
  predicate NoStaleKeys(d: Node, s: Node) {
    d.Mapping? && s.Mapping? ==>
      forall i :: 0 <= i < |d.entries| ==> TrimSpace(d.entries[i].key) in KeptKeys(s.entries)
  }

  lemma {:induction false} KeepOnlyKeys(entries: seq<Entry>, keys: set<string>)
    ensures forall i :: 0 <= i < |KeepOnly(entries, keys)| ==> TrimSpace(KeepOnly(entries, keys)[i].key) in keys
  {
    if entries != [] { KeepOnlyKeys(entries[..|entries| - 1], keys); }
  }

  /** Keys that were removed from an element of a sequence do not come back with the old element it is
      matched with. */
  lemma MergedSequenceForgets(dst: Node, items: seq<Node>, path: Path)
    requires WellFormed(Sequence(items)) && !(dst.Scalar? && dst.tag == NULL_TAG && items == [])
    ensures var m := MergeNode(dst, Sequence(items), path);
            m.Sequence? && |m.items| == |items| && forall i :: 0 <= i < |items| ==> NoStaleKeys(m.items[i], items[i])
  {
    var original := if dst.Sequence? then dst.items else [];
    var matching := Matching(original, items);
    var m := MergeNode(dst, Sequence(items), path);
    assert m.items == MergeItems(original, items, matching, path);
    hide Matching, MergeNode, MergeItems;
    forall i | 0 <= i < |items| ensures NoStaleKeys(m.items[i], items[i]) {
      MergedItem(original, items, matching, path, i);
      if matching[i].Some? {
        var merged := MergeNode(original[matching[i].value], items[i], path);
        if merged.Mapping? && items[i].Mapping? { KeepOnlyKeys(merged.entries, KeptKeys(items[i].entries)); }
      } else {
        assert NoBlankKeys(items[i]);
      }
    }
  }
}
