/** The merge as the program runs it: loops that rewrite lists of nodes. */
module YamlMerger {
  import opened Common
  import opened Strings
  import opened YamlMerge
  import opened YamlMergeProofs

  function Flagged(used: seq<bool>): set<nat> {
    set i: nat | i < |used| && used[i]
  }

  /** `matchSequenceElement`, with the flags of the elements used so far. */
  method MatchSequenceElement(original: seq<Node>, used: seq<bool>, target: Node) returns (index: Option<nat>)
    requires |used| == |original|
    ensures index == MatchElement(original, Flagged(used), target)
  {
    hide StructurallyEqual, SameIdentity;
    ghost var taken := Flagged(used);
    for i := 0 to |original|
      invariant FirstMatch(original, taken, target, false, 0) == FirstMatch(original, taken, target, false, i)
    {
      if used[i] {
        continue;
      }
      if SameIdentity(original[i], target) {
        return Some(i);
      }
    }
    for i := 0 to |original|
      invariant FirstMatch(original, taken, target, true, 0) == FirstMatch(original, taken, target, true, i)
    {
      if used[i] {
        continue;
      }
      if StructurallyEqual(original[i], target) {
        return Some(i);
      }
    }
    return None;
  }

  /** `reorderSequenceForMerge`: which old element stands where, if any. */
  method ReorderSequence(original: seq<Node>, src: seq<Node>) returns (ordered: seq<Option<nat>>)
    ensures ordered == Matching(original, src)
    ensures UsedOnce(ordered)
  {
    MatchingInjective(original, src);
    hide MatchElement;
    ordered := [];
    var used := seq(|original|, i => false);
    for i := 0 to |src|
      invariant ordered == Matching(original, src[..i]) && |used| == |original|
      invariant forall j :: 0 <= j < |used| ==> (used[j] <==> j in UsedBy(ordered))
    {
      assert src[..i + 1][..i] == src[..i] && src[..i + 1][i] == src[i];
      assert Flagged(used) == UsedBy(ordered);
      var index := MatchSequenceElement(original, used, src[i]);
      UsedBySnoc(ordered, index);
      ordered := ordered + [index];
      if index.Some? {
        used := used[index.value := true];
      }
    }
    assert src[..|src|] == src;
  }

  lemma UsedBySnoc(m: seq<Option<nat>>, x: Option<nat>)
    ensures UsedBy(m + [x]) == UsedBy(m) + if x.Some? then {x.value} else {}
  {
    var all := m + [x];
    forall v ensures v in UsedBy(all) <==> v in UsedBy(m) || x == Some(v) {
      if v in UsedBy(m) {
        var i :| 0 <= i < |m| && m[i].Some? && m[i].value == v;
        assert all[i] == m[i];
      }
      if x == Some(v) {
        assert all[|m|] == x;
      }
    }
  }

  /** `pruneMissingMapKeys`: entries are deleted one at a time. */
  method PruneMissingMapKeys(dst: seq<Entry>, src: seq<Entry>) returns (entries: seq<Entry>)
    ensures entries == KeepOnly(dst, KeptKeys(src))
  {
    var keep: set<string> := {};
    for i := 0 to |src|
      invariant keep == KeptKeys(src[..i])
    {
      KeptKeysSnoc(src, i);
      var key := TrimSpace(src[i].key);
      if key != "" {
        keep := keep + {key};
      }
    }
    assert src[..|src|] == src;
    entries := dst;
    var i := 0;
    ghost var done := 0;
    while i < |entries|
      invariant i <= |entries| && done <= |dst| && |entries| - i == |dst| - done
      invariant entries[..i] == KeepOnly(dst[..done], keep)
      invariant entries[i..] == dst[done..]
      decreases |entries| - i
    {
      assert entries[i] == entries[i..][0] == dst[done];
      assert dst[..done + 1][..done] == dst[..done] && dst[..done + 1][done] == dst[done];
      if TrimSpace(entries[i].key) !in keep {
        assert (entries[..i] + entries[i + 1..])[..i] == entries[..i];
        assert (entries[..i] + entries[i + 1..])[i..] == entries[i..][1..];
        entries := entries[..i] + entries[i + 1..];
      } else {
        assert entries[..i + 1] == entries[..i] + [entries[i]];
        assert entries[i + 1..] == entries[i..][1..];
        i := i + 1;
      }
      done := done + 1;
      assert dst[done..] == dst[done - 1..][1..];
    }
    assert dst[..|dst|] == dst && entries[..i] == entries;
  }

  lemma KeptKeysSnoc(src: seq<Entry>, i: nat)
    requires i < |src|
    ensures KeptKeys(src[..i + 1]) == KeptKeys(src[..i]) + if TrimSpace(src[i].key) == "" then {} else {TrimSpace(src[i].key)}
  {
    forall key
      ensures key in KeptKeys(src[..i + 1]) <==> key in KeptKeys(src[..i]) || (key != "" && key == TrimSpace(src[i].key))
    {
      if key in KeptKeys(src[..i]) {
        var j :| 0 <= j < i && TrimSpace(src[..i][j].key) == key && key != "";
        assert src[..i + 1][j] == src[..i][j];
      }
      if key != "" && key == TrimSpace(src[i].key) {
        assert src[..i + 1][i] == src[i];
      }
      if key in KeptKeys(src[..i + 1]) {
        var j :| 0 <= j < i + 1 && TrimSpace(src[..i + 1][j].key) == key && key != "";
        assert j < i ==> src[..i][j] == src[..i + 1][j];
      }
    }
  }

  /** `pruneKnownDefaultsInNewNode`. */
  method PruneKnownDefaults(path: Path, node: Node) returns (pruned: Node)
    ensures pruned == Prune(path, node)
    decreases node
  {
    match node {
      case Scalar(_, _) =>
        pruned := node;
      case Mapping(entries) =>
        var filtered: seq<Entry> := [];
        for i := 0 to |entries|
          invariant filtered == PruneEntries(path, entries[..i])
        {
          assert entries[..i + 1][..i] == entries[..i] && entries[..i + 1][i] == entries[i];
          var e := entries[i];
          var childPath := path + [e.key];
          if IsDefault(childPath, e.value) {
            continue;
          }
          var value := PruneKnownDefaults(childPath, e.value);
          if IsEmptyCollection(value) {
            continue;
          }
          filtered := filtered + [Entry(e.key, value)];
        }
        assert entries[..|entries|] == entries;
        pruned := Mapping(filtered);
      case Sequence(items) =>
        var children := items;
        for i := 0 to |items|
          invariant |children| == |items| && children[..i] == PruneItems(path, items[..i]) && children[i..] == items[i..]
        {
          assert items[..i + 1][..i] == items[..i] && items[..i + 1][i] == items[i];
          assert children[i] == children[i..][0] == items[i];
          var child := PruneKnownDefaults(path, children[i]);
          assert children[i := child][..i + 1] == children[..i] + [child];
          assert children[i := child][i + 1..] == children[i..][1..] == items[i + 1..];
          children := children[i := child];
        }
        assert items[..|items|] == items && children[..|items|] == children;
        pruned := Sequence(children);
    }
  }

  /** The loop of `mergeMappingPreserve`. */
  method MergeMappingPreserve(dst: seq<Entry>, src: seq<Entry>, path: Path) returns (entries: seq<Entry>)
    ensures entries == MergeEntries(dst, src, path)
    decreases src, 0
  {
    hide MergeNode, Prune, IsDefault;
    entries := dst;
    for i := 0 to |src|
      invariant entries == MergeEntries(dst, src[..i], path)
    {
      assert src[..i + 1][..i] == src[..i] && src[..i + 1][i] == src[i];
      var e := src[i];
      var idx, childPath := FindKey(entries, e.key), path + [e.key];
      if idx.Some? {
        var merged := MergeNodePreserve(entries[idx.value].value, e.value, childPath);
        entries := entries[idx.value := Entry(entries[idx.value].key, merged)];
      } else {
        var candidate := PruneKnownDefaults(childPath, e.value);
        if IsDefault(childPath, candidate) {
          continue;
        }
        entries := entries + [Entry(e.key, candidate)];
      }
    }
    assert src[..|src|] == src;
  }

  /** `mergeNodePreserve`. */
  method MergeNodePreserve(dst: Node, src: Node, path: Path) returns (node: Node)
    ensures node == MergeNode(dst, src, path)
    ensures WellFormed(src) ==> Covers(node, src, path) && KeepsLayout(dst, node, src)
    decreases src, 1
  {
    if WellFormed(src) {
      MergeCovers(dst, src, path);
      MergeKeepsLayout(dst, src, path);
    }
    hide Covers, KeepsLayout, WellFormed;
    match src {
      case Scalar(_, _) =>
        node := src;
      case Mapping(entries) =>
        var start := if dst.Mapping? then dst.entries else entries;
        var merged := MergeMappingPreserve(start, entries, path);
        node := Mapping(merged);
      case Sequence(items) =>
        if dst.Scalar? && dst.tag == NULL_TAG && |items| == 0 {
          return dst;
        }
        var merged := MergeSequence(if dst.Sequence? then dst.items else [], items, path);
        node := Sequence(merged);
    }
  }

  /** The sequence case of `mergeNodePreserve`. */
  method MergeSequence(original: seq<Node>, src: seq<Node>, path: Path) returns (items: seq<Node>)
    ensures items == MergeItems(original, src, Matching(original, src), path)
    decreases src, 0
  {
    var matching := ReorderSequence(original, src);
    hide MergeItem, Matching;
    items := [];
    for i := 0 to |src|
      invariant items == MergeItems(original, src[..i], matching[..i], path)
    {
      assert src[..i + 1][..i] == src[..i] && matching[..i + 1][..i] == matching[..i];
      var item := MergeElement(original, matching[i], src[i], path);
      items := items + [item];
    }
    assert src[..|src|] == src && matching[..|matching|] == matching;
  }

  method MergeElement(original: seq<Node>, index: Option<nat>, target: Node, path: Path) returns (item: Node)
    requires index.Some? ==> index.value < |original|
    ensures item == MergeItem(original, index, target, path)
    decreases target, 2
  {
    if index.None? {
      return target;
    }
    item := MergeNodePreserve(original[index.value], target, path);
    if item.Mapping? && target.Mapping? {
      var kept := PruneMissingMapKeys(item.entries, target.entries);
      item := Mapping(kept);
    }
  }
}
