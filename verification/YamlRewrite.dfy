/** When writing a configuration leaves the file alone, and in particular writing it a second time. */
module YamlRewrite {
  import opened Common
  import opened Strings
  import opened YamlMerge
  import opened YamlMergeProofs

  /** In every sequence of `s`, matching its elements with those of `m` finds each element at its own
      place, with no key to drop, and so on inside; or what it finds instead, if anything, comes out as
      the element at that place. */
  predicate FoundAgain(m: Node, s: Node, path: Path)
    decreases s
  {
    match s
    case Scalar(_, _) => true
    case Mapping(entries) => m.Mapping? ==> forall i :: 0 <= i < |entries| ==> FoundAgainKey(m.entries, entries[i], path)
    case Sequence(items) =>
      m.Sequence? && |m.items| == |items| ==>
        forall i :: 0 <= i < |items| ==>
          var found := Matching(m.items, items)[i];
          if found == Some(i)
          then PruneMissing(m.items[i], items[i]) == m.items[i] && FoundAgain(m.items[i], items[i], path)
          else MergeItem(m.items, found, items[i], path) == m.items[i]
  }

  predicate FoundAgainKey(m: seq<Entry>, e: Entry, path: Path)
    decreases e
  {
    var idx := FindKey(m, e.key);
    idx.Some? ==> FoundAgain(m[idx.value].value, e.value, path + [e.key])
  }

  // ------------------------------------------------------------------ mappings

  lemma {:induction false} NoAdditions(m: seq<Entry>, s: seq<Entry>, path: Path)
    requires forall i :: 0 <= i < |s| ==> CoversKey(m, s[i], path)
    ensures Additions(m, s, path) == []
  {
    hide Prune, IsDefault, Covers;
    if s != [] {
      var n := |s| - 1;
      assert forall i :: 0 <= i < n ==> s[..n][i] == s[i];
      NoAdditions(m, s[..n], path);
      assert CoversKey(m, s[n], path);
    }
  }

  /** Merging into entries that cover the source rewrites values in place. */
  lemma MergedInPlace(m: seq<Entry>, s: seq<Entry>, path: Path)
    requires DistinctKeys(s) && forall i :: 0 <= i < |s| ==> CoversKey(m, s[i], path)
    ensures var n := MergeEntries(m, s, path);
            |n| == |m| && forall i :: 0 <= i < |m| ==> n[i] == MergedEntry(m, s, path, i)
  {
    MergedEntries(m, s, path);
    NoAdditions(m, s, path);
    hide MergeEntries, MergedEntry, Additions, CoversKey;
    var n := MergeEntries(m, s, path);
    assert n[..|m|] + [] == n[..|m|];
  }

  /** An entry of the file and the source entry that is merged into it find each other. */
  lemma Partners(m: seq<Entry>, s: seq<Entry>, i: nat, j: nat)
    requires DistinctKeys(s) && i < |m| && j < |s|
    ensures FindKey(m, s[j].key) == Some(i) <==> FindKey(s, m[i].key) == Some(j) && IsFirst(m, i)
  {
    var a, b := FindKey(m, s[j].key), FindKey(s, m[i].key);
  }

  lemma EntriesAgain(m: seq<Entry>, s: seq<Entry>, path: Path)
    requires DistinctKeys(s) && forall j :: 0 <= j < |s| ==> WellFormed(s[j].value) && CoversKey(m, s[j], path)
    ensures MergeEntries(m, s, path) == m <==> forall j :: 0 <= j < |s| ==> FoundAgainKey(m, s[j], path)
    decreases s, 1
  {
    var n := MergeEntries(m, s, path);
    MergedInPlace(m, s, path);
    forall j | 0 <= j < |s| && FindKey(m, s[j].key).Some?
      ensures var i := FindKey(m, s[j].key).value;
              FoundAgainKey(m, s[j], path) <==> n[i] == m[i]
    {
      var i := FindKey(m, s[j].key).value;
      Partners(m, s, i, j);
      assert CoversKey(m, s[j], path);
      MergeAgain(m[i].value, s[j].value, path + [s[j].key]);
    }
    hide MergeEntries, CoversKey, WellFormed, MergeNode, FoundAgain;
    forall i | 0 <= i < |m| ensures n[i] == m[i] || exists j :: 0 <= j < |s| && FindKey(m, s[j].key) == Some(i) {
      var idx := FindKey(s, m[i].key);
      if idx.Some? && IsFirst(m, i) { Partners(m, s, i, idx.value); }
    }
    assert n == m <==> forall i :: 0 <= i < |m| ==> n[i] == m[i];
  }

  // ------------------------------------------------------------------ elements

  lemma {:induction false} KeepOnlyWhole(entries: seq<Entry>, keys: set<string>)
    ensures |KeepOnly(entries, keys)| <= |entries|
    ensures |KeepOnly(entries, keys)| == |entries| ==> KeepOnly(entries, keys) == entries
    ensures (forall i :: 0 <= i < |entries| ==> TrimSpace(entries[i].key) in keys) ==> KeepOnly(entries, keys) == entries
  {
    hide TrimSpace;
    if entries != [] {
      KeepOnlyWhole(entries[..|entries| - 1], keys);
      assert entries == entries[..|entries| - 1] + [entries[|entries| - 1]];
    }
  }

  /** An element merged in its place stays exactly when merging leaves it alone and nothing is to drop. */
  lemma ItemInPlace(m: Node, s: Node, path: Path)
    requires WellFormed(s) && Covers(m, s, path)
    ensures PruneMissing(MergeNode(m, s, path), s) == m <==> MergeNode(m, s, path) == m && PruneMissing(m, s) == m
  {
    if s.Mapping? {
      var n, keys := MergeEntries(m.entries, s.entries, path), KeptKeys(s.entries);
      MergedInPlace(m.entries, s.entries, path);
      KeepOnlyWhole(n, keys);
      assert MergeNode(m, s, path) == Mapping(n);
    }
    hide MergeEntries, MergeNode, Covers, WellFormed;
  }

  // --------------------------------------------------------------- main results

  /** Writing into a file that covers the source leaves it alone exactly when everything is found again. */
  lemma {:induction false} MergeAgain(m: Node, s: Node, path: Path)
    requires WellFormed(s) && Covers(m, s, path)
    ensures MergeNode(m, s, path) == m <==> FoundAgain(m, s, path)
    decreases s, 2
  {
    match s
    case Scalar(_, _) =>
    case Mapping(entries) => EntriesAgain(m.entries, entries, path);
    case Sequence(items) =>
      if m.Sequence? { ItemsAgain(m.items, items, path); }
  }

  lemma ItemsAgain(m: seq<Node>, items: seq<Node>, path: Path)
    requires |m| == |items| && WellFormed(Sequence(items))
    requires forall i :: 0 <= i < |items| ==> Covers(m[i], items[i], path)
    ensures MergeItems(m, items, Matching(m, items), path) == m <==> FoundAgain(Sequence(m), Sequence(items), path)
    decreases items, 1
  {
    var matching := Matching(m, items);
    var n := MergeItems(m, items, matching, path);
    forall i | 0 <= i < |items|
      ensures n[i] == MergeItem(m, matching[i], items[i], path)
      ensures matching[i] == Some(i) ==>
                (n[i] == m[i] <==> PruneMissing(m[i], items[i]) == m[i] && FoundAgain(m[i], items[i], path))
    {
      MergedItem(m, items, matching, path, i);
      if matching[i] == Some(i) {
        ItemInPlace(m[i], items[i], path);
        MergeAgain(m[i], items[i], path);
      }
    }
    hide Matching, MergeItems, MergeItem, PruneMissing, Covers;
    assert n == m <==> forall i :: 0 <= i < |items| ==> n[i] == m[i];
  }

  /** Main result: writing leaves a file alone exactly when the file covers the source and everything in
      it is found again. */
  lemma MergeLeaves(m: Node, s: Node, path: Path)
    requires WellFormed(s)
    ensures MergeNode(m, s, path) == m <==> Covers(m, s, path) && FoundAgain(m, s, path)
  {
    MergeCovers(m, s, path);
    if Covers(m, s, path) { MergeAgain(m, s, path); }
  }

  /** So writing the same configuration again leaves the file alone exactly when everything is found again
      in the file that the first writing left. */
  lemma MergeTwice(dst: Node, s: Node, path: Path)
    requires WellFormed(s)
    ensures var once := MergeNode(dst, s, path);
            MergeNode(once, s, path) == once <==> FoundAgain(once, s, path)
  {
    MergeCovers(dst, s, path);
    MergeAgain(MergeNode(dst, s, path), s, path);
  }

  // ---------------------------------------------------------------- stale keys

  /** No mapping in a sequence has keys that the element of the source at its place has not. */
  predicate Forgets(m: Node, s: Node)
    decreases s
  {
    match s
    case Scalar(_, _) => true
    case Mapping(entries) => m.Mapping? ==> forall i :: 0 <= i < |entries| ==> ForgetsKey(m.entries, entries[i])
    case Sequence(items) =>
      m.Sequence? && |m.items| == |items| ==>
        forall i :: 0 <= i < |items| ==> NoStaleKeys(m.items[i], items[i]) && Forgets(m.items[i], items[i])
  }

  predicate ForgetsKey(m: seq<Entry>, e: Entry)
    decreases e
  {
    var idx := FindKey(m, e.key);
    idx.Some? ==> Forgets(m[idx.value].value, e.value)
  }

  lemma OwnKeys(s: Node)
    requires NoBlankKeys(s)
    ensures NoStaleKeys(s, s)
  {
  }

  lemma {:induction false} ForgetsItself(s: Node)
    requires WellFormed(s)
    ensures Forgets(s, s)
    decreases s
  {
    match s
    case Scalar(_, _) =>
    case Mapping(entries) =>
      forall i | 0 <= i < |entries| ensures ForgetsKey(entries, entries[i]) {
        assert FindKey(entries, entries[i].key) == Some(i);
        ForgetsItself(entries[i].value);
      }
    case Sequence(items) =>
      forall i | 0 <= i < |items| ensures NoStaleKeys(items[i], items[i]) && Forgets(items[i], items[i]) {
        OwnKeys(items[i]);
        ForgetsItself(items[i]);
      }
  }

  lemma {:induction false} PrunedKeysWithin(path: Path, entries: seq<Entry>, keys: set<string>)
    requires forall i :: 0 <= i < |entries| ==> TrimSpace(entries[i].key) in keys
    ensures forall i :: 0 <= i < |PruneEntries(path, entries)| ==> TrimSpace(PruneEntries(path, entries)[i].key) in keys
  {
    hide TrimSpace, DroppedWhenNew, Prune;
    if entries != [] { PrunedKeysWithin(path, entries[..|entries| - 1], keys); }
  }

  lemma PrunedNotStale(path: Path, n: Node)
    requires NoBlankKeys(n)
    ensures NoStaleKeys(Prune(path, n), n)
  {
    if n.Mapping? { PrunedKeysWithin(path, n.entries, KeptKeys(n.entries)); }
  }

  lemma {:induction false} PrunedForgets(path: Path, n: Node)
    requires WellFormed(n)
    ensures Forgets(Prune(path, n), n)
    decreases n
  {
    match n
    case Scalar(_, _) =>
    case Mapping(entries) =>
      PrunedKeys(path, entries);
      var pruned := PruneEntries(path, entries);
      forall i | 0 <= i < |entries| ensures ForgetsKey(pruned, entries[i]) {
        assert HoldsPruned(pruned, path, entries[i]);
        PrunedForgets(path + [entries[i].key], entries[i].value);
      }
    case Sequence(items) =>
      forall i | 0 <= i < |items|
        ensures NoStaleKeys(PruneItems(path, items)[i], items[i]) && Forgets(PruneItems(path, items)[i], items[i])
      {
        PrunedItem(path, items, i);
        PrunedNotStale(path, items[i]);
        PrunedForgets(path, items[i]);
      }
  }

  /** What merging leaves forgets stale keys, at any depth. */
  lemma {:induction false} MergeForgets(dst: Node, s: Node, path: Path)
    requires WellFormed(s)
    ensures Forgets(MergeNode(dst, s, path), s)
    decreases s, 2
  {
    match s
    case Scalar(_, _) =>
    case Mapping(entries) => EntriesForget(if dst.Mapping? then dst.entries else entries, entries, path);
    case Sequence(items) =>
      if !(dst.Scalar? && dst.tag == NULL_TAG && items == []) {
        var original := if dst.Sequence? then dst.items else [];
        var matching := Matching(original, items);
        MergedSequenceForgets(dst, items, path);
        forall i | 0 <= i < |items| ensures Forgets(MergeItems(original, items, matching, path)[i], items[i]) {
          MergedItem(original, items, matching, path, i);
          if matching[i].None? {
            ForgetsItself(items[i]);
          } else {
            MergeForgets(original[matching[i].value], items[i], path);
            KeepOnlyForgets(MergeNode(original[matching[i].value], items[i], path), items[i]);
          }
        }
      }
  }

  lemma KeepOnlyForgets(m: Node, s: Node)
    requires Forgets(m, s) && NoBlankKeys(s)
    ensures Forgets(PruneMissing(m, s), s)
  {
    if m.Mapping? && s.Mapping? {
      var keys := KeptKeys(s.entries);
      forall i | 0 <= i < |s.entries| ensures ForgetsKey(KeepOnly(m.entries, keys), s.entries[i]) {
        assert ForgetsKey(m.entries, s.entries[i]);
        assert TrimSpace(s.entries[i].key) in keys;
        KeepOnlyFinds(m.entries, keys, s.entries[i].key);
      }
    }
  }

  lemma {:induction false} EntriesForget(dst: seq<Entry>, s: seq<Entry>, path: Path)
    requires DistinctKeys(s) && forall i :: 0 <= i < |s| ==> WellFormed(s[i].value)
    ensures forall i :: 0 <= i < |s| ==> ForgetsKey(MergeEntries(dst, s, path), s[i])
    decreases s, 1
  {
    if s != [] {
      var n := |s| - 1;
      EntriesForget(dst, s[..n], path);
      var before, all := MergeEntries(dst, s[..n], path), MergeEntries(dst, s, path);
      StepForgets(before, s[n], path);
      forall i | 0 <= i < n ensures ForgetsKey(all, s[i]) {
        assert s[..n][i] == s[i] && ForgetsKey(before, s[i]);
        MergeStepKeeps(before, s[n], path, s[i].key);
      }
    }
  }

  lemma StepForgets(before: seq<Entry>, e: Entry, path: Path)
    requires WellFormed(e.value)
    ensures ForgetsKey(MergeStep(before, e, path), e)
    decreases e, 3
  {
    var idx, childPath := FindKey(before, e.key), path + [e.key];
    if idx.Some? {
      FindKeyUpdate(before, idx.value, MergeNode(before[idx.value].value, e.value, childPath), e.key);
      MergeForgets(before[idx.value].value, e.value, childPath);
    } else {
      FindKeySnoc(before, MergeStep(before, e, path), e.key);
      PrunedForgets(childPath, e.value);
    }
  }

  // ------------------------------------------------------------ kept identities

  /** In every sequence each element is equal to that of the source, or a mapping of the same identity, and
      so on inside. */
  predicate KeepsIdentities(m: Node, s: Node)
    decreases s
  {
    match s
    case Scalar(_, _) => true
    case Mapping(entries) => m.Mapping? ==> forall i :: 0 <= i < |entries| ==> KeepsIdentitiesKey(m.entries, entries[i])
    case Sequence(items) =>
      m.Sequence? && |m.items| == |items| ==>
        forall i :: 0 <= i < |items| ==>
          m.items[i] == items[i] ||
          (items[i].Mapping? && SameIdentity(m.items[i], items[i]) && KeepsIdentities(m.items[i], items[i]))
  }

  predicate KeepsIdentitiesKey(m: seq<Entry>, e: Entry)
    decreases e
  {
    var idx := FindKey(m, e.key);
    idx.Some? ==> KeepsIdentities(m[idx.value].value, e.value)
  }

  lemma {:induction false} KeepsItself(s: Node)
    requires WellFormed(s)
    ensures KeepsIdentities(s, s)
    decreases s
  {
    match s
    case Scalar(_, _) =>
    case Mapping(entries) =>
      forall i | 0 <= i < |entries| ensures KeepsIdentitiesKey(entries, entries[i]) {
        assert FindKey(entries, entries[i].key) == Some(i);
        KeepsItself(entries[i].value);
      }
    case Sequence(items) =>
  }

  lemma {:induction false} EqualToItself(n: Node)
    ensures StructurallyEqual(n, n)
    decreases n
  {
    match n
    case Scalar(_, _) =>
    case Sequence(items) => forall i | 0 <= i < |items| ensures StructurallyEqual(items[i], items[i]) { EqualToItself(items[i]); }
    case Mapping(entries) =>
      forall i | 0 <= i < |entries| ensures StructurallyEqual(entries[i].value, entries[i].value) { EqualToItself(entries[i].value); }
  }

  lemma {:induction false} FirstFinds(original: seq<Node>, used: set<nat>, target: Node, structural: bool, n: nat, i: nat)
    requires i <= n < |original| && (forall j: nat :: j in used <==> j < n)
    requires if structural then StructurallyEqual(original[n], target) else SameIdentity(original[n], target)
    ensures FirstMatch(original, used, target, structural, i) == Some(n)
    decreases n - i
  {
    hide SameIdentity, StructurallyEqual;
    if i < n { FirstFinds(original, used, target, structural, n, i + 1); }
  }

  /** What does not share an identity with itself shares none with anything. */
  lemma {:induction false} FindsNone(original: seq<Node>, used: set<nat>, target: Node, i: nat)
    requires i <= |original| && !SameIdentity(target, target)
    ensures FirstMatch(original, used, target, false, i).None?
    decreases |original| - i
  {
    if i < |original| {
      NoIdentity(target, original[i]);
      hide SameIdentity;
      FindsNone(original, used, target, i + 1);
    }
  }

  lemma NoIdentity(target: Node, other: Node)
    requires !SameIdentity(target, target)
    ensures !SameIdentity(other, target)
  {
    hide Identity;
  }

  /** With everything before `n` used, an element that is its target or shares its identity is found. */
  lemma FindsOwn(original: seq<Node>, used: set<nat>, target: Node, n: nat)
    requires n < |original| && (forall i: nat :: i in used <==> i < n)
    requires original[n] == target || SameIdentity(original[n], target)
    ensures MatchElement(original, used, target) == Some(n)
  {
    if SameIdentity(original[n], target) {
      FirstFinds(original, used, target, false, n, 0);
    } else {
      FindsNone(original, used, target, 0);
      EqualToItself(target);
      FirstFinds(original, used, target, true, n, 0);
    }
    hide SameIdentity, StructurallyEqual, FirstMatch;
  }

  lemma {:induction false} AllFindOwn(original: seq<Node>, items: seq<Node>)
    requires |items| <= |original|
    requires forall i :: 0 <= i < |items| ==> original[i] == items[i] || SameIdentity(original[i], items[i])
    ensures forall i :: 0 <= i < |items| ==> Matching(original, items)[i] == Some(i)
  {
    hide MatchElement, SameIdentity;
    if items != [] {
      var n := |items| - 1;
      AllFindOwn(original, items[..n]);
      var before := Matching(original, items[..n]);
      assert forall i :: 0 <= i < n ==> before[i].Some? && before[i].value == i;
      assert forall i: nat :: i in UsedBy(before) <==> i < n by {
        forall i | 0 <= i < n ensures i in UsedBy(before) { assert before[i].value == i; }
      }
      FindsOwn(original, UsedBy(before), items[n], n);
    }
  }

  lemma {:induction false} KeptIsFound(m: Node, s: Node, path: Path)
    requires WellFormed(s) && Covers(m, s, path) && Forgets(m, s) && KeepsIdentities(m, s)
    ensures FoundAgain(m, s, path)
    decreases s
  {
    match s
    case Scalar(_, _) =>
    case Mapping(entries) =>
      forall i | 0 <= i < |entries| ensures FoundAgainKey(m.entries, entries[i], path) {
        var idx := FindKey(m.entries, entries[i].key);
        assert CoversKey(m.entries, entries[i], path) && KeepsIdentitiesKey(m.entries, entries[i]) && ForgetsKey(m.entries, entries[i]);
        if idx.Some? { KeptIsFound(m.entries[idx.value].value, entries[i].value, path + [entries[i].key]); }
      }
    case Sequence(items) =>
      if m.Sequence? {
        AllFindOwn(m.items, items);
        forall i | 0 <= i < |items|
          ensures PruneMissing(m.items[i], items[i]) == m.items[i] && FoundAgain(m.items[i], items[i], path)
        {
          if m.items[i] == items[i] { KeepsItself(items[i]); }
          NothingStale(m.items[i], items[i]);
          KeptIsFound(m.items[i], items[i], path);
        }
      }
  }

  lemma NothingStale(m: Node, s: Node)
    requires NoStaleKeys(m, s)
    ensures PruneMissing(m, s) == m
  {
    if m.Mapping? && s.Mapping? {
      KeepOnlyWhole(m.entries, KeptKeys(s.entries));
    }
  }

  /** Main result: where the first writing leaves every element of a sequence equal to that of the source,
      or with its identity, the second writing leaves the file alone. */
  lemma IdentitiesSuffice(dst: Node, s: Node, path: Path)
    requires WellFormed(s) && KeepsIdentities(MergeNode(dst, s, path), s)
    ensures MergeNode(MergeNode(dst, s, path), s, path) == MergeNode(dst, s, path)
  {
    MergeCovers(dst, s, path);
    MergeForgets(dst, s, path);
    KeptIsFound(MergeNode(dst, s, path), s, path);
    MergeTwice(dst, s, path);
  }

  /** Writing a configuration into a file that holds it leaves the file alone. */
  lemma MergeSelf(s: Node, path: Path)
    requires WellFormed(s)
    ensures MergeNode(s, s, path) == s
  {
    CoversItself(s, path);
    ForgetsItself(s);
    KeepsItself(s);
    KeptIsFound(s, s, path);
    MergeAgain(s, s, path);
  }
}
