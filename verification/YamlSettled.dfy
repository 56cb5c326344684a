/** Configurations whose list elements have names: writing them a second time leaves every file alone. */
module YamlSettled {
  import opened Common
  import opened Strings
  import opened YamlMerge
  import opened YamlMergeProofs
  import opened YamlRewrite

  // ------------------------------------------------------------- trimmed keys

  predicate TrimmedKeys(n: Node) {
    match n
    case Scalar(_, _) => true
    case Mapping(entries) => TrimmedEntries(entries)
    case Sequence(items) => forall i :: 0 <= i < |items| ==> TrimmedKeys(items[i])
  }

  predicate TrimmedEntries(entries: seq<Entry>) {
    forall i :: 0 <= i < |entries| ==> TrimSpace(entries[i].key) == entries[i].key && TrimmedKeys(entries[i].value)
  }

  lemma {:induction false} PrunedTrimmed(path: Path, n: Node)
    requires TrimmedKeys(n)
    ensures TrimmedKeys(Prune(path, n))
    decreases n, 1
  {
    match n
    case Scalar(_, _) =>
    case Mapping(entries) => PrunedTrimmedEntries(path, entries);
    case Sequence(items) =>
      forall i | 0 <= i < |items| ensures TrimmedKeys(PruneItems(path, items)[i]) {
        PrunedItem(path, items, i);
        PrunedTrimmed(path, items[i]);
      }
  }

  lemma {:induction false} PrunedTrimmedEntries(path: Path, entries: seq<Entry>)
    requires TrimmedEntries(entries)
    ensures TrimmedEntries(PruneEntries(path, entries))
    decreases entries, 0
  {
    hide TrimSpace, DroppedWhenNew;
    if entries != [] {
      var n := |entries| - 1;
      PrunedTrimmedEntries(path, entries[..n]);
      PrunedTrimmed(path + [entries[n].key], entries[n].value);
    }
  }

  lemma {:induction false} KeepOnlyTrimmed(entries: seq<Entry>, keys: set<string>)
    requires TrimmedEntries(entries)
    ensures TrimmedEntries(KeepOnly(entries, keys))
  {
    hide TrimSpace;
    if entries != [] { KeepOnlyTrimmed(entries[..|entries| - 1], keys); }
  }

  lemma {:induction false} MergeTrimmed(dst: Node, s: Node, path: Path)
    requires TrimmedKeys(dst) && TrimmedKeys(s)
    ensures TrimmedKeys(MergeNode(dst, s, path))
    decreases s, 1
  {
    match s
    case Scalar(_, _) =>
    case Mapping(entries) => EntriesTrimmed(if dst.Mapping? then dst.entries else entries, entries, path);
    case Sequence(items) =>
      if !(dst.Scalar? && dst.tag == NULL_TAG && items == []) {
        var original := if dst.Sequence? then dst.items else [];
        var matching := Matching(original, items);
        forall i | 0 <= i < |items| ensures TrimmedKeys(MergeItems(original, items, matching, path)[i]) {
          MergedItem(original, items, matching, path, i);
          if matching[i].Some? {
            var merged := MergeNode(original[matching[i].value], items[i], path);
            MergeTrimmed(original[matching[i].value], items[i], path);
            if merged.Mapping? && items[i].Mapping? { KeepOnlyTrimmed(merged.entries, KeptKeys(items[i].entries)); }
          }
        }
      }
  }

  lemma {:induction false} EntriesTrimmed(dst: seq<Entry>, s: seq<Entry>, path: Path)
    requires TrimmedEntries(dst) && TrimmedEntries(s)
    ensures TrimmedEntries(MergeEntries(dst, s, path))
    decreases s, 0
  {
    hide TrimSpace, IsDefault;
    if s != [] {
      var n := |s| - 1;
      EntriesTrimmed(dst, s[..n], path);
      var before, childPath := MergeEntries(dst, s[..n], path), path + [s[n].key];
      var idx := FindKey(before, s[n].key);
      if idx.Some? {
        MergeTrimmed(before[idx.value].value, s[n].value, childPath);
      } else {
        PrunedTrimmed(childPath, s[n].value);
      }
      assert MergeEntries(dst, s, path) == MergeStep(before, s[n], path);
    }
  }

  // -------------------------------------------------------------------- names

  predicate IsIdentityKey(key: string) {
    ToLower(key) in IDENTITY_KEYS
  }

  /** Keys differ in more than case; what stands under an identity key is text, blank or not a default, and
      one of these texts is not blank. */
  predicate Named(entries: seq<Entry>, path: Path) {
    && (forall i, j :: 0 <= i < j < |entries| ==> ToLower(entries[i].key) != ToLower(entries[j].key))
    && (forall i :: 0 <= i < |entries| && IsIdentityKey(entries[i].key) ==> IsName(entries[i], path))
    && exists i :: 0 <= i < |entries| && IsIdentityKey(entries[i].key) && TrimSpace(entries[i].value.value) != ""
  }

  predicate IsName(e: Entry, path: Path) {
    e.value.Scalar? && (TrimSpace(e.value.value) == "" || !IsDefault(path + [e.key], e.value))
  }

  /** The elements of every sequence are scalars, or mappings with a name. */
  predicate NamedElements(s: Node, path: Path)
    decreases s
  {
    match s
    case Scalar(_, _) => true
    case Mapping(entries) => forall i :: 0 <= i < |entries| ==> NamedElements(entries[i].value, path + [entries[i].key])
    case Sequence(items) =>
      forall i :: 0 <= i < |items| ==>
        items[i].Scalar? || (items[i].Mapping? && Named(items[i].entries, path) && NamedElements(items[i], path))
  }

  /** What is read under a key: the text of the first scalar there. */
  lemma {:induction false} ScalarValueIs(entries: seq<Entry>, key: string, from: nat, at: nat)
    requires from <= at < |entries| && entries[at].value.Scalar? && ToLower(TrimSpace(entries[at].key)) == key
    requires forall i :: from <= i < at ==> ToLower(TrimSpace(entries[i].key)) != key
    ensures ScalarValueFrom(entries, key, from) == TrimSpace(entries[at].value.value)
    decreases at - from
  {
    hide TrimSpace, ToLower;
    if from < at { ScalarValueIs(entries, key, from + 1, at); }
  }

  lemma {:induction false} NoScalarValue(entries: seq<Entry>, key: string, from: nat)
    requires forall i :: from <= i < |entries| ==> ToLower(TrimSpace(entries[i].key)) != key
    ensures ScalarValueFrom(entries, key, from) == ""
    decreases |entries| - from
  {
    hide TrimSpace, ToLower;
    if from < |entries| { NoScalarValue(entries, key, from + 1); }
  }

  /** The entries `x` of a merged element, for the entries `s` of its source. */
  predicate MergedFrom(x: seq<Entry>, s: seq<Entry>, path: Path) {
    && (forall i :: 0 <= i < |s| ==> CoversKey(x, s[i], path) && TrimSpace(s[i].key) == s[i].key)
    && (forall i :: 0 <= i < |x| ==> TrimSpace(x[i].key) == x[i].key && exists j :: 0 <= j < |s| && s[j].key == x[i].key)
  }

  /** Under an identity key the merged element says what its source says. */
  lemma ScalarKept(x: seq<Entry>, s: seq<Entry>, path: Path, key: string)
    requires MergedFrom(x, s, path) && Named(s, path) && key in IDENTITY_KEYS
    ensures ScalarValueFrom(x, key, 0) == ScalarValueFrom(s, key, 0)
  {
    hide TrimSpace, ToLower, Covers, IsDefault;
    if j :| 0 <= j < |s| && ToLower(s[j].key) == key {
      assert IsName(s[j], path) && CoversKey(x, s[j], path);
      ScalarValueIs(s, key, 0, j);
      var idx := FindKey(x, s[j].key);
      if idx.Some? {
        NameCovered(x, s[j], path);
        ScalarValueIs(x, key, 0, idx.value);
      } else {
        NameDropped(x, s[j], path);
        NoScalarValue(x, key, 0);
      }
    } else {
      NoScalarValue(s, key, 0);
      NoScalarValue(x, key, 0);
    }
  }

  lemma NameCovered(x: seq<Entry>, e: Entry, path: Path)
    requires CoversKey(x, e, path) && e.value.Scalar? && FindKey(x, e.key).Some?
    ensures x[FindKey(x, e.key).value].value == e.value
  {
  }

  lemma NameDropped(x: seq<Entry>, e: Entry, path: Path)
    requires CoversKey(x, e, path) && IsName(e, path) && FindKey(x, e.key).None?
    ensures TrimSpace(e.value.value) == ""
  {
    hide IsDefault, TrimSpace;
  }

  lemma {:induction false} IdentityKept(x: seq<Entry>, s: seq<Entry>, path: Path, i: nat)
    requires MergedFrom(x, s, path) && Named(s, path) && i <= |IDENTITY_KEYS|
    ensures IdentityByKey(x, i) == IdentityByKey(s, i)
    decreases |IDENTITY_KEYS| - i
  {
    hide MergedFrom, Named, ScalarValueFrom;
    if i < |IDENTITY_KEYS| {
      ScalarKept(x, s, path, IDENTITY_KEYS[i]);
      IdentityKept(x, s, path, i + 1);
    }
  }

  lemma {:induction false} IdentityFound(entries: seq<Entry>, i: nat, n: nat)
    requires i <= n < |IDENTITY_KEYS| && ScalarValueFrom(entries, IDENTITY_KEYS[n], 0) != ""
    ensures IdentityByKey(entries, i) != ""
    decreases n - i
  {
    hide ScalarValueFrom;
    if i < n { IdentityFound(entries, i + 1, n); }
  }

  lemma IdentityNumber(key: string) returns (n: nat)
    requires IsIdentityKey(key)
    ensures n < |IDENTITY_KEYS| && IDENTITY_KEYS[n] == ToLower(key)
  {
    hide ToLower;
    n :| n < |IDENTITY_KEYS| && IDENTITY_KEYS[n] == ToLower(key);
  }

  lemma NameAt(s: seq<Entry>, path: Path) returns (j: nat)
    requires Named(s, path)
    ensures j < |s| && IsIdentityKey(s[j].key) && s[j].value.Scalar? && TrimSpace(s[j].value.value) != ""
    ensures forall i :: 0 <= i < j ==> ToLower(s[i].key) != ToLower(s[j].key)
  {
    hide TrimSpace, ToLower, IsDefault, IsIdentityKey;
    j :| 0 <= j < |s| && IsIdentityKey(s[j].key) && TrimSpace(s[j].value.value) != "";
    assert IsName(s[j], path);
  }

  lemma NamedHasIdentity(s: seq<Entry>, path: Path)
    requires Named(s, path) && forall i :: 0 <= i < |s| ==> TrimSpace(s[i].key) == s[i].key
    ensures IdentityByKey(s, 0) != ""
  {
    hide TrimSpace, ToLower, IsIdentityKey, Named, IdentityByKey;
    var j := NameAt(s, path);
    var n := IdentityNumber(s[j].key);
    ScalarValueIs(s, IDENTITY_KEYS[n], 0, j);
    IdentityFound(s, 0, n);
  }

  /** A merged element with a name keeps its identity. */
  lemma ElementKept(x: Node, s: Node, path: Path)
    requires s.Mapping? && Named(s.entries, path) && Covers(x, s, path) && NoStaleKeys(x, s)
    requires TrimmedKeys(x) && TrimmedKeys(s)
    ensures SameIdentity(x, s)
  {
    forall i | 0 <= i < |x.entries| ensures exists j :: 0 <= j < |s.entries| && s.entries[j].key == x.entries[i].key {
      assert TrimSpace(x.entries[i].key) in KeptKeys(s.entries);
    }
    assert MergedFrom(x.entries, s.entries, path);
    NamedHasIdentity(s.entries, path);
    IdentityKept(x.entries, s.entries, path, 0);
    hide IdentityByKey, MergedFrom, Named, Covers, TrimmedKeys;
  }

  lemma {:induction false} NamedKeeps(m: Node, s: Node, path: Path)
    requires WellFormed(s) && Covers(m, s, path) && Forgets(m, s)
    requires TrimmedKeys(m) && TrimmedKeys(s) && NamedElements(s, path)
    ensures KeepsIdentities(m, s)
    decreases s
  {
    hide TrimSpace;
    match s
    case Scalar(_, _) =>
    case Mapping(entries) =>
      forall i | 0 <= i < |entries| ensures KeepsIdentitiesKey(m.entries, entries[i]) {
        var idx := FindKey(m.entries, entries[i].key);
        assert CoversKey(m.entries, entries[i], path) && ForgetsKey(m.entries, entries[i]);
        if idx.Some? { NamedKeeps(m.entries[idx.value].value, entries[i].value, path + [entries[i].key]); }
      }
    case Sequence(items) =>
      if m.Sequence? {
        forall i | 0 <= i < |items| && items[i].Mapping?
          ensures SameIdentity(m.items[i], items[i]) && KeepsIdentities(m.items[i], items[i])
        {
          ElementKept(m.items[i], items[i], path);
          NamedKeeps(m.items[i], items[i], path);
        }
      }
  }

  /** Main result: where every mapping in a list has a name, writing a configuration a second time leaves
      the file alone, whatever file it was written into. */
  lemma NamedSettle(dst: Node, s: Node, path: Path)
    requires WellFormed(s) && NamedElements(s, path) && TrimmedKeys(s) && TrimmedKeys(dst)
    ensures MergeNode(MergeNode(dst, s, path), s, path) == MergeNode(dst, s, path)
  {
    var once := MergeNode(dst, s, path);
    MergeCovers(dst, s, path);
    MergeForgets(dst, s, path);
    MergeTrimmed(dst, s, path);
    NamedKeeps(once, s, path);
    IdentitiesSuffice(dst, s, path);
  }

  // ------------------------------------------------------------------ an example

  const NO: Node := Scalar("!!bool", "false")
  const FIVE: Node := Scalar("!!int", "5")

  /** An element that only its first entries tell from others: {flag: false, x: 5}. */
  const NAMELESS: Node := Mapping([Entry("flag", NO), Entry("x", FIVE)])

  /** What is left of it in a new list: {x: 5}. */
  const PRUNED: Node := Mapping([Entry("x", FIVE)])

  lemma PrunedNameless(path: Path)
    ensures Prune(path, NAMELESS) == PRUNED && Prune(path, Sequence([NAMELESS])) == Sequence([PRUNED])
  {
    var entries := NAMELESS.entries;
    assert !IsZero(FIVE) && IsZero(NO);
    assert !DroppedWhenNew(path + ["x"], FIVE) by { FiveIsNoDefault(path + ["x"]); }
    assert entries[..1] == [Entry("flag", NO)] && entries[..1][..0] == [];
    assert PruneEntries(path, entries[..1]) == PruneEntries(path, []) + [];
    assert PruneEntries(path, entries) == [] + [Entry("x", FIVE)];
    assert [NAMELESS][..0] == [];
    assert PruneItems(path, [NAMELESS]) == PruneItems(path, []) + [Prune(path, NAMELESS)];
  }

  lemma FiveIsNoDefault(path: Path)
    ensures !IsDefault(path, FIVE)
  {
    hide Dotted;
    assert "5" != "10" && "5" != "0" && "5" != "0.0";
  }

  lemma {:induction false} NoIdentityKeys(entries: seq<Entry>, i: nat)
    requires forall j :: 0 <= j < |entries| ==> ToLower(TrimSpace(entries[j].key)) !in IDENTITY_KEYS
    ensures IdentityByKey(entries, i) == ""
    decreases |IDENTITY_KEYS| - i
  {
    hide TrimSpace, ToLower, ScalarValueFrom;
    if i < |IDENTITY_KEYS| {
      assert IDENTITY_KEYS[i] in IDENTITY_KEYS;
      NoScalarValue(entries, IDENTITY_KEYS[i], 0);
      NoIdentityKeys(entries, i + 1);
    }
  }

  lemma OtherKeys()
    ensures "flag" !in IDENTITY_KEYS && "x" !in IDENTITY_KEYS
  {
    assert "flag"[0] != "name"[0];
    assert |"flag"| == 4 && |"x"| == 1;
    assert |IDENTITY_KEYS| == 9;
    forall i | 0 <= i < 9 ensures IDENTITY_KEYS[i] != "flag" && IDENTITY_KEYS[i] != "x" {
      assert i == 1 || |IDENTITY_KEYS[i]| != 4;
      assert |IDENTITY_KEYS[i]| > 1;
    }
  }

  lemma Texts()
    ensures TrimSpace("flag") == ToLower("flag") == "flag" && TrimSpace("x") == ToLower("x") == "x"
    ensures TrimSpace("false") == "false" && TrimSpace("5") == "5"
  {
    TrimmedStays("flag");
    TrimmedStays("x");
    TrimmedStays("false");
    TrimmedStays("5");
  }

  /** The element and what was left of it do not find each other. */
  lemma NamelessIsLost()
    ensures MatchElement([PRUNED], {}, NAMELESS).None?
  {
    Texts();
    OtherKeys();
    hide TrimSpace, ToLower, IDENTITY_KEYS;
    NoIdentityKeys(NAMELESS.entries, 0);
    NoIdentityKeys(PRUNED.entries, 0);
    assert |Identity(NAMELESS)| == |"flag"| + 1 + |"false"| && |Identity(PRUNED)| == |"x"| + 1 + |"5"|;
    assert !SameIdentity(PRUNED, NAMELESS) && !StructurallyEqual(PRUNED, NAMELESS);
    hide SameIdentity, StructurallyEqual;
    FirstMatchIs([PRUNED], {}, NAMELESS, false, 0);
    FirstMatchIs([PRUNED], {}, NAMELESS, true, 0);
  }

  /** Without a name an element can be lost: a list new to the file is written without what is a default in
      it, is then not recognised, and is written in full the second time. */
  lemma NamelessExample()
    ensures var s := Mapping([Entry("k", Sequence([NAMELESS]))]);
            && MergeNode(Mapping([]), s, []) == Mapping([Entry("k", Sequence([PRUNED]))])
            && MergeNode(Mapping([Entry("k", Sequence([PRUNED]))]), s, []) == s
  {
    var list := Sequence([NAMELESS]);
    var e, path := Entry("k", list), ["k"];
    PrunedNameless(path);
    FiveIsNoDefault(path);
    assert !IsZero(PRUNED.entries[0].value) && !IsZero(PRUNED) && !IsZero(Sequence([PRUNED])) by { assert Sequence([PRUNED]).items[0] == PRUNED; }
    assert [e][..0] == [] && [] + ["k"] == path;
    assert MergeEntries([], [e], []) == MergeStep([], e, []) == [Entry("k", Sequence([PRUNED]))];
    var once := [Entry("k", Sequence([PRUNED]))];
    assert FindKey(once, "k") == Some(0);
    CopiedWhole(path);
    assert MergeEntries(once, [e], []) == MergeStep(once, e, []);
    assert once[0 := e] == [e];
  }

  lemma CopiedWhole(path: Path)
    ensures MergeNode(Sequence([PRUNED]), Sequence([NAMELESS]), path) == Sequence([NAMELESS])
  {
    NamelessIsLost();
    assert [NAMELESS][..0] == [];
    assert Matching([PRUNED], []) == [] && UsedBy([]) == {};
    var matching := Matching([PRUNED], [NAMELESS]);
    assert matching == [None];
    MergedItem([PRUNED], [NAMELESS], matching, path, 0);
  }
}
