/** Which old element of a list a new one is merged into, and what a new setting looks like once written. */
module YamlMatches {
  import opened Strings
  import opened YamlMerge
  import opened YamlMergeProofs
  import opened YamlValues

  // ------------------------------------------------------------------- matching

  /** A node without tags and surrounding space. */
  function Bare(n: Node): Node
    decreases n, 1
  {
    match n
    case Scalar(_, value) => Scalar("", TrimSpace(value))
    case Mapping(entries) => Mapping(BareEntries(entries))
    case Sequence(items) => Sequence(BareItems(items))
  }

  function BareEntries(entries: seq<Entry>): (r: seq<Entry>)
    ensures |r| == |entries|
    decreases entries, 0
  {
    if entries == [] then []
    else
      var e := entries[|entries| - 1];
      BareEntries(entries[..|entries| - 1]) + [Entry(TrimSpace(e.key), Bare(e.value))]
  }

  function BareItems(items: seq<Node>): (r: seq<Node>)
    ensures |r| == |items|
    decreases items, 0
  {
    if items == [] then [] else BareItems(items[..|items| - 1]) + [Bare(items[|items| - 1])]
  }

  lemma {:induction false} BareEntry(entries: seq<Entry>, i: nat)
    requires i < |entries|
    ensures BareEntries(entries)[i] == Entry(TrimSpace(entries[i].key), Bare(entries[i].value))
  {
    hide Bare, TrimSpace;
    if i < |entries| - 1 { BareEntry(entries[..|entries| - 1], i); }
  }

  lemma {:induction false} BareItem(items: seq<Node>, i: nat)
    requires i < |items|
    ensures BareItems(items)[i] == Bare(items[i])
  {
    hide Bare;
    if i < |items| - 1 { BareItem(items[..|items| - 1], i); }
  }

  /** Nodes look alike exactly when they are equal without tags and surrounding space. */
  lemma {:induction false} LooksAlike(a: Node, b: Node)
    ensures StructurallyEqual(a, b) <==> Bare(a) == Bare(b)
    decreases a
  {
    if a.Mapping? && b.Mapping? && |a.entries| == |b.entries| {
      EntriesAlike(a, b);
    } else if a.Sequence? && b.Sequence? && |a.items| == |b.items| {
      ItemsAlike(a, b);
    }
    hide TrimSpace, BareEntries, BareItems;
  }

  lemma {:induction false} EntriesAlike(a: Node, b: Node)
    requires a.Mapping? && b.Mapping? && |a.entries| == |b.entries|
    ensures StructurallyEqual(a, b) <==> BareEntries(a.entries) == BareEntries(b.entries)
    decreases a, 0
  {
    forall i | 0 <= i < |a.entries|
      ensures StructurallyEqual(a.entries[i].value, b.entries[i].value) <==> Bare(a.entries[i].value) == Bare(b.entries[i].value)
      ensures BareEntries(a.entries)[i] == Entry(TrimSpace(a.entries[i].key), Bare(a.entries[i].value))
      ensures BareEntries(b.entries)[i] == Entry(TrimSpace(b.entries[i].key), Bare(b.entries[i].value))
    {
      LooksAlike(a.entries[i].value, b.entries[i].value);
      BareEntry(a.entries, i);
      BareEntry(b.entries, i);
    }
    hide TrimSpace, Bare, BareEntries;
    if StructurallyEqual(a, b) {
      assert forall i :: 0 <= i < |a.entries| ==> BareEntries(a.entries)[i] == BareEntries(b.entries)[i];
    } else {
      var i :| 0 <= i < |a.entries| && !(TrimSpace(a.entries[i].key) == TrimSpace(b.entries[i].key)
                                         && StructurallyEqual(a.entries[i].value, b.entries[i].value));
      assert BareEntries(a.entries)[i] != BareEntries(b.entries)[i];
    }
  }

  lemma {:induction false} ItemsAlike(a: Node, b: Node)
    requires a.Sequence? && b.Sequence? && |a.items| == |b.items|
    ensures StructurallyEqual(a, b) <==> BareItems(a.items) == BareItems(b.items)
    decreases a, 0
  {
    forall i | 0 <= i < |a.items|
      ensures StructurallyEqual(a.items[i], b.items[i]) <==> BareItems(a.items)[i] == BareItems(b.items)[i]
    {
      LooksAlike(a.items[i], b.items[i]);
      BareItem(a.items, i);
      BareItem(b.items, i);
    }
    hide TrimSpace, Bare, BareItems;
    if StructurallyEqual(a, b) {
      assert forall i :: 0 <= i < |a.items| ==> BareItems(a.items)[i] == BareItems(b.items)[i];
    } else {
      var i :| 0 <= i < |a.items| && !StructurallyEqual(a.items[i], b.items[i]);
      assert BareItems(a.items)[i] != BareItems(b.items)[i];
    }
  }

  /** The first element still unused that is a mapping of this identity. */
  predicate FirstOfIdentity(original: seq<Node>, used: set<nat>, id: string, i: nat) {
    && i < |original| && i !in used && original[i].Mapping? && Identity(original[i]) == id
    && forall j :: 0 <= j < i && j !in used ==> !(original[j].Mapping? && Identity(original[j]) == id)
  }

  /** The first element still unused that looks like this. */
  predicate FirstAlike(original: seq<Node>, used: set<nat>, target: Node, i: nat) {
    && i < |original| && i !in used && Bare(original[i]) == Bare(target)
    && forall j :: 0 <= j < i && j !in used ==> Bare(original[j]) != Bare(target)
  }

  lemma SameOf(n: Node, target: Node)
    ensures SameIdentity(n, target) <==>
              || (target.Mapping? && Identity(target) != "" && n.Mapping? && Identity(n) == Identity(target))
              || (target.Scalar? && TrimSpace(target.value) != "" && Bare(n) == Bare(target))
  {
    hide TrimSpace, Identity, BareEntries, BareItems;
  }

  /** Main result on matching: a mapping that is known by something is merged into the first unused mapping
      known by the same, if there is one; anything else into the first unused element that looks alike, if
      there is one, and is copied if there is not. */
  lemma MatchIs(original: seq<Node>, used: set<nat>, target: Node)
    ensures var m, id := MatchElement(original, used, target), Identity(target);
            var known := target.Mapping? && id != ""
                         && exists j :: 0 <= j < |original| && j !in used && original[j].Mapping? && Identity(original[j]) == id;
            && (known ==> m.Some? && FirstOfIdentity(original, used, id, m.value))
            && (!known && m.Some? ==> FirstAlike(original, used, target, m.value))
            && (!known && m.None? ==> forall j :: 0 <= j < |original| && j !in used ==> Bare(original[j]) != Bare(target))
  {
    FirstMatchIs(original, used, target, false, 0);
    FirstMatchIs(original, used, target, true, 0);
    forall n: Node ensures StructurallyEqual(n, target) <==> Bare(n) == Bare(target)
                   ensures SameIdentity(n, target) <==>
                             || (target.Mapping? && Identity(target) != "" && n.Mapping? && Identity(n) == Identity(target))
                             || (target.Scalar? && TrimSpace(target.value) != "" && Bare(n) == Bare(target)) {
      LooksAlike(n, target);
      SameOf(n, target);
    }
    hide StructurallyEqual, SameIdentity, Identity, Bare, TrimSpace, FirstMatch;
  }

  /** In a list element exactly the entries stay whose key the source element has, spaces around keys aside and
      blank keys never, in their order. */
  lemma {:induction false} StaysIff(d: seq<Entry>, e: Entry, s: seq<Entry>)
    ensures var named := TrimSpace(e.key) != "" && exists i :: 0 <= i < |s| && TrimSpace(s[i].key) == TrimSpace(e.key);
            PruneMissing(Mapping(d + [e]), Mapping(s)) ==
              Mapping(PruneMissing(Mapping(d), Mapping(s)).entries + if named then [e] else [])
    ensures PruneMissing(Mapping([]), Mapping(s)) == Mapping([])
  {
    hide TrimSpace;
    assert (d + [e])[..|d|] == d;
    assert TrimSpace(e.key) in KeptKeys(s) <==>
             TrimSpace(e.key) != "" && exists i :: 0 <= i < |s| && TrimSpace(s[i].key) == TrimSpace(e.key);
  }

  // -------------------------------------------------------------------- pruning

  /** Says something where it stands: no blank or known scalar, no empty collection. */
  predicate Telling(path: Path, n: Node) {
    match n
    case Scalar(tag, value) => !Blank(tag, value) && !KnownAt(path, tag, value)
    case Mapping(entries) => entries != []
    case Sequence(items) => items != []
  }

  /** Under every key at every level something is said. */
  predicate Lean(path: Path, n: Node)
    decreases n
  {
    match n
    case Scalar(_, _) => true
    case Mapping(entries) =>
      forall i :: 0 <= i < |entries| ==>
        Telling(path + [entries[i].key], entries[i].value) && Lean(path + [entries[i].key], entries[i].value)
    case Sequence(items) => forall i :: 0 <= i < |items| ==> Lean(path, items[i])
  }

  /** Pruning leaves no key with nothing behind it. */
  lemma {:induction false} PrunedIsLean(path: Path, n: Node)
    ensures Lean(path, Prune(path, n))
    decreases n, 1
  {
    match n
    case Scalar(_, _) =>
    case Mapping(entries) => EntriesAreLean(path, entries);
    case Sequence(items) =>
      forall i | 0 <= i < |items| ensures Lean(path, PruneItems(path, items)[i]) {
        PrunedItem(path, items, i);
        PrunedIsLean(path, items[i]);
      }
  }

  lemma {:induction false} EntriesAreLean(path: Path, entries: seq<Entry>)
    ensures Lean(path, Mapping(PruneEntries(path, entries)))
    decreases entries, 0
  {
    if entries != [] {
      var n := |entries| - 1;
      var before, all, e := PruneEntries(path, entries[..n]), PruneEntries(path, entries), entries[n];
      EntriesAreLean(path, entries[..n]);
      PrunedIsLean(path + [e.key], e.value);
      if !DroppedWhenNew(path + [e.key], e.value) {
        KeptIsTelling(path + [e.key], e.value);
        assert all == before + [Entry(e.key, Prune(path + [e.key], e.value))];
      } else {
        assert all == before;
      }
      hide DroppedWhenNew, Telling, Prune;
    }
  }

  lemma KeptIsTelling(path: Path, n: Node)
    requires path != [] && !DroppedWhenNew(path, n)
    ensures Telling(path, Prune(path, n))
  {
    if n.Scalar? { ScalarDefault(path, n.tag, n.value); }
    hide Blank, KnownAt, IsDefault;
  }
}
