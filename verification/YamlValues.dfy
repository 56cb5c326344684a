/** Which settings are written into a file that lacks their key: said by literal tags and values. */
module YamlValues {
  import opened Strings
  import opened YamlMerge
  import opened YamlMergeProofs
  import opened YamlSettled

  /** A path is its keys with dots between them. */
  lemma {:induction false} DottedIs(path: Path, key: string)
    ensures Dotted(path + [key]) == if path == [] then key else Dotted(path) + "." + key
  {
    var all := path + [key];
    if path == [] {
      assert all == [key];
    } else {
      assert all[0] == path[0] && all[1..] == path[1..] + [key];
      DottedIs(path[1..], key);
      if |path| == 1 {
        assert path[1..] == [] && Dotted(path) == path[0];
      } else {
        assert path[0] + "." + (Dotted(path[1..]) + "." + key) == path[0] + "." + Dotted(path[1..]) + "." + key;
      }
    }
  }

  /** A text that means nothing: false, zero, the empty string, null. */
  predicate Blank(tag: string, value: string) {
    || (tag == "!!bool" && value == "false")
    || ((tag == "!!int" || tag == "!!float") && (value == "0" || value == "0.0"))
    || (tag == "!!str" && value == "")
    || tag == "!!null"
  }

  /** One of the four defaults that are known by their place. */
  predicate KnownAt(path: Path, tag: string, value: string) {
    || (Dotted(path) == "pprof.addr" && tag == "!!str" && value == "127.0.0.1:8316")
    || (Dotted(path) == "remote-management.panel-github-repository" && tag == "!!str"
        && value == "https://github.com/router-for-me/Cli-Proxy-API-Management-Center")
    || (Dotted(path) == "routing.strategy" && tag == "!!str" && value == "round-robin")
    || (Dotted(path) == "error-logs-max-files" && tag == "!!int" && value == "10")
  }

  /** Nothing is said by a node: every scalar in it is blank or, outside of lists, a default known by its
      place. */
  predicate Silent(path: Path, n: Node)
    decreases n
  {
    match n
    case Scalar(tag, value) => Blank(tag, value) || (path != [] && KnownAt(path, tag, value))
    case Mapping(entries) => forall i :: 0 <= i < |entries| ==> Silent(path + [entries[i].key], entries[i].value)
    case Sequence(items) =>
      forall i :: 0 <= i < |items| ==>
        if items[i].Scalar? then Blank(items[i].tag, items[i].value) else Silent(path, items[i])
  }

  lemma ScalarZero(tag: string, value: string)
    ensures IsZero(Scalar(tag, value)) <==> Blank(tag, value)
  {
    assert "!!bool" != "!!int" && "!!bool" != "!!float" && "!!bool" != "!!str" && "!!bool" != "!!null";
    assert "!!str"[2] != "!!int"[2] && "!!str"[2] != "!!null"[2] && "!!null"[2] != "!!int"[2] && |"!!float"| == 7;
    assert |"!!bool"| == 6 && |"!!null"| == 6 && |"!!int"| == 5 && |"!!str"| == 5 && "!!bool"[2] != "!!null"[2];
  }

  lemma ScalarDefault(path: Path, tag: string, value: string)
    ensures IsDefault(path, Scalar(tag, value)) <==> Silent(path, Scalar(tag, value))
  {
    ScalarZero(tag, value);
    hide Dotted, IsZero, Blank;
  }

  /** A node whose zeros are all there is to it says nothing. */
  lemma {:induction false} ZeroIsSilent(path: Path, n: Node)
    requires IsZero(n)
    ensures Silent(path, n)
    decreases n
  {
    match n
    case Scalar(tag, value) => ScalarZero(tag, value);
    case Mapping(entries) =>
      forall i | 0 <= i < |entries| ensures Silent(path + [entries[i].key], entries[i].value) {
        ZeroIsSilent(path + [entries[i].key], entries[i].value);
      }
    case Sequence(items) =>
      forall i | 0 <= i < |items|
        ensures if items[i].Scalar? then Blank(items[i].tag, items[i].value) else Silent(path, items[i])
      {
        if items[i].Scalar? { ScalarZero(items[i].tag, items[i].value); } else { ZeroIsSilent(path, items[i]); }
      }
  }

  /** What pruning leaves of a collection is zero exactly when the collection said nothing. */
  lemma {:induction false} PrunedIsZero(path: Path, n: Node)
    requires !n.Scalar?
    ensures IsZero(Prune(path, n)) <==> Silent(path, n)
    decreases n, 1
  {
    match n
    case Mapping(entries) => EntriesAreZero(path, entries);
    case Sequence(items) =>
      forall i | 0 <= i < |items|
        ensures IsZero(PruneItems(path, items)[i])
                <==> if items[i].Scalar? then Blank(items[i].tag, items[i].value) else Silent(path, items[i])
      {
        PrunedItem(path, items, i);
        if items[i].Scalar? { ScalarZero(items[i].tag, items[i].value); } else { PrunedIsZero(path, items[i]); }
      }
      hide PruneItems, Blank, Prune;
  }

  lemma {:induction false} EntriesAreZero(path: Path, entries: seq<Entry>)
    ensures (forall i :: 0 <= i < |PruneEntries(path, entries)| ==> IsZero(PruneEntries(path, entries)[i].value))
            <==> forall i :: 0 <= i < |entries| ==> Silent(path + [entries[i].key], entries[i].value)
    decreases entries, 0
  {
    if entries != [] {
      var n := |entries| - 1;
      EntriesAreZero(path, entries[..n]);
      EntryIsZero(path + [entries[n].key], entries[n].value);
      hide DroppedWhenNew, Prune, IsZero, Silent;
      var before, all := PruneEntries(path, entries[..n]), PruneEntries(path, entries);
      assert forall i :: 0 <= i < |before| ==> all[i] == before[i];
      assert forall i :: 0 <= i < n ==> entries[..n][i] == entries[i];
      if !DroppedWhenNew(path + [entries[n].key], entries[n].value) {
        assert all[|before|] == Entry(entries[n].key, Prune(path + [entries[n].key], entries[n].value));
      }
    }
  }

  /** An entry that is dropped says nothing; of another one a zero is left exactly when it says nothing. */
  lemma EntryIsZero(path: Path, n: Node)
    ensures DroppedWhenNew(path, n) ==> Silent(path, n)
    ensures !DroppedWhenNew(path, n) ==> (IsZero(Prune(path, n)) <==> Silent(path, n))
    decreases n, 2
  {
    if n.Scalar? {
      ScalarDefault(path, n.tag, n.value);
    } else {
      PrunedIsZero(path, n);
      if IsZero(n) { ZeroIsSilent(path, n); }
    }
    hide Silent, Dotted;
  }

  /** What stands in the way of a new key, in these terms. */
  lemma DefaultIsSilent(path: Path, n: Node)
    ensures IsDefault(path, Prune(path, n)) <==> Silent(path, n)
  {
    if n.Scalar? { ScalarDefault(path, n.tag, n.value); } else { PrunedIsZero(path, n); }
    hide Silent, Dotted, IsZero, PruneEntries, PruneItems;
  }

  // ---------------------------------------------------------------- main results

  lemma {:induction false} AddedKey(dst: seq<Entry>, src: seq<Entry>, path: Path, j: nat)
    requires DistinctKeys(src) && j < |src| && FindKey(dst, src[j].key).None?
    ensures var childPath := path + [src[j].key];
            if IsDefault(childPath, Prune(childPath, src[j].value)) then FindKey(Additions(dst, src, path), src[j].key).None?
            else Entry(src[j].key, Prune(childPath, src[j].value)) in Additions(dst, src, path)
  {
    var n := |src| - 1;
    var before, last := Additions(dst, src[..n], path), src[n];
    if j < n { AddedKey(dst, src[..n], path, j); } else { AdditionKeys(dst, src[..n], path, last.key); }
    FindKeySnoc(before, Additions(dst, src, path), src[j].key);
    hide Prune, IsDefault, FindKey;
    var childPath := path + [last.key];
    assert Additions(dst, src, path) == before
      + if FindKey(dst, last.key).Some? || IsDefault(childPath, Prune(childPath, last.value)) then []
        else [Entry(last.key, Prune(childPath, last.value))];
  }

  /** Looking up what the file lacks among the entries behind it. */
  lemma BehindFile(m: seq<Entry>, dst: seq<Entry>, adds: seq<Entry>, key: string)
    requires |m| == |dst| + |adds| && m[|dst|..] == adds && forall i :: 0 <= i < |dst| ==> m[i].key == dst[i].key
    requires FindKey(dst, key).None?
    ensures FindKey(m, key).None? <==> FindKey(adds, key).None?
  {
    assert forall i :: 0 <= i < |adds| ==> adds[i] == m[|dst| + i];
    var a, b, c := FindKey(m, key), FindKey(dst, key), FindKey(adds, key);
    if a.Some? && a.value >= |dst| { assert adds[a.value - |dst|].key == key; }
    if c.Some? { assert m[|dst| + c.value].key == key; }
  }

  /** Main result on new settings: a key of the source that the file lacks is in the file afterwards, with
      the pruned value, exactly when the source says something under it. */
  lemma NewKeyWritten(dst: seq<Entry>, src: seq<Entry>, path: Path, j: nat)
    requires DistinctKeys(src) && j < |src| && FindKey(dst, src[j].key).None?
    ensures var m, key, childPath := MergeNode(Mapping(dst), Mapping(src), path).entries, src[j].key, path + [src[j].key];
            if Silent(childPath, src[j].value) then FindKey(m, key).None?
            else |dst| <= |m| && Entry(key, Prune(childPath, src[j].value)) in m[|dst|..]
  {
    var m, key, adds := MergeEntries(dst, src, path), src[j].key, Additions(dst, src, path);
    MergedEntries(dst, src, path);
    AddedKey(dst, src, path, j);
    DefaultIsSilent(path + [key], src[j].value);
    forall i | 0 <= i < |dst| ensures m[i].key == dst[i].key { MergedKey(dst, src, path, i); }
    hide MergeEntries, Additions, MergedEntry, Prune, IsDefault, Silent, DistinctKeys;
    assert m[|dst|..] == adds;
    BehindFile(m, dst, adds, key);
    hide FindKey;
  }

  /** What is said stays when a new mapping is pruned, at every level; what is dropped said nothing. */
  lemma SaidIsKept(path: Path, entries: seq<Entry>, j: nat)
    requires DistinctKeys(entries) && j < |entries|
    ensures var childPath, idx := path + [entries[j].key], FindKey(PruneEntries(path, entries), entries[j].key);
            && (!Silent(childPath, entries[j].value) ==>
                  idx.Some? && PruneEntries(path, entries)[idx.value].value == Prune(childPath, entries[j].value))
            && (entries[j].value.Scalar? && Silent(childPath, entries[j].value) ==> idx.None?)
  {
    PrunedKeys(path, entries);
    assert HoldsPruned(PruneEntries(path, entries), path, entries[j]);
    EntryIsZero(path + [entries[j].key], entries[j].value);
    if entries[j].value.Scalar? { ScalarDefault(path + [entries[j].key], entries[j].value.tag, entries[j].value.value); }
    hide Silent, IsDefault, Prune, FindKey, PruneEntries;
  }

  /** In particular a scalar under a key that the file lacks is added as it is, unless it is one of these:
      false, zero, the empty string, null, or one of four values known by their place. */
  lemma NewScalarWritten(dst: seq<Entry>, path: Path, key: string, tag: string, value: string)
    requires FindKey(dst, key).None?
    ensures var e, place := Entry(key, Scalar(tag, value)), if path == [] then key else Dotted(path) + "." + key;
            var omitted :=
              || (tag == "!!bool" && value == "false")
              || ((tag == "!!int" || tag == "!!float") && (value == "0" || value == "0.0"))
              || (tag == "!!str" && value == "")
              || tag == "!!null"
              || (place == "pprof.addr" && tag == "!!str" && value == "127.0.0.1:8316")
              || (place == "remote-management.panel-github-repository" && tag == "!!str"
                  && value == "https://github.com/router-for-me/Cli-Proxy-API-Management-Center")
              || (place == "routing.strategy" && tag == "!!str" && value == "round-robin")
              || (place == "error-logs-max-files" && tag == "!!int" && value == "10");
            MergeNode(Mapping(dst), Mapping([e]), path) == Mapping(if omitted then dst else dst + [e])
  {
    var e := Entry(key, Scalar(tag, value));
    DottedIs(path, key);
    ScalarDefault(path + [key], tag, value);
    hide Dotted, IsDefault;
    assert [e][..0] == [];
    assert MergeEntries(dst, [e], path) == MergeStep(dst, e, path);
  }

  // ----------------------------------------------------------------- identities

  /** The keys that name an element of a list, the first that is there counting most. */
  function NamingKeys(): seq<string> {
    ["id", "name", "alias", "api-key", "api_key", "apikey", "key", "provider", "model"]
  }

  /** An element is known by its first text under one of these keys; nothing under earlier ones. */
  lemma KnownByName(entries: seq<Entry>, k: nat, at: nat)
    requires k < 9 && at < |entries| && entries[at].value.Scalar? && TrimSpace(entries[at].value.value) != ""
    requires ToLower(TrimSpace(entries[at].key)) == NamingKeys()[k]
    requires forall i :: 0 <= i < at ==> ToLower(TrimSpace(entries[i].key)) != NamingKeys()[k]
    requires forall i, j :: 0 <= i < |entries| && 0 <= j < k ==> ToLower(TrimSpace(entries[i].key)) != NamingKeys()[j]
    ensures Identity(Mapping(entries)) == NamingKeys()[k] + "=" + TrimSpace(entries[at].value.value)
  {
    assert NamingKeys() == IDENTITY_KEYS;
    ScalarValueIs(entries, IDENTITY_KEYS[k], 0, at);
    SkipsEarlier(entries, 0, k);
    hide TrimSpace, ToLower, ScalarValueFrom;
  }

  lemma {:induction false} SkipsEarlier(entries: seq<Entry>, i: nat, k: nat)
    requires i <= k < 9 && forall n, j :: 0 <= n < |entries| && i <= j < k ==> ToLower(TrimSpace(entries[n].key)) != IDENTITY_KEYS[j]
    ensures IdentityByKey(entries, i) == IdentityByKey(entries, k)
    decreases k - i
  {
    hide TrimSpace, ToLower, ScalarValueFrom;
    if i < k {
      NoScalarValue(entries, IDENTITY_KEYS[i], 0);
      SkipsEarlier(entries, i + 1, k);
    }
  }

  /** An element without such a key is known by its first text that is not blank. */
  lemma KnownByFirst(entries: seq<Entry>, at: nat)
    requires at < |entries| && entries[at].value.Scalar? && TrimSpace(entries[at].value.value) != ""
    requires forall i :: 0 <= i < at ==> !entries[i].value.Scalar? || TrimSpace(entries[i].value.value) == ""
    requires forall i :: 0 <= i < |entries| ==> ToLower(TrimSpace(entries[i].key)) !in NamingKeys()
    ensures Identity(Mapping(entries)) == ToLower(TrimSpace(entries[at].key)) + "=" + TrimSpace(entries[at].value.value)
  {
    assert NamingKeys() == IDENTITY_KEYS;
    NoIdentityKeys(entries, 0);
    FirstText(entries, 0, at);
    hide TrimSpace, ToLower, IdentityByKey, NamingKeys;
  }

  lemma {:induction false} FirstText(entries: seq<Entry>, from: nat, at: nat)
    requires from <= at < |entries| && entries[at].value.Scalar? && TrimSpace(entries[at].value.value) != ""
    requires forall i :: from <= i < at ==> !entries[i].value.Scalar? || TrimSpace(entries[i].value.value) == ""
    ensures IdentityByEntry(entries, from) == ToLower(TrimSpace(entries[at].key)) + "=" + TrimSpace(entries[at].value.value)
    decreases at - from
  {
    hide TrimSpace, ToLower;
    if from < at { FirstText(entries, from + 1, at); }
  }
}
