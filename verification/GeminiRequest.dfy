/** Gemini-shaped requests: sanitising their thought signatures, and validating them. */
module GeminiRequest {
  import opened Common
  import opened Strings
  import opened Json
  import opened Recognisers
  import opened Compatibility
  import opened ClaudeHistory
  import opened ClaudeHistoryProofs

  const THOUGHT_SIGNATURE: Path := ["thoughtSignature"]
  const RESPONSE: Path := ["functionResponse"]
  const CALL: Path := ["functionCall"]

  /** The fields in which a part may carry a signature, in reading order. */
  const PART_SIGNATURES: seq<Path> :=
    [["thoughtSignature"], ["thought_signature"],
     ["functionCall", "thoughtSignature"], ["functionCall", "thought_signature"],
     ["functionResponse", "thoughtSignature"], ["functionResponse", "thought_signature"],
     ["extra_content", "google", "thought_signature"]]

  /** `geminiPartThoughtSignature`: the first signature found from path `i` on. */
  function FirstSignature(part: Json, i: nat): Option<string>
    decreases |PART_SIGNATURES| - i
  {
    if i >= |PART_SIGNATURES| then None
    else if Has(part, PART_SIGNATURES[i]) then Some(Text(part, PART_SIGNATURES[i]))
    else FirstSignature(part, i + 1)
  }

  /** `GeminiReplaySignatureOrBypass`. */
  function Replay(raw: string, kind: BlockKind): string {
    var d := Decide(Gemini, raw, kind);
    if d.compatible && d.normalized != "" then d.normalized
    else if d.action == ReplaceWithBypass && d.replacement != "" then d.replacement
    else SKIP_VALIDATOR
  }

  function KindOf(part: Json): BlockKind {
    if Has(part, CALL) then GeminiFunctionCall else GeminiModelPart
  }

  /** The signature a model part is given. */
  function ReplayOf(part: Json): string {
    var raw := FirstSignature(part, 0);
    Replay(if raw.Some? then raw.value else "", KindOf(part))
  }

  predicate NeedsSignature(part: Json) {
    Has(part, CALL) || Has(part, ["thought"]) || FirstSignature(part, 0).Some?
  }

  function SanitizePart(part: Json, modelTurn: bool): Json {
    if Has(part, RESPONSE) then DeleteAll(part, PART_SIGNATURES)
    else if !modelTurn || !NeedsSignature(part) then part
    else Set(DeleteAll(part, PART_SIGNATURES), THOUGHT_SIGNATURE, Str(ReplayOf(part)))
  }

  function SanitizeParts(parts: seq<Json>, modelTurn: bool): (r: seq<Json>)
    ensures |r| == |parts|
  {
    seq(|parts|, i requires 0 <= i < |parts| => SanitizePart(parts[i], modelTurn))
  }

  predicate IsModelTurn(content: Json) {
    Text(content, ["role"]) == "model"
  }

  const PARTS: Path := ["parts"]

  function SanitizeContent(content: Json): Json {
    if !IsArr(Get(content, PARTS)) then content
    else Set(content, PARTS, Arr(SanitizeParts(Get(content, PARTS).value.items, IsModelTurn(content))))
  }

  function SanitizeContents(contents: seq<Json>): (r: seq<Json>)
    ensures |r| == |contents|
  {
    seq(|contents|, i requires 0 <= i < |contents| => SanitizeContent(contents[i]))
  }

  /** `SanitizeGeminiRequestThoughtSignatures`; `path` is where the contents are. */
  function SanitizeRequest(payload: Json, path: Path): Json {
    var contents := Get(payload, path);
    if !IsArr(contents) then payload else Set(payload, path, Arr(SanitizeContents(contents.value.items)))
  }

  // -------------------------------------------------------------- validation

  /** `InspectGeminiThoughtSignature` with sentinels allowed and a known envelope required. */
  predicate SignatureOk(sig: string) {
    IsBypass(sig) || IsGemini(sig)
  }

  predicate PartOk(part: Json) {
    (Has(part, CALL) || Has(part, THOUGHT_SIGNATURE)) ==>
      var sig := TrimSpace(Text(part, THOUGHT_SIGNATURE));
      sig != "" && SignatureOk(sig)
  }

  predicate ContentOk(content: Json) {
    IsArr(Get(content, PARTS)) ==>
      forall i :: 0 <= i < |Get(content, PARTS).value.items| ==> PartOk(Get(content, PARTS).value.items[i])
  }

  /** `geminiContents`. */
  function ContentsPath(payload: Json): Path {
    if Has(payload, ["contents"]) then ["contents"] else ["request", "contents"]
  }

  function ContentsOf(payload: Json, path: Path): seq<Json> {
    if IsArr(Get(payload, path)) then Get(payload, path).value.items else []
  }

  /** `ValidateGeminiThoughtSignatures`. */
  predicate Valid(payload: Json) {
    forall i :: 0 <= i < |ContentsOf(payload, ContentsPath(payload))| ==> ContentOk(ContentsOf(payload, ContentsPath(payload))[i])
  }

  // ----------------------------------------------------------------- one part

  lemma PathsApart()
    ensures AllApart(PART_SIGNATURES)
    ensures |PART_SIGNATURES| == 7 && PART_SIGNATURES[0] == THOUGHT_SIGNATURE
    ensures forall i :: 0 <= i < 7 ==> Apart(PART_SIGNATURES[i], ["thought"])
  {
    SignaturesApart();
    ThoughtApart();
    hide Apart, AllApart;
  }

  lemma SignaturesApart()
    ensures AllApart(PART_SIGNATURES)
  {
    assert |"thoughtSignature"| == 16 && |"thought_signature"| == 17 && |"functionCall"| == 12;
    assert |"functionResponse"| == 16 && |"extra_content"| == 13;
    assert "functionResponse"[0] != "thoughtSignature"[0];
  }

  lemma ThoughtApart()
    ensures forall i :: 0 <= i < |PART_SIGNATURES| ==> Apart(PART_SIGNATURES[i], ["thought"])
  {
    assert |"thoughtSignature"| == 16 && |"thought_signature"| == 17 && |"functionCall"| == 12;
    assert |"functionResponse"| == 16 && |"extra_content"| == 13 && |"thought"| == 7;
  }

  /** The signature given to a model part is one that Gemini accepts, and giving it again leaves it. */
  lemma ReplayIsOk(raw: string, kind: BlockKind)
    ensures var r := Replay(raw, kind);
            && TrimSpace(r) == r && r != "" && SignatureOk(r)
            && forall k :: Replay(r, k) == r
  {
    if Decide(Gemini, raw, kind).compatible { ReplayCompatible(raw, kind); } else { ReplaySentinel(raw, kind); }
    hide Replay, SignatureOk, TrimSpace;
  }

  lemma ReplayCompatible(raw: string, kind: BlockKind)
    requires Decide(Gemini, raw, kind).compatible
    ensures var r := Replay(raw, kind);
            && TrimSpace(r) == r && r != "" && SignatureOk(r)
            && forall k :: Replay(r, k) == r
  {
    DecideAgain(Gemini, raw, kind);
    DetectedIsAccepted(raw);
    var r := Decide(Gemini, raw, kind).normalized;
    WithoutPrefixTrimmed(raw);
    forall k ensures Replay(r, k) == r {
      assert Decide(Gemini, r, k).compatible && Decide(Gemini, r, k).normalized == Decide(Gemini, r, kind).normalized;
    }
  }

  lemma ReplaySentinel(raw: string, kind: BlockKind)
    requires !Decide(Gemini, raw, kind).compatible
    ensures var r := Replay(raw, kind);
            && TrimSpace(r) == r && r != "" && SignatureOk(r)
            && forall k :: Replay(r, k) == r
  {
    DecideSentinel(kind);
    forall k ensures Replay(SKIP_VALIDATOR, k) == SKIP_VALIDATOR {
      DecideSentinel(k);
    }
    assert IsBypass(SKIP_VALIDATOR);
    hide Detect, Normalized, TrimSpace, IsBypass;
  }

  predicate Bare(part: Json) {
    !HasAny(part, PART_SIGNATURES)
  }

  lemma DeletedIsBare(part: Json)
    ensures Bare(DeleteAll(part, PART_SIGNATURES))
  {
    PathsApart();
    forall i | 0 <= i < |PART_SIGNATURES| ensures !Has(DeleteAll(part, PART_SIGNATURES), PART_SIGNATURES[i]) {
      DeleteAllGone(part, PART_SIGNATURES, i);
    }
  }

  /** Deleting inside a member keeps the member itself in place. */
  lemma {:induction false} DeleteAllKeepsMember(part: Json, paths: seq<Path>, name: string)
    requires forall i :: 0 <= i < |paths| ==> paths[i] != [] && paths[i] != [name]
    ensures Has(DeleteAll(part, paths), [name]) <==> Has(part, [name])
    ensures DeleteAll(part, paths).Obj? <==> part.Obj?
  {
    if paths != [] {
      DeleteAllKeepsMember(part, paths[..|paths| - 1], name);
      GetOne(DeleteAll(part, paths[..|paths| - 1]), name);
      GetOne(DeleteAll(part, paths), name);
    } else {
      assert DeleteAll(part, paths) == part;
    }
  }

  lemma BareKeepsMembers(part: Json)
    ensures var b := DeleteAll(part, PART_SIGNATURES);
            && (Has(b, RESPONSE) <==> Has(part, RESPONSE)) && (Has(b, CALL) <==> Has(part, CALL))
            && (Has(b, ["thought"]) <==> Has(part, ["thought"])) && (b.Obj? <==> part.Obj?)
  {
    PathsApart();
    assert |"functionResponse"| == 16 && |"functionCall"| == 12 && |"thought"| == 7;
    assert |"thoughtSignature"| == 16 && |"thought_signature"| == 17;
    assert "functionResponse"[0] != "thoughtSignature"[0];
    DeleteAllKeepsMember(part, PART_SIGNATURES, "functionResponse");
    DeleteAllKeepsMember(part, PART_SIGNATURES, "functionCall");
    DeleteAllKeepsMember(part, PART_SIGNATURES, "thought");
  }

  lemma {:induction false} NoSignature(part: Json, i: nat)
    ensures FirstSignature(part, i).Some? ==> HasAny(part, PART_SIGNATURES)
    decreases |PART_SIGNATURES| - i
  {
    if i < |PART_SIGNATURES| { NoSignature(part, i + 1); }
  }

  lemma SetMember(part: Json, name: string, v: Json)
    requires part.Obj?
    ensures Set(part, [name], v) == Obj(part.fields[name := v])
    ensures Get(Set(part, [name], v), [name]) == Some(v)
    ensures forall other :: other != name ==> Get(Set(part, [name], v), [other]) == Get(part, [other])
  {
    assert [name][1..] == [];
    forall other | other != name ensures Get(Set(part, [name], v), [other]) == Get(part, [other]) {
      GetOne(part, other);
      GetOne(Set(part, [name], v), other);
    }
  }

  lemma SignedIsObject(part: Json)
    requires NeedsSignature(part)
    ensures part.Obj?
  {
    NoSignature(part, 0);
  }

  /** Removing the signature just set on a bare part leaves the bare part. */
  lemma {:induction false} DeleteSet(bare: Json, v: Json, i: nat)
    requires bare.Obj? && Bare(bare) && 1 <= i <= |PART_SIGNATURES|
    ensures DeleteAll(Set(bare, THOUGHT_SIGNATURE, v), PART_SIGNATURES[..i]) == bare
  {
    var signed := Set(bare, THOUGHT_SIGNATURE, v);
    if i == 1 {
      SetMember(bare, "thoughtSignature", v);
      assert PART_SIGNATURES[..1] == [THOUGHT_SIGNATURE] && PART_SIGNATURES[..1][..0] == [];
      assert DeleteAll(signed, []) == signed;
      assert !Has(bare, PART_SIGNATURES[0]);
      GetOne(bare, "thoughtSignature");
      assert bare.fields["thoughtSignature" := v] - {"thoughtSignature"} == bare.fields;
    } else {
      DeleteSet(bare, v, i - 1);
      assert PART_SIGNATURES[..i][..i - 1] == PART_SIGNATURES[..i - 1];
      assert !Has(bare, PART_SIGNATURES[i - 1]);
      DeleteMissing(bare, PART_SIGNATURES[i - 1]);
    }
  }

  /** A part carries its signatures where they belong: no call beside a response, and outside model
      turns nothing that validation would reject. */
  predicate WellPlaced(part: Json, modelTurn: bool) {
    if Has(part, RESPONSE) then !Has(part, CALL) else modelTurn || PartOk(part)
  }

  /** A bare part with an accepted signature set on it. */
  lemma SignedBare(bare: Json, r: string)
    requires bare.Obj? && Bare(bare) && !Has(bare, RESPONSE)
    requires TrimSpace(r) == r && r != "" && SignatureOk(r) && forall k :: Replay(r, k) == r
    ensures var k := Set(bare, THOUGHT_SIGNATURE, Str(r));
            Get(k, THOUGHT_SIGNATURE) == Some(Str(r)) && PartOk(k) && !Has(k, RESPONSE) && SanitizePart(k, true) == k
  {
    hide Replay, SignatureOk;
    SetMember(bare, "thoughtSignature", Str(r));
    assert |"functionResponse"| == 16 && "functionResponse"[0] != "thoughtSignature"[0];
    PathsApart();
    var k := Set(bare, THOUGHT_SIGNATURE, Str(r));
    assert Has(k, PART_SIGNATURES[0]);
    assert FirstSignature(k, 0) == Some(r);
    DeleteSet(bare, Str(r), |PART_SIGNATURES|);
    assert PART_SIGNATURES[..|PART_SIGNATURES|] == PART_SIGNATURES;
  }

  lemma SignedPart(part: Json)
    requires NeedsSignature(part) && !Has(part, RESPONSE)
    ensures var k := SanitizePart(part, true);
            && Get(k, THOUGHT_SIGNATURE) == Some(Str(ReplayOf(part))) && PartOk(k)
            && !Has(k, RESPONSE) && SanitizePart(k, true) == k
  {
    hide Replay, SignatureOk, PartOk, FirstSignature;
    SignedIsObject(part);
    BareKeepsMembers(part);
    DeletedIsBare(part);
    var raw := FirstSignature(part, 0);
    ReplayIsOk(if raw.Some? then raw.value else "", KindOf(part));
    SignedBare(DeleteAll(part, PART_SIGNATURES), ReplayOf(part));
  }

  lemma ResponsePart(part: Json, modelTurn: bool)
    requires Has(part, RESPONSE)
    ensures var k := SanitizePart(part, modelTurn);
            && Has(k, RESPONSE) && Bare(k) && (PartOk(k) <==> !Has(part, CALL)) && SanitizePart(k, modelTurn) == k
  {
    var k := SanitizePart(part, modelTurn);
    BareKeepsMembers(part);
    DeletedIsBare(part);
    PathsApart();
    assert !Has(k, PART_SIGNATURES[0]);
    DeleteAllMissing(k, PART_SIGNATURES);
    assert TrimSpace("") == "";
  }

  /** A sanitised part is valid exactly when the original was well placed; a response part carries
      no signature any more; sanitising again changes nothing. */
  lemma PartSanitized(part: Json, modelTurn: bool)
    ensures var k := SanitizePart(part, modelTurn);
            && (PartOk(k) <==> WellPlaced(part, modelTurn))
            && (Has(k, RESPONSE) ==> Bare(k))
            && SanitizePart(k, modelTurn) == k
  {
    hide PartOk, Replay;
    if Has(part, RESPONSE) {
      ResponsePart(part, modelTurn);
    } else if modelTurn {
      if NeedsSignature(part) {
        SignedPart(part);
      } else {
        UnsignedPart(part);
      }
    }
  }

  lemma UnsignedPart(part: Json)
    requires !NeedsSignature(part)
    ensures PartOk(part)
  {
    PathsApart();
    assert FirstSignature(part, 0).None?;
  }

  // ------------------------------------------------------------ whole requests

  predicate ContentPlaced(content: Json) {
    IsArr(Get(content, PARTS)) ==>
      var parts := Get(content, PARTS).value.items;
      forall i :: 0 <= i < |parts| ==> WellPlaced(parts[i], IsModelTurn(content))
  }

  predicate ResponsesBare(content: Json) {
    IsArr(Get(content, PARTS)) ==>
      var parts := Get(content, PARTS).value.items;
      forall i :: 0 <= i < |parts| && Has(parts[i], RESPONSE) ==> Bare(parts[i])
  }

  lemma SetAgain(j: Json, name: string, v: Json)
    requires Has(j, [name])
    ensures Get(Set(j, [name], v), [name]) == Some(v)
    ensures forall other :: other != name ==> Get(Set(j, [name], v), [other]) == Get(j, [other])
  {
    SetMember(j, name, v);
  }

  lemma ContentSanitized(content: Json)
    ensures var k := SanitizeContent(content);
            && (ContentOk(k) <==> ContentPlaced(content)) && ResponsesBare(k) && SanitizeContent(k) == k
  {
    hide SanitizePart, PartOk, WellPlaced, Bare;
    if IsArr(Get(content, PARTS)) {
      var parts, turn := Get(content, PARTS).value.items, IsModelTurn(content);
      var kept := SanitizeParts(parts, turn);
      var k := SanitizeContent(content);
      SetAgain(content, "parts", Arr(kept));
      assert |"role"| == 4 && |"parts"| == 5;
      forall i | 0 <= i < |parts|
        ensures PartOk(kept[i]) <==> WellPlaced(parts[i], turn)
        ensures Has(kept[i], RESPONSE) ==> Bare(kept[i])
        ensures SanitizePart(kept[i], turn) == kept[i]
      {
        PartSanitized(parts[i], turn);
      }
      assert SanitizeParts(kept, turn) == kept;
      SetSame(k, PARTS, Arr(kept));
    }
  }

  /** Where contents are found does not change when they are replaced. */
  lemma ContentsPathStays(payload: Json, v: Json)
    requires Has(payload, ContentsPath(payload))
    ensures ContentsPath(Set(payload, ContentsPath(payload), v)) == ContentsPath(payload)
  {
    GetSet(payload, ContentsPath(payload), v);
    if !Has(payload, ["contents"]) {
      assert ["request", "contents"][1..] == ["contents"];
      assert |"request"| == 7 && |"contents"| == 8;
      GetSetApart(payload, ["request", "contents"], v, ["contents"]);
    }
  }

  /** Main result: a sanitised request passes validation exactly when its signatures were well
      placed; no response part carries a signature; sanitising again changes nothing. */
  lemma SanitizedRequest(payload: Json)
    ensures var path := ContentsPath(payload);
            var k := SanitizeRequest(payload, path);
            && (Valid(k) <==> forall i :: 0 <= i < |ContentsOf(payload, path)| ==> ContentPlaced(ContentsOf(payload, path)[i]))
            && (forall i :: 0 <= i < |ContentsOf(k, path)| ==> ResponsesBare(ContentsOf(k, path)[i]))
            && SanitizeRequest(k, path) == k
  {
    hide SanitizeContent, ContentOk, ContentPlaced, ResponsesBare;
    var path := ContentsPath(payload);
    if IsArr(Get(payload, path)) {
      var contents := ContentsOf(payload, path);
      var kept := SanitizeContents(contents);
      var k := SanitizeRequest(payload, path);
      GetSet(payload, path, Arr(kept));
      ContentsPathStays(payload, Arr(kept));
      forall i | 0 <= i < |contents|
        ensures ContentOk(kept[i]) <==> ContentPlaced(contents[i])
        ensures ResponsesBare(kept[i])
        ensures SanitizeContent(kept[i]) == kept[i]
      {
        ContentSanitized(contents[i]);
      }
      assert ContentsPath(k) == path && ContentsOf(k, path) == kept;
      assert SanitizeContents(kept) == kept;
      SetSame(k, path, Arr(kept));
    } else {
      assert ContentsOf(payload, path) == [];
    }
  }

  /** In particular: calls, thoughts and signatures in model turns only, and no call beside a
      response, are enough. */
  lemma ModelTurnsSuffice(payload: Json)
    requires forall i :: 0 <= i < |ContentsOf(payload, ContentsPath(payload))| ==>
               var content := ContentsOf(payload, ContentsPath(payload))[i];
               IsArr(Get(content, PARTS)) ==>
                 forall j :: 0 <= j < |Get(content, PARTS).value.items| ==>
                   var part := Get(content, PARTS).value.items[j];
                   && !(Has(part, CALL) && Has(part, RESPONSE))
                   && (!IsModelTurn(content) ==> !Has(part, CALL) && !Has(part, THOUGHT_SIGNATURE))
    ensures Valid(SanitizeRequest(payload, ContentsPath(payload)))
  {
    SanitizedRequest(payload);
    hide Valid, SanitizeRequest;
    forall i | 0 <= i < |ContentsOf(payload, ContentsPath(payload))|
      ensures ContentPlaced(ContentsOf(payload, ContentsPath(payload))[i])
    {
    }
  }

  /** A request of one part in a turn of the user. */
  function UserTurn(part: Json): Json {
    Obj(map["contents" := Arr([Obj(map["role" := Str("user"), "parts" := Arr([part])])])])
  }

  lemma UserTurnParts(part: Json)
    ensures var payload := UserTurn(part);
            && ContentsPath(payload) == ["contents"] && |ContentsOf(payload, ["contents"])| == 1
            && var content := ContentsOf(payload, ["contents"])[0];
               Get(content, PARTS) == Some(Arr([part])) && !IsModelTurn(content)
  {
    var content := Obj(map["role" := Str("user"), "parts" := Arr([part])]);
    assert "role" != "parts" by { assert |"role"| == 4 && |"parts"| == 5; }
    assert Get(content, PARTS) == Some(Arr([part])) && Get(content, ["role"]) == Some(Str("user"));
    assert "user"[0] != "model"[0];
    assert Get(UserTurn(part), ["contents"]) == Some(Arr([content]));
  }

  /** A call in a turn of the user is left alone, and without a signature the request then fails. */
  lemma MisplacedCallExample()
    ensures var payload := UserTurn(Obj(map["functionCall" := Obj(map[])]));
            !Valid(SanitizeRequest(payload, ContentsPath(payload)))
  {
    var part := Obj(map["functionCall" := Obj(map[])]);
    var payload := UserTurn(part);
    assert |"functionResponse"| == 16 && |"functionCall"| == 12 && |"thoughtSignature"| == 16;
    assert Get(part, CALL) == Some(Obj(map[])) && !Has(part, RESPONSE) && Text(part, THOUGHT_SIGNATURE) == "";
    assert TrimSpace("") == "";
    assert !WellPlaced(part, false);
    UserTurnParts(part);
    SanitizedRequest(payload);
    hide WellPlaced, Valid, SanitizeRequest, UserTurn;
    var content := ContentsOf(payload, ["contents"])[0];
    assert Get(content, PARTS).value.items[0] == part;
    assert !ContentPlaced(content);
  }

  // ---------------------------------------------------------- as the program runs

  method SanitizeGeminiRequestThoughtSignatures(payload: Json, path: Path) returns (output: Json)
    ensures output == SanitizeRequest(payload, path)
  {
    var contents := Get(payload, path);
    if !IsArr(contents) {
      return payload;
    }
    var items := contents.value.items;
    for i := 0 to |items|
      invariant |items| == |contents.value.items|
      invariant forall j :: 0 <= j < i ==> items[j] == SanitizeContent(contents.value.items[j])
      invariant forall j :: i <= j < |items| ==> items[j] == contents.value.items[j]
    {
      var content := items[i];
      if IsArr(Get(content, PARTS)) {
        var parts := SanitizeTurn(Get(content, PARTS).value.items, IsModelTurn(content));
        items := items[i := Set(content, PARTS, Arr(parts))];
      }
    }
    assert items == SanitizeContents(contents.value.items);
    output := Set(payload, path, Arr(items));
  }

  method SanitizeTurn(original: seq<Json>, modelTurn: bool) returns (parts: seq<Json>)
    ensures parts == SanitizeParts(original, modelTurn)
  {
    hide Replay, FirstSignature;
    parts := original;
    for j := 0 to |original|
      invariant |parts| == |original|
      invariant forall i :: 0 <= i < j ==> parts[i] == SanitizePart(original[i], modelTurn)
      invariant forall i :: j <= i < |parts| ==> parts[i] == original[i]
    {
      var part := parts[j];
      if Has(part, RESPONSE) {
        parts := parts[j := DeleteAll(part, PART_SIGNATURES)];
        continue;
      }
      if !modelTurn {
        continue;
      }
      var hasCall, raw := Has(part, CALL), FirstSignature(part, 0);
      if !hasCall && !Has(part, ["thought"]) && raw.None? {
        continue;
      }
      var kind := if hasCall then GeminiFunctionCall else GeminiModelPart;
      var bare := DeleteAll(part, PART_SIGNATURES);
      var replay := Replay(if raw.Some? then raw.value else "", kind);
      parts := parts[j := Set(bare, THOUGHT_SIGNATURE, Str(replay))];
    }
  }

  method ValidateGeminiThoughtSignatures(payload: Json) returns (ok: bool)
    ensures ok == Valid(payload)
  {
    hide SignatureOk;
    var path := ContentsPath(payload);
    if !IsArr(Get(payload, path)) {
      return true;
    }
    var contents := Get(payload, path).value.items;
    for i := 0 to |contents|
      invariant forall j :: 0 <= j < i ==> ContentOk(contents[j])
    {
      if !IsArr(Get(contents[i], PARTS)) {
        continue;
      }
      var parts := Get(contents[i], PARTS).value.items;
      for j := 0 to |parts|
        invariant forall k :: 0 <= k < j ==> PartOk(parts[k])
      {
        if !Has(parts[j], CALL) && !Has(parts[j], THOUGHT_SIGNATURE) {
          continue;
        }
        var sig := TrimSpace(Text(parts[j], THOUGHT_SIGNATURE));
        if sig == "" || !SignatureOk(sig) {
          assert !PartOk(parts[j]);
          assert !ContentOk(ContentsOf(payload, path)[i]);
          return false;
        }
      }
    }
    return true;
  }
}
