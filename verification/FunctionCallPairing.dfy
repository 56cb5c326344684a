/** The shape check on function calls and responses in a Gemini history. */
module FunctionCallPairing {
  import opened Common
  import opened Json
  import opened GeminiRequest

  /** The id and name of a call or response; "" where absent. */
  datatype Ref = Ref(id: string, name: string)

  /** The calls and responses of one content. */
  datatype Turn = Turn(calls: seq<Ref>, responses: seq<Ref>)

  function RefAt(part: Json, path: Path): Ref {
    Ref(Text(part, path + ["id"]), Text(part, path + ["name"]))
  }

  function Refs(parts: seq<Json>, path: Path): seq<Ref> {
    if parts == [] then []
    else Refs(parts[..|parts| - 1], path) + if Has(parts[|parts| - 1], path) then [RefAt(parts[|parts| - 1], path)] else []
  }

  function TurnOf(content: Json): Turn {
    if IsArr(Get(content, PARTS))
    then Turn(Refs(Get(content, PARTS).value.items, CALL), Refs(Get(content, PARTS).value.items, RESPONSE))
    else Turn([], [])
  }

  // ----------------------------------------------------------- the accepted shape

  /** The contents that hold calls or responses. */
  function Groups(contents: seq<Json>): seq<Turn> {
    if contents == [] then []
    else
      var t := TurnOf(contents[|contents| - 1]);
      Groups(contents[..|contents| - 1]) + if t == Turn([], []) then [] else [t]
  }

  predicate AllNamed(refs: seq<Ref>) {
    forall i :: 0 <= i < |refs| ==> refs[i].name != ""
  }

  predicate Answers(call: Ref, response: Ref) {
    response.name == call.name && (call.id != "" ==> response.id == call.id)
  }

  predicate CallGroup(t: Turn) {
    t.responses == [] && t.calls != [] && AllNamed(t.calls)
  }

  predicate ResponseGroup(t: Turn, calls: seq<Ref>) {
    t.calls == [] && |t.responses| == |calls| && forall i :: 0 <= i < |calls| ==> Answers(calls[i], t.responses[i])
  }

  predicate GroupOk(groups: seq<Turn>, i: nat)
    requires i < |groups|
  {
    if i % 2 == 0 then CallGroup(groups[i]) else ResponseGroup(groups[i], groups[i - 1].calls)
  }

  /** Call groups and response groups alternate, each response group answering the calls before it
      one by one; a last call group may be pending. */
  predicate Paired(groups: seq<Turn>) {
    forall i :: 0 <= i < |groups| ==> GroupOk(groups, i)
  }

  predicate Accepted(contents: seq<Json>) {
    Paired(Groups(contents))
  }

  lemma {:induction false} GroupsPrefix(contents: seq<Json>, n: nat)
    requires n <= |contents|
    ensures Groups(contents[..n]) <= Groups(contents)
  {
    if n < |contents| {
      var m := |contents| - 1;
      assert contents[..m][..n] == contents[..n];
      GroupsPrefix(contents[..m], n);
    } else {
      assert contents[..n] == contents;
    }
  }

  /** Main result: acceptance is closed under prefixes. */
  lemma PrefixAccepted(contents: seq<Json>, n: nat)
    requires n <= |contents| && Accepted(contents)
    ensures Accepted(contents[..n])
  {
    GroupsPrefix(contents, n);
    var a, b := Groups(contents[..n]), Groups(contents);
    forall i | 0 <= i < |a| ensures GroupOk(a, i) {
      assert GroupOk(b, i);
    }
  }

  /** Which histories accept one more content: any content after a content that holds no group; a
      call group when nothing is pending; an answering response group when calls are. */
  lemma AcceptedNext(contents: seq<Json>, content: Json)
    requires Accepted(contents)
    ensures var groups, t := Groups(contents), TurnOf(content);
            Accepted(contents + [content]) <==>
              || t == Turn([], [])
              || (|groups| % 2 == 0 && CallGroup(t))
              || (|groups| % 2 == 1 && ResponseGroup(t, groups[|groups| - 1].calls))
  {
    assert (contents + [content])[..|contents|] == contents;
    var groups, t := Groups(contents), TurnOf(content);
    var all := Groups(contents + [content]);
    if t != Turn([], []) {
      assert all == groups + [t];
      assert all[|groups|] == t;
      assert forall i :: 0 <= i < |groups| ==> all[i] == groups[i];
      PairedSnoc(groups, t);
    } else {
      assert all == groups;
    }
  }

  /** The rule for the next content, in full: nothing, or named calls when none are pending, or one response
      for each pending call, in their order, of the same name and, where the call has an identifier, with it. */
  lemma NextIs(contents: seq<Json>, content: Json)
    requires Accepted(contents)
    ensures var t, pending := TurnOf(content), PendingOf(Groups(contents));
            Accepted(contents + [content]) <==>
              || (t.calls == [] && t.responses == [])
              || (pending == [] && t.calls != [] && t.responses == [] && forall i :: 0 <= i < |t.calls| ==> t.calls[i].name != "")
              || (&& pending != [] && t.calls == [] && |t.responses| == |pending|
                  && forall i :: 0 <= i < |pending| ==>
                       && t.responses[i].name == pending[i].name
                       && (pending[i].id == "" || t.responses[i].id == pending[i].id))
  {
    AcceptedNext(contents, content);
    PendingShape(Groups(contents));
    RuleIs(TurnOf(content), PendingOf(Groups(contents)));
    hide TurnOf, Groups, Accepted, CallGroup, ResponseGroup, Paired;
  }

  lemma PendingShape(groups: seq<Turn>)
    requires Paired(groups)
    ensures PendingOf(groups) == [] <==> |groups| % 2 == 0
  {
    if |groups| % 2 == 1 { assert GroupOk(groups, |groups| - 1); }
  }

  lemma RuleIs(t: Turn, pending: seq<Ref>)
    ensures CallGroup(t) <==> t.calls != [] && t.responses == [] && forall i :: 0 <= i < |t.calls| ==> t.calls[i].name != ""
    ensures ResponseGroup(t, pending) <==>
              && t.calls == [] && |t.responses| == |pending|
              && forall i :: 0 <= i < |pending| ==>
                   && t.responses[i].name == pending[i].name
                   && (pending[i].id == "" || t.responses[i].id == pending[i].id)
  {
  }

  /** What a content holds: its calls and responses in the order of its parts, each with its identifier and
      name. */
  lemma TurnIs(content: Json, parts: seq<Json>, last: Json)
    requires Get(content, ["parts"]) == Some(Arr(parts + [last]))
    ensures var t := TurnOf(content);
            && t.calls == Refs(parts, ["functionCall"])
               + (if Has(last, ["functionCall"]) then [Ref(Text(last, ["functionCall", "id"]), Text(last, ["functionCall", "name"]))] else [])
            && t.responses == Refs(parts, ["functionResponse"])
               + (if Has(last, ["functionResponse"])
                  then [Ref(Text(last, ["functionResponse", "id"]), Text(last, ["functionResponse", "name"]))] else [])
            && Refs([], ["functionCall"]) == Refs([], ["functionResponse"]) == []
  {
    assert (parts + [last])[..|parts|] == parts;
    hide Get, Has;
  }

  lemma PairedSnoc(groups: seq<Turn>, t: Turn)
    requires Paired(groups)
    ensures Paired(groups + [t]) <==>
            if |groups| % 2 == 0 then CallGroup(t) else ResponseGroup(t, groups[|groups| - 1].calls)
  {
    var all := groups + [t];
    assert all[|groups|] == t;
    assert forall i :: 0 <= i < |groups| ==> all[i] == groups[i];
    assert forall i :: 0 <= i < |groups| ==> GroupOk(groups, i) && GroupOk(all, i);
    assert Paired(all) ==> GroupOk(all, |groups|);
  }

  lemma GroupsSnoc(contents: seq<Json>, i: nat)
    requires i < |contents|
    ensures Groups(contents[..i + 1]) == Groups(contents[..i]) + if TurnOf(contents[i]) == Turn([], []) then [] else [TurnOf(contents[i])]
  {
    assert contents[..i + 1][..i] == contents[..i];
  }

  /** A history that fails the check fails it with anything appended. */
  lemma Rejected(contents: seq<Json>, n: nat)
    requires n <= |contents| && !Accepted(contents[..n])
    ensures !Accepted(contents)
  {
    if Accepted(contents) { PrefixAccepted(contents, n); }
  }

  // ---------------------------------------------------------------- the program

  /** Collects the calls and responses of one content; fails on a call without a name. */
  method CollectTurn(parts: seq<Json>) returns (named: bool, calls: seq<Ref>, responses: seq<Ref>)
    ensures named <==> AllNamed(Refs(parts, CALL))
    ensures named ==> calls == Refs(parts, CALL) && responses == Refs(parts, RESPONSE)
  {
    calls, responses, named := [], [], true;
    for j := 0 to |parts|
      invariant named && calls == Refs(parts[..j], CALL) && responses == Refs(parts[..j], RESPONSE) && AllNamed(calls)
    {
      assert parts[..j + 1][..j] == parts[..j] && parts[..j + 1][j] == parts[j];
      var part := parts[j];
      if Has(part, CALL) {
        if Text(part, CALL + ["name"]) == "" {
          RefsKeep(parts, CALL, j);
          return false, calls, responses;
        }
        calls := calls + [RefAt(part, CALL)];
      }
      if Has(part, RESPONSE) {
        responses := responses + [RefAt(part, RESPONSE)];
      }
    }
    assert parts[..|parts|] == parts;
  }

  lemma {:induction false} RefsKeep(parts: seq<Json>, path: Path, j: nat)
    requires j < |parts| && Has(parts[j], path)
    ensures RefAt(parts[j], path) in Refs(parts, path)
  {
    var n := |parts| - 1;
    if j < n {
      RefsKeep(parts[..n], path, j);
    }
  }

  /** The calls still to be answered. */
  function PendingOf(groups: seq<Turn>): seq<Ref> {
    if |groups| % 2 == 1 then groups[|groups| - 1].calls else []
  }

  predicate StepOk(t: Turn, pending: seq<Ref>) {
    t == Turn([], []) || (pending == [] && CallGroup(t)) || (pending != [] && ResponseGroup(t, pending))
  }

  function After(t: Turn, pending: seq<Ref>): seq<Ref> {
    if t == Turn([], []) then pending else t.calls
  }

  /** One content at a time: what is pending decides whether the next content is accepted. */
  lemma AcceptedStep(contents: seq<Json>, i: nat)
    requires i < |contents| && Accepted(contents[..i])
    ensures var t, pending := TurnOf(contents[i]), PendingOf(Groups(contents[..i]));
            && AllNamed(pending)
            && (Accepted(contents[..i + 1]) <==> StepOk(t, pending))
            && (StepOk(t, pending) ==> PendingOf(Groups(contents[..i + 1])) == After(t, pending))
  {
    GroupsSnoc(contents, i);
    AcceptedNext(contents[..i], contents[i]);
    StepGroups(Groups(contents[..i]), TurnOf(contents[i]));
    assert contents[..i] + [contents[i]] == contents[..i + 1];
    hide TurnOf, Groups, Paired, StepOk, CallGroup, ResponseGroup, AllNamed, PendingOf, After;
  }

  lemma StepGroups(groups: seq<Turn>, t: Turn)
    requires Paired(groups)
    ensures var pending := PendingOf(groups);
            && AllNamed(pending)
            && (StepOk(t, pending) <==>
                  || t == Turn([], [])
                  || (|groups| % 2 == 0 && CallGroup(t))
                  || (|groups| % 2 == 1 && ResponseGroup(t, groups[|groups| - 1].calls)))
            && (StepOk(t, pending) ==> PendingOf(groups + if t == Turn([], []) then [] else [t]) == After(t, pending))
  {
    PendingShape(groups);
    if |groups| % 2 == 1 {
      assert GroupOk(groups, |groups| - 1);
    } else {
      NoneAreNamed();
    }
    hide AllNamed, Paired;
    if t == Turn([], []) { assert groups + [] == groups; }
  }

  /** What is pending then: the calls of the content if it has any, nothing behind responses, and otherwise what
      was pending before. */
  lemma PendingNext(contents: seq<Json>, content: Json)
    requires Accepted(contents) && Accepted(contents + [content])
    ensures var t := TurnOf(content);
            PendingOf(Groups(contents + [content])) ==
              if t.calls != [] then t.calls else if t.responses != [] then [] else PendingOf(Groups(contents))
  {
    var all := contents + [content];
    assert all[..|contents|] == contents && all[|contents|] == content && all[..|contents| + 1] == all;
    AcceptedStep(all, |contents|);
    hide TurnOf, Groups, Accepted, CallGroup, ResponseGroup;
  }

  lemma NoneAreNamed()
    ensures AllNamed([])
  {
  }

  method ValidateGeminiFunctionCallPairing(payload: Json) returns (ok: bool)
    ensures ok == Accepted(ContentsOf(payload, ContentsPath(payload)))
  {
    hide Groups, Paired, StepOk, After, AllNamed;
    var contents := ContentsOf(payload, ContentsPath(payload));
    var pending: seq<Ref> := [];
    AcceptedNone();
    assert contents[..0] == [];
    for i := 0 to |contents|
      invariant Accepted(contents[..i]) && pending == PendingOf(Groups(contents[..i]))
    {
      AcceptedStep(contents, i);
      var step;
      step, pending := PairContent(contents[i], pending);
      if !step {
        Rejected(contents, i + 1);
        return false;
      }
    }
    assert contents[..|contents|] == contents;
    return true;
  }

  lemma AcceptedNone()
    ensures Accepted([]) && PendingOf(Groups([])) == []
  {
  }

  /** One content: accepted or not, and the calls pending afterwards. */
  method PairContent(content: Json, pending: seq<Ref>) returns (ok: bool, after: seq<Ref>)
    requires AllNamed(pending)
    ensures ok <==> StepOk(TurnOf(content), pending)
    ensures ok ==> after == After(TurnOf(content), pending)
  {
    after := pending;
    if !IsArr(Get(content, PARTS)) {
      return true, pending;
    }
    var named, calls, responses := CollectTurn(Get(content, PARTS).value.items);
    if !named || (|calls| > 0 && |responses| > 0) {
      return false, pending;
    }
    if |calls| > 0 {
      return |pending| == 0, calls;
    }
    if |responses| == 0 {
      return true, pending;
    }
    if |pending| == 0 || |responses| != |pending| {
      return false, pending;
    }
    for j := 0 to |responses|
      invariant forall k :: 0 <= k < j ==> Answers(pending[k], responses[k])
    {
      var call, response := pending[j], responses[j];
      if (call.id != "" && response.id == "") || (call.id != "" && response.id != call.id)
         || response.name == "" || (call.name != "" && response.name != call.name) {
        return false, pending;
      }
    }
    return true, [];
  }
}
