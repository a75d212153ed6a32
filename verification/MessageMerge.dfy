/** Merging: adjacent texts inside a message, and consecutive messages of one
    effective role (conversation.rs). */
module MessageMerge {
  import opened Common
  import opened Messages

  // ---- Adjacent texts ----

  predicate SameAudience(a: Block, b: Block) {
    a.Text? && b.Text? && a.annotations.audience == b.annotations.audience
  }

  function AddBlock(acc: seq<Block>, b: Block): seq<Block> {
    if acc != [] && SameAudience(acc[|acc| - 1], b)
    then acc[..|acc| - 1] + [acc[|acc| - 1].(text := acc[|acc| - 1].text + b.text)]
    else acc + [b]
  }

  /** The fold of `merge_text_content_in_message`. */
  function MergeTexts(bs: seq<Block>): seq<Block> {
    if bs == [] then [] else AddBlock(MergeTexts(bs[..|bs| - 1]), bs[|bs| - 1])
  }

  predicate TextsApart(bs: seq<Block>) {
    forall i :: 0 <= i < |bs| - 1 ==> !SameAudience(bs[i], bs[i + 1])
  }

  lemma TextsApartSnoc(bs: seq<Block>, b: Block)
    ensures TextsApart(bs + [b]) <==> TextsApart(bs) && (bs == [] || !SameAudience(bs[|bs| - 1], b))
  {
    hide SameAudience;
    var r := bs + [b];
    if TextsApart(r) {
      forall i | 0 <= i < |bs| - 1 ensures !SameAudience(bs[i], bs[i + 1]) {
        assert r[i] == bs[i] && r[i + 1] == bs[i + 1];
      }
      if bs != [] { assert !SameAudience(r[|bs| - 1], r[|bs| - 1 + 1]); }
    }
  }

  lemma AddBlockStaysApart(acc: seq<Block>, b: Block)
    requires TextsApart(acc)
    ensures TextsApart(AddBlock(acc, b))
  {
    TextsApartSnoc(acc, b);
    if acc != [] && SameAudience(acc[|acc| - 1], b) {
      var init, l := acc[..|acc| - 1], acc[|acc| - 1];
      assert acc == init + [l];
      TextsApartSnoc(init, l);
      TextsApartSnoc(init, l.(text := l.text + b.text));
    }
  }

  /** Merging leaves no two texts for one audience side by side, never grows the
      list, and changes nothing exactly when there was nothing to merge. */
  lemma {:induction false} MergeTextsExact(bs: seq<Block>)
    ensures TextsApart(MergeTexts(bs)) && |MergeTexts(bs)| <= |bs|
    ensures |MergeTexts(bs)| == |bs| <==> TextsApart(bs)
    ensures TextsApart(bs) ==> MergeTexts(bs) == bs
    ensures bs != [] ==> MergeTexts(bs) != []
  {
    hide TextsApart, SameAudience, AddBlock;
    if bs == [] {
      NothingApart();
    } else {
      var n := |bs| - 1;
      var a, b := MergeTexts(bs[..n]), bs[n];
      MergeTextsExact(bs[..n]);
      assert bs == bs[..n] + [b];
      TextsApartSnoc(bs[..n], b);
      AddBlockStaysApart(a, b);
      AddBlockLength(a, b);
    }
  }

  lemma AddBlockLength(acc: seq<Block>, b: Block)
    ensures var fuses := acc != [] && SameAudience(acc[|acc| - 1], b);
            && |AddBlock(acc, b)| == (if fuses then |acc| else |acc| + 1)
            && (!fuses ==> AddBlock(acc, b) == acc + [b])
  {
    hide SameAudience;
  }

  lemma NothingApart()
    ensures TextsApart([])
  {}

  /** The text for one audience, in order. */
  function TextFor(bs: seq<Block>, audience: Option<seq<Role>>): string {
    if bs == [] then ""
    else
      var b := bs[|bs| - 1];
      TextFor(bs[..|bs| - 1], audience) + if b.Text? && b.annotations.audience == audience then b.text else ""
  }

  lemma TextForSnoc(bs: seq<Block>, b: Block, audience: Option<seq<Role>>)
    ensures TextFor(bs + [b], audience)
         == TextFor(bs, audience) + if b.Text? && b.annotations.audience == audience then b.text else ""
  {
    assert (bs + [b])[..|bs|] == bs;
  }

  /** Merging loses and reorders no text of any audience. */
  lemma {:induction false} MergeTextsConservesText(bs: seq<Block>, audience: Option<seq<Role>>)
    ensures TextFor(MergeTexts(bs), audience) == TextFor(bs, audience)
  {
    hide AddBlock;
    if bs != [] {
      var n := |bs| - 1;
      MergeTextsConservesText(bs[..n], audience);
      AddBlockConservesText(MergeTexts(bs[..n]), bs[n], audience);
    }
  }

  lemma AddBlockConservesText(acc: seq<Block>, b: Block, audience: Option<seq<Role>>)
    ensures TextFor(AddBlock(acc, b), audience)
         == TextFor(acc, audience) + if b.Text? && b.annotations.audience == audience then b.text else ""
  {
    hide TextFor;
    if acc != [] && SameAudience(acc[|acc| - 1], b) {
      var init, l := acc[..|acc| - 1], acc[|acc| - 1];
      assert acc == init + [l];
      TextForSnoc(init, l, audience);
      TextForSnoc(init, l.(text := l.text + b.text), audience);
      if l.annotations.audience == audience {
        assert (TextFor(init, audience) + l.text) + b.text == TextFor(init, audience) + (l.text + b.text);
      } else {
        assert (TextFor(init, audience) + "") + "" == TextFor(init, audience) + "";
      }
    } else {
      TextForSnoc(acc, b, audience);
    }
  }

  function JoinTexts(bs: seq<Block>): string {
    if bs == [] then "" else JoinTexts(bs[..|bs| - 1]) + if bs[|bs| - 1].Text? then bs[|bs| - 1].text else ""
  }

  /** `b` is made of `run`: its first block, with the text of all of them if it is text. */
  predicate FusedFrom(b: Block, run: seq<Block>) {
    && run != []
    && (|run| == 1 ==> b == run[0])
    && (|run| > 1 ==> run[0].Text? && b == run[0].(text := JoinTexts(run)))
    && forall k :: 0 <= k < |run| && |run| > 1 ==>
         run[k].Text? && run[k].annotations.audience == run[0].annotations.audience
  }

  lemma OneText(b: Block)
    requires b.Text?
    ensures JoinTexts([b]) == b.text
  {
    assert [b][..0] == [];
    assert JoinTexts([]) == "";
  }

  lemma FuseOneMore(b: Block, run: seq<Block>, c: Block)
    requires FusedFrom(b, run) && SameAudience(b, c)
    ensures FusedFrom(b.(text := b.text + c.text), run + [c])
  {
    var r := run + [c];
    assert r[..|run|] == run && r[0] == run[0];
    if |run| == 1 {
      assert run == [run[0]];
      OneText(run[0]);
    }
    forall k | 0 <= k < |r| ensures r[k].Text? && r[k].annotations.audience == r[0].annotations.audience {
      if k < |run| { assert r[k] == run[k]; }
    }
  }

  predicate AllFused(bs: seq<Block>, runs: seq<seq<Block>>) {
    |bs| == |runs| && forall i :: 0 <= i < |bs| ==> FusedFrom(bs[i], runs[i])
  }

  /** Every block of the result is one run of blocks: alone as it was, or texts for
      one audience joined in order under the annotations of the first. */
  lemma {:induction false} MergeTextsRuns(bs: seq<Block>) returns (runs: seq<seq<Block>>)
    ensures Flat(runs) == bs && AllFused(MergeTexts(bs), runs)
  {
    hide FusedFrom, SameAudience, Flat;
    if bs == [] {
      runs := [];
      FlatNothing<Block>();
    } else {
      var n := |bs| - 1;
      var init, b := bs[..n], bs[n];
      assert bs == init + [b];
      runs := MergeTextsRuns(init);
      var acc, k := MergeTexts(init), |runs| - 1;
      if acc != [] && SameAudience(acc[k], b) {
        FlatGrows(runs, b);
        FuseOneMore(acc[k], runs[k], b);
        runs := runs[..k] + [runs[k] + [b]];
      } else {
        FlatSnoc(runs, [b]);
        OneFused(b);
        runs := runs + [[b]];
      }
    }
  }

  lemma OneFused(b: Block)
    ensures FusedFrom(b, [b])
  {}

  /** Two texts are joined exactly if they are for the same audience. */
  lemma MergeTextsPair(a: Block, b: Block)
    ensures MergeTexts([a, b]) ==
            if a.Text? && b.Text? && a.annotations.audience == b.annotations.audience
            then [Text(a.text + b.text, a.annotations)] else [a, b]
  {
    assert [a, b][..1] == [a] && [a][..0] == [];
    assert MergeTexts([]) == [];
    assert MergeTexts([a]) == [a];
  }

  // ---- Consecutive messages ----

  predicate Mergeable(a: Message, b: Message, across: bool) {
    && EffectiveRoleOf(a) == EffectiveRoleOf(b)
    && (across || (a.meta.userVisible == b.meta.userVisible && a.meta.turnContext == b.meta.turnContext))
  }

  function Absorb(a: Message, b: Message): Message { a.(content := a.content + b.content) }

  function AddMessage(acc: seq<Message>, m: Message, across: bool): seq<Message> {
    if acc != [] && Mergeable(acc[|acc| - 1], m, across)
    then acc[..|acc| - 1] + [Absorb(acc[|acc| - 1], m)]
    else acc + [m]
  }

  /** `merge_consecutive`: `across` ignores visibility and turn context. */
  function Merge(ms: seq<Message>, across: bool): seq<Message> {
    if ms == [] then [] else AddMessage(Merge(ms[..|ms| - 1], across), ms[|ms| - 1], across)
  }

  function RoleLabel(r: EffectiveRole): string {
    match r
    case UserRole => "user"
    case AssistantRole => "assistant"
    case ToolRole => "tool"
  }

  function MergeIssue(m: Message): string {
    "Merged consecutive " + RoleLabel(EffectiveRoleOf(m)) + " messages"
  }

  function MergeIssues(ms: seq<Message>, across: bool): seq<string> {
    if ms == [] then []
    else
      var acc := Merge(ms[..|ms| - 1], across);
      MergeIssues(ms[..|ms| - 1], across)
      + if acc != [] && Mergeable(acc[|acc| - 1], ms[|ms| - 1], across) then [MergeIssue(ms[|ms| - 1])] else []
  }

  lemma MergeStep(ms: seq<Message>, i: nat, across: bool)
    requires i < |ms|
    ensures var acc := Merge(ms[..i], across);
            && Merge(ms[..i + 1], across) == AddMessage(acc, ms[i], across)
            && MergeIssues(ms[..i + 1], across) == MergeIssues(ms[..i], across)
               + if acc != [] && Mergeable(acc[|acc| - 1], ms[i], across) then [MergeIssue(ms[i])] else []
  {
    hide AddMessage, Mergeable, MergeIssue;
    assert ms[..i + 1][..i] == ms[..i];
  }

  lemma NothingMerged(ms: seq<Message>, across: bool)
    ensures Merge(ms[..0], across) == [] && MergeIssues(ms[..0], across) == []
  {}

  method MergeConsecutive(messages: seq<Message>, across: bool) returns (merged: seq<Message>, issues: seq<string>)
    ensures merged == Merge(messages, across) && issues == MergeIssues(messages, across)
  {
    hide EffectiveRoleOf, Merge, MergeIssues, MergeIssue;
    merged, issues := [], [];
    var i := 0;
    NothingMerged(messages, across);
    while i < |messages|
      invariant 0 <= i <= |messages|
      invariant merged == Merge(messages[..i], across) && issues == MergeIssues(messages[..i], across)
    {
      var message := messages[i];
      MergeStep(messages, i, across);
      i := i + 1;
      if merged != [] {
        var last := merged[|merged| - 1];
        if EffectiveRoleOf(last) == EffectiveRoleOf(message)
           && (across || (last.meta.userVisible == message.meta.userVisible
                          && last.meta.turnContext == message.meta.turnContext)) {
          merged := merged[..|merged| - 1] + [last.(content := last.content + message.content)];
          issues := issues + [MergeIssue(message)];
          continue;
        }
      }
      merged := merged + [message];
    }
    assert messages[..i] == messages;
  }

  lemma AbsorbKeepsRole(a: Message, b: Message)
    requires EffectiveRoleOf(a) == EffectiveRoleOf(b)
    ensures EffectiveRoleOf(Absorb(a, b)) == EffectiveRoleOf(a)
  {
    var c := a.content + b.content;
    if HasToolResponse(a.content) {
      var i :| 0 <= i < |a.content| && a.content[i].ToolResponse?;
      assert c[i].ToolResponse?;
    } else if HasToolResponse(c) {
      var i :| 0 <= i < |c| && c[i].ToolResponse?;
      assert i >= |a.content|;
      assert b.content[i - |a.content|].ToolResponse?;
    }
  }

  predicate Apart(ms: seq<Message>, across: bool) {
    forall i :: 0 <= i < |ms| - 1 ==> !Mergeable(ms[i], ms[i + 1], across)
  }

  lemma ApartSnoc(ms: seq<Message>, m: Message, across: bool)
    ensures Apart(ms + [m], across) <==> Apart(ms, across) && (ms == [] || !Mergeable(ms[|ms| - 1], m, across))
  {
    hide Mergeable;
    var r := ms + [m];
    if Apart(r, across) {
      forall i | 0 <= i < |ms| - 1 ensures !Mergeable(ms[i], ms[i + 1], across) {
        assert r[i] == ms[i] && r[i + 1] == ms[i + 1];
      }
      if ms != [] { assert !Mergeable(r[|ms| - 1], r[|ms| - 1 + 1], across); }
    }
  }

  lemma AddMessageStaysApart(acc: seq<Message>, m: Message, across: bool)
    requires Apart(acc, across)
    ensures Apart(AddMessage(acc, m, across), across)
  {
    hide Apart, EffectiveRoleOf;
    ApartSnoc(acc, m, across);
    if acc != [] && Mergeable(acc[|acc| - 1], m, across) {
      var init, l := acc[..|acc| - 1], acc[|acc| - 1];
      assert acc == init + [l];
      AbsorbKeepsRole(l, m);
      ApartSnoc(init, l, across);
      ApartSnoc(init, Absorb(l, m), across);
    }
  }

  lemma NoMessagesApart(across: bool)
    ensures Apart([], across)
  {}

  /** No two neighbours of the result can be merged. */
  lemma {:induction false} MergeLeavesApart(ms: seq<Message>, across: bool)
    ensures Apart(Merge(ms, across), across)
  {
    hide Apart, AddMessage;
    if ms == [] {
      NoMessagesApart(across);
    } else {
      MergeLeavesApart(ms[..|ms| - 1], across);
      AddMessageStaysApart(Merge(ms[..|ms| - 1], across), ms[|ms| - 1], across);
    }
  }

  /** Merging changes nothing, and reports nothing, exactly when nothing can be
      merged; it never grows the list or empties it. */
  lemma {:induction false} MergeExact(ms: seq<Message>, across: bool)
    ensures |MergeIssues(ms, across)| == |ms| - |Merge(ms, across)|
    ensures |Merge(ms, across)| == |ms| <==> Apart(ms, across)
    ensures Apart(ms, across) ==> Merge(ms, across) == ms
    ensures ms != [] ==> Merge(ms, across) != []
  {
    hide Apart, Mergeable, MergeIssue, AddMessage;
    if ms == [] {
      NoMessagesApart(across);
    } else {
      var n := |ms| - 1;
      MergeExact(ms[..n], across);
      assert ms == ms[..n] + [ms[n]];
      ApartSnoc(ms[..n], ms[n], across);
      AddMessageLength(Merge(ms[..n], across), ms[n], across);
    }
  }

  lemma AddMessageLength(acc: seq<Message>, m: Message, across: bool)
    ensures var fuses := acc != [] && Mergeable(acc[|acc| - 1], m, across);
            && |AddMessage(acc, m, across)| == (if fuses then |acc| else |acc| + 1)
            && (!fuses ==> AddMessage(acc, m, across) == acc + [m])
  {
    hide Mergeable;
  }

  /** Both merges are idempotent. */
  lemma MergeIdempotent(ms: seq<Message>, across: bool)
    ensures Merge(Merge(ms, across), across) == Merge(ms, across)
  {
    MergeLeavesApart(ms, across);
    MergeExact(Merge(ms, across), across);
  }

  /** Merging moves blocks between messages of one role and touches none of them. */
  lemma {:induction false} MergeKeepsItems(ms: seq<Message>, across: bool)
    ensures Items(Merge(ms, across)) == Items(ms)
  {
    hide AddMessage;
    if ms != [] {
      var n := |ms| - 1;
      MergeKeepsItems(ms[..n], across);
      AddMessageKeepsItems(Merge(ms[..n], across), ms[n], across);
    }
  }

  lemma AddMessageKeepsItems(acc: seq<Message>, m: Message, across: bool)
    ensures Items(AddMessage(acc, m, across)) == Items(acc) + ItemsOf(m.role, m.content)
  {
    hide Items;
    if acc != [] && Mergeable(acc[|acc| - 1], m, across) {
      var init, l := acc[..|acc| - 1], acc[|acc| - 1];
      assert acc == init + [l] && l.role == m.role;
      ItemsSnoc(init, l);
      ItemsSnoc(init, Absorb(l, m));
      ItemsOfConcat(l.role, l.content, m.content);
      assert (Items(init) + ItemsOf(l.role, l.content)) + ItemsOf(m.role, m.content)
          == Items(init) + (ItemsOf(l.role, l.content) + ItemsOf(m.role, m.content));
    } else {
      ItemsSnoc(acc, m);
    }
  }

  /** Absorbing two messages one after the other, or both at once. */
  lemma AddTwice(acc: seq<Message>, l: Message, m: Message)
    requires EffectiveRoleOf(l) == EffectiveRoleOf(m)
    ensures AddMessage(AddMessage(acc, l, true), m, true) == AddMessage(acc, Absorb(l, m), true)
  {
    hide EffectiveRoleOf;
    AbsorbKeepsRole(l, m);
    if acc != [] && Mergeable(acc[|acc| - 1], l, true) {
      var x := acc[|acc| - 1];
      var init := acc[..|acc| - 1];
      AbsorbKeepsRole(x, l);
      assert AddMessage(acc, l, true) == init + [Absorb(x, l)];
      assert (x.content + l.content) + m.content == x.content + (l.content + m.content);
    } else {
      assert AddMessage(acc, l, true) == acc + [l];
      assert (acc + [l])[..|acc|] == acc;
    }
  }

  lemma MergeSnoc(ms: seq<Message>, m: Message, across: bool)
    ensures Merge(ms + [m], across) == AddMessage(Merge(ms, across), m, across)
  {
    assert (ms + [m])[..|ms|] == ms;
  }

  /** What is persisted can be merged for a request later: the result is the same
      as merging for the request at once. */
  lemma {:induction false} PersistThenRequest(ms: seq<Message>)
    ensures Merge(Merge(ms, false), true) == Merge(ms, true)
  {
    hide EffectiveRoleOf;
    if ms != [] {
      var n := |ms| - 1;
      var f, m := Merge(ms[..n], false), ms[n];
      PersistThenRequest(ms[..n]);
      if f != [] && Mergeable(f[|f| - 1], m, false) {
        var l := f[|f| - 1];
        var init := f[..|f| - 1];
        assert f == init + [l];
        MergeSnoc(init, l, true);
        MergeSnoc(init, Absorb(l, m), true);
        AddTwice(Merge(init, true), l, m);
      } else {
        MergeSnoc(f, m, true);
      }
    }
  }

  // ---- Which messages become one ----

  /** All blocks, in order. */
  function Contents(ms: seq<Message>): seq<Block> {
    if ms == [] then [] else Contents(ms[..|ms| - 1]) + ms[|ms| - 1].content
  }

  lemma ContentsSnoc(ms: seq<Message>, m: Message)
    ensures Contents(ms + [m]) == Contents(ms) + m.content
  {
    assert (ms + [m])[..|ms|] == ms;
  }

  /** `m` is the first message of `run` with the blocks of all of them. */
  predicate Gathers(m: Message, run: seq<Message>) {
    run != [] && m == run[0].(content := Contents(run))
  }

  lemma OneGathered(m: Message)
    ensures Gathers(m, [m])
  {
    assert [m][..0] == [];
    assert Contents([]) == [];
    assert [] + m.content == m.content;
  }

  predicate AllGathered(ms: seq<Message>, runs: seq<seq<Message>>) {
    |ms| == |runs| && forall i :: 0 <= i < |ms| ==> Gathers(ms[i], runs[i])
  }

  /** Every message of the result is one run of messages: it keeps the id, the role
      and the metadata of the first, and all their blocks in order. */
  lemma {:induction false} MergeRuns(ms: seq<Message>, across: bool) returns (runs: seq<seq<Message>>)
    ensures Flat(runs) == ms && AllGathered(Merge(ms, across), runs)
  {
    hide Gathers, Mergeable, Absorb, Flat;
    if ms == [] {
      runs := [];
      FlatNothing<Message>();
    } else {
      var n := |ms| - 1;
      var init, m := ms[..n], ms[n];
      assert ms == init + [m];
      runs := MergeRuns(init, across);
      var acc, k := Merge(init, across), |runs| - 1;
      if acc != [] && Mergeable(acc[k], m, across) {
        FlatGrows(runs, m);
        GatherOneMore(acc[k], runs[k], m);
        runs := runs[..k] + [runs[k] + [m]];
      } else {
        FlatSnoc(runs, [m]);
        OneGathered(m);
        runs := runs + [[m]];
      }
    }
  }

  lemma GatherOneMore(a: Message, run: seq<Message>, m: Message)
    requires Gathers(a, run)
    ensures Gathers(Absorb(a, m), run + [m])
  {
    ContentsSnoc(run, m);
  }

  predicate Carries(m: Message, kind: EffectiveRole) {
    match kind
    case AssistantRole => m.role == Assistant
    case ToolRole => m.role == User && exists b :: b in m.content && b.ToolResponse?
    case UserRole => m.role == User && forall b :: b in m.content ==> !b.ToolResponse?
  }

  lemma EffectiveRoleExact(m: Message, kind: EffectiveRole)
    ensures EffectiveRoleOf(m) == kind <==> Carries(m, kind)
  {
    if HasToolResponse(m.content) {
      var i :| 0 <= i < |m.content| && m.content[i].ToolResponse?;
      assert m.content[i] in m.content;
    } else {
      forall b | b in m.content ensures !b.ToolResponse? {
        var i :| 0 <= i < |m.content| && m.content[i] == b;
      }
    }
  }

  /** Two messages become one exactly if both are the assistant's, or both carry
      tool responses, or both are plain user messages, and, unless merged for a
      request, they agree on user visibility and on being turn context. */
  lemma MergePairExact(a: Message, b: Message, across: bool)
    ensures var alike := (exists kind :: Carries(a, kind) && Carries(b, kind))
                         && (across || (a.meta.userVisible == b.meta.userVisible
                                        && a.meta.turnContext == b.meta.turnContext));
            Merge([a, b], across) == if alike then [a.(content := a.content + b.content)] else [a, b]
  {
    hide Carries, EffectiveRoleOf, Merge;
    MergeTwo(a, b, across);
    SameRoleExact(a, b);
  }

  /** A merge is reported under the role the two messages play. */
  lemma MergePairReports(a: Message, b: Message, across: bool)
    ensures MergeIssues([a, b], across) ==
            if |Merge([a, b], across)| == 2 then []
            else if Carries(b, AssistantRole) then ["Merged consecutive assistant messages"]
            else if Carries(b, ToolRole) then ["Merged consecutive tool messages"]
            else ["Merged consecutive user messages"]
  {
    hide Carries, EffectiveRoleOf, Merge, Mergeable, MergeIssues, MergeIssue;
    MergeTwo(a, b, across);
    MergeStep([a, b], 1, across);
    assert [a, b][..2] == [a, b] && [a, b][..1] == [a];
    MergeOne(a, across);
    EffectiveRoleExact(b, AssistantRole);
    EffectiveRoleExact(b, ToolRole);
    IssueText(b);
  }

  lemma IssueText(m: Message)
    ensures MergeIssue(m) ==
            match EffectiveRoleOf(m)
            case AssistantRole => "Merged consecutive assistant messages"
            case ToolRole => "Merged consecutive tool messages"
            case UserRole => "Merged consecutive user messages"
  {
    hide EffectiveRoleOf;
    assert "Merged consecutive " + "assistant" + " messages" == "Merged consecutive assistant messages";
    assert "Merged consecutive " + "tool" + " messages" == "Merged consecutive tool messages";
    assert "Merged consecutive " + "user" + " messages" == "Merged consecutive user messages";
  }

  lemma MergeOne(a: Message, across: bool)
    ensures Merge([a], across) == [a] && MergeIssues([a], across) == []
  {
    hide Mergeable;
    assert [a][..0] == [];
    assert Merge([], across) == [];
    assert MergeIssues([], across) == [];
  }

  lemma MergeTwo(a: Message, b: Message, across: bool)
    ensures Merge([a, b], across) == AddMessage([a], b, across)
  {
    hide Mergeable;
    assert [a, b][..1] == [a] && [a][..0] == [];
    assert Merge([], across) == [];
    assert Merge([a], across) == [a];
  }

  lemma SameRoleExact(a: Message, b: Message)
    ensures EffectiveRoleOf(a) == EffectiveRoleOf(b) <==> exists kind :: Carries(a, kind) && Carries(b, kind)
  {
    hide Carries, EffectiveRoleOf;
    forall kind ensures Carries(a, kind) <==> EffectiveRoleOf(a) == kind { EffectiveRoleExact(a, kind); }
    forall kind ensures Carries(b, kind) <==> EffectiveRoleOf(b) == kind { EffectiveRoleExact(b, kind); }
    assert Carries(a, EffectiveRoleOf(a));
  }
}
