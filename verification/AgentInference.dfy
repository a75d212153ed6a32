/** What the provider is shown, and how its streamed answer is gathered
    (inference.rs). */
module AgentInference {
  import opened Common
  import opened Text
  import opened Messages
  import opened StreamMerge
  import opened AgentTurn

  // ---- The inference operation ----

  predicate ForAgent(b: Block) {
    b.Text? && b.annotations.audience.Some? ==> Assistant in b.annotations.audience.value
  }

  predicate Shown(b: Block, current: bool, answered: set<string>) {
    ForAgent(b) && (b.ToolRequest? ==> current || b.id in answered)
  }

  /** What the provider sees of message `i`: nothing hidden from the agent, and no
      request of an earlier turn that was never answered. */
  function ProviderView(conv: seq<Message>, start: nat, i: nat): seq<Block>
    requires i < |conv|
  {
    var answered := AnswersOf(conv);
    if !conv[i].meta.agentVisible then []
    else Filter(conv[i].content, b => Shown(b, start <= i, answered))
  }

  function LastSeen(conv: seq<Message>, start: nat, n: nat): Option<Message>
    requires n <= |conv|
  {
    if n == 0 then None
    else
      var v := ProviderView(conv, start, n - 1);
      if v != [] then Some(conv[n - 1].(content := v)) else LastSeen(conv, start, n - 1)
  }

  predicate HasError(m: Message) { exists i :: 0 <= i < |m.content| && m.content[i].ErrorBlock? }

  /** `applies`: there is a turn, it does not end in an error, and the last thing
      the provider would see is not its own. */
  predicate Applies(conv: seq<Message>) {
    && Kickoff(conv).Some?
    && !HasError(conv[|conv| - 1])
    && var last := LastSeen(conv, Kickoff(conv).value, |conv|);
       last.Some? && EffectiveRoleOf(last.value) != AssistantRole
  }

  datatype Kept = Kept(content: seq<Block>, ids: set<string>)

  /** Requests repeated within one answer are dropped. */
  function RetainNew(bs: seq<Block>, ids: set<string>): Kept {
    if bs == [] then Kept([], ids)
    else
      var k := RetainNew(bs[..|bs| - 1], ids);
      var b := bs[|bs| - 1];
      if !b.ToolRequest? then Kept(k.content + [b], k.ids)
      else if b.id in k.ids then k
      else Kept(k.content + [b], k.ids + {b.id})
  }

  predicate IsThinking(b: Block) { b.Thinking? || b.RedactedThinking? }

  predicate ThoughtBefore(acc: seq<Message>, role: Role, b: Block) {
    exists i :: 0 <= i < |acc| && acc[i].role == role && b in acc[i].content
  }

  /** A tool-call chunk does not repeat thinking already gathered. */
  function DropRepeats(acc: seq<Message>, m: Message): Message {
    if exists i :: 0 <= i < |m.content| && m.content[i].ToolRequest?
    then m.(content := Filter(m.content, b => !(IsThinking(b) && ThoughtBefore(acc, m.role, b))))
    else m
  }

  datatype Acc = Acc(messages: seq<Message>, ids: set<string>)

  function Gather(chunks: seq<Message>, inference: nat): Acc {
    if chunks == [] then Acc([], {})
    else
      var a := Gather(chunks[..|chunks| - 1], inference);
      var chunk := chunks[|chunks| - 1];
      var k := RetainNew(chunk.content, a.ids);
      var meta := if chunk.role == Assistant && chunk.meta.inference.None?
                  then chunk.meta.(inference := Some(inference)) else chunk.meta;
      var m := DropRepeats(a.messages, chunk.(content := k.content, meta := meta));
      Acc(Pushed(a.messages, m), k.ids)
  }

  predicate IsEmptyResponse(m: Message) {
    forall i :: 0 <= i < |m.content| ==>
      match m.content[i]
      case Text(t, _) => IsBlank(t)
      case Thinking(t, s) => IsBlank(t) && s == ""
      case _ => false
  }

  const EMPTY_RESPONSE := Message(None, Assistant,
    [Text("The model returned an empty response. Please resend your message to continue.", Annotations(None, 0))],
    DEFAULT_METADATA)

  // ---- One request per id in an answer ----

  lemma {:induction false} RequestsConcat(a: seq<Block>, b: seq<Block>)
    ensures Requests(a + b) == Requests(a) + Requests(b)
  {
    if b == [] {
      assert a + b == a;
    } else {
      assert (a + b)[..|a + b| - 1] == a + b[..|b| - 1];
      RequestsConcat(a, b[..|b| - 1]);
    }
  }

  lemma OneRequest(b: Block)
    ensures Requests([b]) == if b.ToolRequest? then [b] else []
  {
    assert [b][..0] == [];
  }

  lemma AddDeltaRequests(bs: seq<Block>, b: Block)
    ensures Requests(AddDelta(bs, b)) == Requests(bs) + Requests([b])
  {
    hide Requests;
    if bs != [] && Continues(bs[|bs| - 1], b) {
      var init, l := bs[..|bs| - 1], bs[|bs| - 1];
      assert bs == init + [l];
      RequestsConcat(init, [l]);
      RequestsConcat(init, [Fused(l, b)]);
      OneRequest(l);
      OneRequest(b);
      OneRequest(Fused(l, b));
    } else {
      RequestsConcat(bs, [b]);
    }
  }

  lemma {:induction false} SameContentSameRequests(a: seq<Message>, b: seq<Message>)
    requires |a| == |b| && forall i :: 0 <= i < |a| ==> a[i].content == b[i].content
    ensures RequestsOf(a) == RequestsOf(b)
  {
    if a != [] {
      var n := |a| - 1;
      assert forall i :: 0 <= i < n ==> a[..n][i].content == b[..n][i].content;
      SameContentSameRequests(a[..n], b[..n]);
    }
  }

  lemma NoRequests()
    ensures Requests([]) == []
  {}

  /** Pushing a chunk adds its requests and disturbs no earlier one. */
  lemma PushedRequests(ms: seq<Message>, m: Message)
    ensures RequestsOf(Pushed(ms, m)) == RequestsOf(ms) + Requests(m.content)
  {
    hide Requests, RequestsOf, AddDelta;
    NoRequests();
    if IsNote(m) {
      match LastFit(ms, m)
      case Some(i) => SameContentSameRequests(ms, Pushed(ms, m));
      case None =>
        var v := m.(meta := m.meta.(userVisible := true, agentVisible := false));
        OneMessageViews(v);
        ConcatViews(ms, [v]);
    } else if ms != [] && ms[|ms| - 1].id.Some? && ms[|ms| - 1].id == m.id {
      var init, l := ms[..|ms| - 1], ms[|ms| - 1];
      var l' := l.(content := ExtendContent(l.content, m.content), meta := NoteMeta(l.meta, m));
      assert ms == init + [l];
      ConcatViews(init, [l]);
      ConcatViews(init, [l']);
      OneMessageViews(l);
      OneMessageViews(l');
      if |m.content| == 1 {
        AddDeltaRequests(l.content, m.content[0]);
        assert m.content == [m.content[0]];
      } else {
        RequestsConcat(l.content, m.content);
      }
    } else {
      OneMessageViews(m);
      ConcatViews(ms, [m]);
    }
  }

  lemma {:induction false} FilterKeepsRequests(bs: seq<Block>, p: Block -> bool)
    requires forall b :: b in bs && b.ToolRequest? ==> p(b)
    ensures Requests(Filter(bs, p)) == Requests(bs)
  {
    hide Requests;
    if bs == [] {
      assert Filter(bs, p) == bs;
    } else {
      var n := |bs| - 1;
      var f := Filter(bs[..n], p);
      FilterKeepsRequests(bs[..n], p);
      RequestsConcat(f, [bs[n]]);
      RequestsConcat(bs[..n], [bs[n]]);
      assert bs == bs[..n] + [bs[n]] && f + [] == f;
      OneRequest(bs[n]);
      assert bs[n] in bs;
    }
  }

  lemma DropRepeatsKeepsRequests(acc: seq<Message>, m: Message)
    ensures Requests(DropRepeats(acc, m).content) == Requests(m.content)
  {
    hide ThoughtBefore;
    FilterKeepsRequests(m.content, b => !(IsThinking(b) && ThoughtBefore(acc, m.role, b)));
  }

  /** `rs` asks for each of `ids` exactly once and for nothing else. */
  ghost predicate AsksOnce(rs: seq<Block>, ids: set<string>) {
    && (forall i :: 0 <= i < |rs| ==> rs[i].ToolRequest? && rs[i].id in ids)
    && (forall i, j :: 0 <= i < j < |rs| ==> rs[i].ToolRequest? && rs[j].ToolRequest? && rs[i].id != rs[j].id)
    && (forall id :: id in ids ==> exists i :: 0 <= i < |rs| && rs[i].ToolRequest? && rs[i].id == id)
  }

  lemma AsksOneMore(rs: seq<Block>, ids: set<string>, b: Block)
    requires AsksOnce(rs, ids) && b.ToolRequest? && b.id !in ids
    ensures AsksOnce(rs + [b], ids + {b.id})
  {
    var r := rs + [b];
    forall id | id in ids + {b.id} ensures exists i :: 0 <= i < |r| && r[i].ToolRequest? && r[i].id == id {
      if id == b.id {
        assert r[|rs|].id == id;
      } else {
        var i :| 0 <= i < |rs| && rs[i].ToolRequest? && rs[i].id == id;
        assert r[i].id == id;
      }
    }
  }

  lemma {:induction false} RetainNewAsksOnce(prior: seq<Block>, bs: seq<Block>, ids: set<string>)
    requires AsksOnce(prior, ids)
    ensures var k := RetainNew(bs, ids); AsksOnce(prior + Requests(k.content), k.ids)
  {
    hide AsksOnce, Requests;
    if bs == [] {
      NoRequests();
      assert prior + [] == prior;
    } else {
      var n := |bs| - 1;
      var b := bs[n];
      var k := RetainNew(bs[..n], ids);
      RetainNewAsksOnce(prior, bs[..n], ids);
      RequestsConcat(k.content, [b]);
      OneRequest(b);
      if b.ToolRequest? && b.id !in k.ids {
        AsksOneMore(prior + Requests(k.content), k.ids, b);
        assert (prior + Requests(k.content)) + [b] == prior + (Requests(k.content) + [b]);
      } else {
        assert Requests(k.content) + [] == Requests(k.content);
      }
    }
  }

  lemma AsksNothing()
    ensures AsksOnce(RequestsOf([]), {})
  {}

  /** However the provider repeats itself, one answer never carries two requests
      with one id. */
  lemma {:induction false} GatheredRequestsDistinct(chunks: seq<Message>, inference: nat)
    ensures var a := Gather(chunks, inference); AsksOnce(RequestsOf(a.messages), a.ids)
  {
    hide AsksOnce, Requests, RequestsOf, Pushed, DropRepeats, RetainNew;
    if chunks == [] {
      AsksNothing();
    } else {
      var n := |chunks| - 1;
      GatheredRequestsDistinct(chunks[..n], inference);
      var a := Gather(chunks[..n], inference);
      var chunk := chunks[n];
      var k := RetainNew(chunk.content, a.ids);
      var meta := if chunk.role == Assistant && chunk.meta.inference.None?
                  then chunk.meta.(inference := Some(inference)) else chunk.meta;
      var c := chunk.(content := k.content, meta := meta);
      RetainNewAsksOnce(RequestsOf(a.messages), chunk.content, a.ids);
      DropRepeatsKeepsRequests(a.messages, c);
      PushedRequests(a.messages, DropRepeats(a.messages, c));
    }
  }
}
