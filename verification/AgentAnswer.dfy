/** The provider's side of an inference: what it is shown, what of its answer is kept,
    and which messages each way of ending leaves behind (inference.rs). */
module AgentAnswer {
  import opened Common
  import opened Text
  import opened Messages
  import opened ToolCalling
  import opened MessageMerge
  import opened StreamMerge
  import opened ConversationRepair
  import opened ConversationShape
  import opened RepairFixpoint
  import opened AgentTurn
  import opened AgentTools
  import opened AgentInference
  import opened AgentMachine
  import opened AgentResults

  // ---- Gathering, step by step ----

  predicate AskedIn(id: string, bs: seq<Block>) {
    exists k :: 0 <= k < |bs| && bs[k].ToolRequest? && bs[k].id == id
  }

  /** The blocks `bs` that follow `before`, without requests for an id asked for already. */
  function Fresh(before: seq<Block>, bs: seq<Block>): seq<Block> {
    if bs == [] then []
    else
      var n := |bs| - 1;
      Fresh(before, bs[..n]) + if bs[n].ToolRequest? && AskedIn(bs[n].id, before + bs[..n]) then [] else [bs[n]]
  }

  lemma AskedSnoc(id: string, bs: seq<Block>, b: Block)
    ensures AskedIn(id, bs + [b]) <==> AskedIn(id, bs) || (b.ToolRequest? && b.id == id)
  {
    var r := bs + [b];
    if k :| 0 <= k < |bs| && bs[k].ToolRequest? && bs[k].id == id { assert r[k].id == id; }
    if b.ToolRequest? && b.id == id { assert r[|bs|].id == id; }
  }

  /** The request ids of a stream so far. */
  ghost predicate Knows(ids: set<string>, bs: seq<Block>) { forall id :: id in ids <==> AskedIn(id, bs) }

  /** Of a chunk exactly the requests go whose id was asked for before. */
  lemma {:induction false} RetainNewExact(before: seq<Block>, bs: seq<Block>, ids: set<string>)
    requires Knows(ids, before)
    ensures RetainNew(bs, ids).content == Fresh(before, bs) && Knows(RetainNew(bs, ids).ids, before + bs)
  {
    hide AskedIn;
    if bs == [] {
      assert before + bs == before;
    } else {
      var n := |bs| - 1;
      RetainNewExact(before, bs[..n], ids);
      assert before + bs == (before + bs[..n]) + [bs[n]];
      forall id
        ensures AskedIn(id, before + bs) <==> AskedIn(id, before + bs[..n]) || (bs[n].ToolRequest? && bs[n].id == id)
      {
        AskedSnoc(id, before + bs[..n], bs[n]);
      }
    }
  }

  /** `b` is thinking that stands in a message of this role already. */
  predicate Rethought(acc: seq<Message>, role: Role, b: Block) {
    (b.Thinking? || b.RedactedThinking?) && exists i :: 0 <= i < |acc| && acc[i].role == role && b in acc[i].content
  }

  /** Thinking that was gathered already goes from a chunk with a request, and only
      from such a chunk. */
  lemma DropRepeatsExact(acc: seq<Message>, m: Message)
    ensures var asks := exists i :: 0 <= i < |m.content| && m.content[i].ToolRequest?;
            DropRepeats(acc, m) ==
            if asks then m.(content := Filter(m.content, b => !Rethought(acc, m.role, b))) else m
  {
    FilterSame(m.content, b => !(IsThinking(b) && ThoughtBefore(acc, m.role, b)), b => !Rethought(acc, m.role, b));
  }

  /** What reaches the accumulator of chunk `c` after the chunks `before`. */
  function Sent(before: seq<Message>, acc: seq<Message>, c: Message, inference: nat): Message {
    var kept := Fresh(Contents(before), c.content);
    var asks := exists i :: 0 <= i < |kept| && kept[i].ToolRequest?;
    Message(
      c.id,
      c.role,
      if asks then Filter(kept, b => !Rethought(acc, c.role, b)) else kept,
      if c.role == Assistant && c.meta.inference == None then c.meta.(inference := Some(inference)) else c.meta)
  }

  lemma {:induction false} GatherKnows(chunks: seq<Message>, inference: nat)
    ensures Knows(Gather(chunks, inference).ids, Contents(chunks))
  {
    hide Pushed, DropRepeats, RetainNew, AskedIn;
    if chunks == [] {
      NothingAsked();
    } else {
      var n := |chunks| - 1;
      GatherKnows(chunks[..n], inference);
      RetainNewExact(Contents(chunks[..n]), chunks[n].content, Gather(chunks[..n], inference).ids);
    }
  }

  lemma NothingAsked()
    ensures Knows({}, Contents([]))
  {}

  /** One more chunk is pushed as the rules above leave it. */
  lemma GatherStep(chunks: seq<Message>, c: Message, inference: nat)
    ensures var acc := Gather(chunks, inference).messages;
            Gather(chunks + [c], inference).messages == Pushed(acc, Sent(chunks, acc, c, inference))
  {
    hide Pushed, DropRepeats, RetainNew, AskedIn, Rethought, Fresh, Contents;
    var a := Gather(chunks, inference);
    assert (chunks + [c])[..|chunks|] == chunks;
    GatherKnows(chunks, inference);
    RetainNewExact(Contents(chunks), c.content, a.ids);
    var k := RetainNew(c.content, a.ids);
    var meta := if c.role == Assistant && c.meta.inference.None? then c.meta.(inference := Some(inference)) else c.meta;
    DropRepeatsExact(a.messages, c.(content := k.content, meta := meta));
  }

  // ---- What gathering conserves ----

  lemma {:induction false} TextForConcat(a: seq<Block>, b: seq<Block>, audience: Option<seq<Role>>)
    ensures TextFor(a + b, audience) == TextFor(a, audience) + TextFor(b, audience)
  {
    hide TextFor;
    if b == [] {
      assert a + b == a;
      NoText(audience);
    } else {
      var n := |b| - 1;
      assert b == b[..n] + [b[n]] && a + b == (a + b[..n]) + [b[n]];
      TextForConcat(a, b[..n], audience);
      TextForSnoc(a + b[..n], b[n], audience);
      TextForSnoc(b[..n], b[n], audience);
    }
  }

  lemma NoText(audience: Option<seq<Role>>)
    ensures TextFor([], audience) == "" && ThinkingText([]) == ""
  {}

  lemma {:induction false} ThinkingConcat(a: seq<Block>, b: seq<Block>)
    ensures ThinkingText(a + b) == ThinkingText(a) + ThinkingText(b)
  {
    hide ThinkingText;
    if b == [] {
      assert a + b == a;
      NoText(None);
    } else {
      var n := |b| - 1;
      assert b == b[..n] + [b[n]] && a + b == (a + b[..n]) + [b[n]];
      ThinkingConcat(a, b[..n]);
      ThinkingTextSnoc(a + b[..n], b[n]);
      ThinkingTextSnoc(b[..n], b[n]);
    }
  }

  /** Blocks that are never fused. */
  ghost predicate Hard(p: Block -> bool) { forall b: Block :: b.Text? || b.Thinking? ==> !p(b) }

  /** `r` holds what `a` and then `b` hold: text, thinking and all blocks picked by `p`. */
  ghost predicate Holds(r: seq<Block>, a: seq<Block>, b: seq<Block>, audience: Option<seq<Role>>, p: Block -> bool) {
    && TextFor(r, audience) == TextFor(a, audience) + TextFor(b, audience)
    && ThinkingText(r) == ThinkingText(a) + ThinkingText(b)
    && Filter(r, p) == Filter(a, p) + Filter(b, p)
  }

  lemma HoldsConcat(a: seq<Block>, b: seq<Block>, audience: Option<seq<Role>>, p: Block -> bool)
    ensures Holds(a + b, a, b, audience, p)
  {
    TextForConcat(a, b, audience);
    ThinkingConcat(a, b);
    FilterConcat(a, b, p);
  }

  lemma DeltaHolds(a: seq<Block>, b: Block, audience: Option<seq<Role>>, p: Block -> bool)
    requires Hard(p)
    ensures Holds(AddDelta(a, b), a, [b], audience, p)
  {
    hide TextFor, ThinkingText, Filter;
    AddDeltaConserves(a, b, audience);
    HoldsConcat(a, [b], audience, p);
    TextForSnoc(a, b, audience);
    ThinkingTextSnoc(a, b);
    if a != [] && Continues(a[|a| - 1], b) {
      var init, l := a[..|a| - 1], a[|a| - 1];
      assert a == init + [l];
      FilterConcat(init, [l], p);
      FilterConcat(init, [Fused(l, b)], p);
      FilterOne(l, p);
      FilterOne(Fused(l, b), p);
      FilterOne(b, p);
      assert Filter(a, p) + [] == Filter(a, p);
    }
  }

  lemma ExtendHolds(a: seq<Block>, c: seq<Block>, audience: Option<seq<Role>>, p: Block -> bool)
    requires Hard(p)
    ensures Holds(ExtendContent(a, c), a, c, audience, p)
  {
    hide Holds, Hard, AddDelta;
    if |c| == 1 {
      DeltaHolds(a, c[0], audience, p);
      assert c == [c[0]];
    } else {
      HoldsConcat(a, c, audience, p);
    }
  }

  lemma {:induction false} SameContents(a: seq<Message>, b: seq<Message>)
    requires |a| == |b| && forall i :: 0 <= i < |a| ==> a[i].content == b[i].content
    ensures Contents(a) == Contents(b)
  {
    if a != [] {
      var n := |a| - 1;
      assert forall i :: 0 <= i < n ==> a[..n][i].content == b[..n][i].content;
      SameContents(a[..n], b[..n]);
    }
  }

  lemma HoldsBehind(
    x: seq<Block>, r: seq<Block>, a: seq<Block>, b: seq<Block>, audience: Option<seq<Role>>, p: Block -> bool)
    requires Holds(r, a, b, audience, p)
    ensures Holds(x + r, x + a, b, audience, p)
  {
    hide TextFor, ThinkingText, Filter;
    HoldsConcat(x, r, audience, p);
    HoldsConcat(x, a, audience, p);
  }

  /** Whatever is pushed onto whatever, nothing of either is lost or moved. */
  lemma PushHolds(ms: seq<Message>, m: Message, audience: Option<seq<Role>>, p: Block -> bool)
    requires Hard(p)
    ensures Holds(Contents(Pushed(ms, m)), Contents(ms), m.content, audience, p)
  {
    hide Holds, Hard, ExtendContent, Contents, NoteFits;
    var r := Pushed(ms, m);
    if IsNote(m) {
      assert Contents(ms) + [] == Contents(ms);
      HoldsConcat(Contents(ms), [], audience, p);
      if LastFit(ms, m).Some? { SameContents(ms, r); }
      if |r| == |ms| + 1 { ContentsSnoc(ms, r[|ms|]); }
    } else if ms != [] && ms[|ms| - 1].id.Some? && ms[|ms| - 1].id == m.id {
      var init, l := ms[..|ms| - 1], ms[|ms| - 1];
      assert ms == init + [l];
      ContentsSnoc(init, l);
      ContentsSnoc(init, r[|ms| - 1]);
      ExtendHolds(l.content, m.content, audience, p);
      HoldsBehind(Contents(init), r[|ms| - 1].content, l.content, m.content, audience, p);
    } else {
      ContentsSnoc(ms, m);
      HoldsConcat(Contents(ms), m.content, audience, p);
    }
  }

  /** Everything but text, thinking and requests. */
  predicate Solid(b: Block) { !b.Text? && !b.Thinking? && !b.RedactedThinking? && !b.ToolRequest? }

  lemma {:induction false} FilterKeepsText(bs: seq<Block>, p: Block -> bool, audience: Option<seq<Role>>)
    requires forall b: Block :: b.Text? ==> p(b)
    ensures TextFor(Filter(bs, p), audience) == TextFor(bs, audience)
  {
    hide TextFor, Filter;
    if bs == [] {
      FilterNothing(p);
    } else {
      var n := |bs| - 1;
      assert bs == bs[..n] + [bs[n]];
      FilterKeepsText(bs[..n], p, audience);
      FilterConcat(bs[..n], [bs[n]], p);
      FilterOne(bs[n], p);
      TextForSnoc(bs[..n], bs[n], audience);
      TextForSnoc(Filter(bs[..n], p), bs[n], audience);
      assert Filter(bs[..n], p) + [] == Filter(bs[..n], p);
      assert TextFor(bs[..n], audience) + "" == TextFor(bs[..n], audience);
    }
  }

  lemma {:induction false} FreshKeeps(before: seq<Block>, bs: seq<Block>, audience: Option<seq<Role>>)
    ensures TextFor(Fresh(before, bs), audience) == TextFor(bs, audience)
    ensures Filter(Fresh(before, bs), Solid) == Filter(bs, Solid)
  {
    hide TextFor, Filter, AskedIn;
    if bs != [] {
      var n := |bs| - 1;
      var f := Fresh(before, bs[..n]);
      assert bs == bs[..n] + [bs[n]];
      FreshKeeps(before, bs[..n], audience);
      TextForSnoc(bs[..n], bs[n], audience);
      TextForSnoc(f, bs[n], audience);
      FilterConcat(bs[..n], [bs[n]], Solid);
      FilterConcat(f, [bs[n]], Solid);
      FilterOne(bs[n], Solid);
      assert f + [] == f && TextFor(f, audience) + "" == TextFor(f, audience);
      assert Filter(f, Solid) + [] == Filter(f, Solid);
    }
  }

  lemma SentKeeps(before: seq<Message>, acc: seq<Message>, c: Message, inference: nat, audience: Option<seq<Role>>)
    ensures var s := Sent(before, acc, c, inference).content;
            TextFor(s, audience) == TextFor(c.content, audience) && Filter(s, Solid) == Filter(c.content, Solid)
  {
    hide TextFor, Filter, Fresh, Contents;
    var kept := Fresh(Contents(before), c.content);
    var p := b => !Rethought(acc, c.role, b);
    FreshKeeps(Contents(before), c.content, audience);
    FilterKeepsText(kept, p, audience);
    assert forall b :: Solid(b) ==> p(b);
    FilterTwice(kept, Solid, p);
  }

  lemma SolidIsHard()
    ensures Hard(Solid)
  {}

  lemma NothingGathered(audience: Option<seq<Role>>)
    ensures Contents([]) == [] && TextFor([], audience) == "" && Filter([], Solid) == []
  {}

  /** However the answer is streamed, what is gathered has all its text, for every
      audience, and all blocks other than thinking and requests, in order. */
  lemma {:induction false} GatherConserves(chunks: seq<Message>, inference: nat, audience: Option<seq<Role>>)
    ensures var r := Contents(Gather(chunks, inference).messages);
            && TextFor(r, audience) == TextFor(Contents(chunks), audience)
            && Filter(r, Solid) == Filter(Contents(chunks), Solid)
  {
    hide TextFor, Filter, Gather, Pushed, Sent, Contents, Solid, Hard;
    if chunks == [] {
      NothingGathered(audience);
      assert Gather(chunks, inference).messages == [] by { GatherNothing(inference); }
    } else {
      var n := |chunks| - 1;
      var init, c := chunks[..n], chunks[n];
      assert chunks == init + [c];
      var acc := Gather(init, inference).messages;
      var s := Sent(init, acc, c, inference);
      GatherConserves(init, inference, audience);
      GatherStep(init, c, inference);
      SentKeeps(init, acc, c, inference, audience);
      SolidIsHard();
      PushHolds(acc, s, audience, Solid);
      ContentsSnoc(init, c);
      HoldsConcat(Contents(init), c.content, audience, Solid);
    }
  }

  lemma GatherNothing(inference: nat)
    ensures Gather([], inference).messages == []
  {}

  /** The requests of the answer are those of the stream, each id where it is asked for
      first. */
  lemma {:induction false} GatherAsksFirst(chunks: seq<Message>, inference: nat)
    ensures RequestsOf(Gather(chunks, inference).messages) == Requests(Fresh([], Contents(chunks)))
  {
    hide Requests, RequestsOf, Gather, Pushed, Fresh, Contents;
    if chunks == [] {
      GatherNothing(inference);
      NothingAskedFor();
    } else {
      var n := |chunks| - 1;
      var init, c := chunks[..n], chunks[n];
      assert chunks == init + [c];
      var acc := Gather(init, inference).messages;
      GatherAsksFirst(init, inference);
      GatherStep(init, c, inference);
      PushedRequests(acc, Sent(init, acc, c, inference));
      SentAsks(init, acc, c, inference);
      ContentsSnoc(init, c);
      FreshConcat(Contents(init), c.content);
      RequestsConcat(Fresh([], Contents(init)), Fresh(Contents(init), c.content));
    }
  }

  lemma NothingAskedFor()
    ensures RequestsOf([]) == [] && Requests(Fresh([], Contents([]))) == []
  {}

  lemma SentAsks(before: seq<Message>, acc: seq<Message>, c: Message, inference: nat)
    ensures Requests(Sent(before, acc, c, inference).content) == Requests(Fresh(Contents(before), c.content))
  {
    hide Requests, Fresh, Contents;
    FilterKeepsRequests(Fresh(Contents(before), c.content), b => !Rethought(acc, c.role, b));
  }

  lemma {:induction false} FreshConcat(a: seq<Block>, b: seq<Block>)
    ensures Fresh([], a + b) == Fresh([], a) + Fresh(a, b)
  {
    hide AskedIn;
    if b == [] {
      assert a + b == a;
    } else {
      var n := |b| - 1;
      assert (a + b)[..|a + b| - 1] == a + b[..n];
      FreshConcat(a, b[..n]);
      assert [] + (a + b[..n]) == a + b[..n];
    }
  }

  /** A chunk that carries a request and thinking: the one kind that may lose some. */
  predicate AsksAndThinks(c: Message) {
    && (exists i :: 0 <= i < |c.content| && c.content[i].ToolRequest?)
    && (exists i :: 0 <= i < |c.content| && (c.content[i].Thinking? || c.content[i].RedactedThinking?))
  }

  predicate Redacted(b: Block) { b.RedactedThinking? }

  lemma {:induction false} FreshKeepsThinking(before: seq<Block>, bs: seq<Block>)
    ensures ThinkingText(Fresh(before, bs)) == ThinkingText(bs)
    ensures Filter(Fresh(before, bs), Redacted) == Filter(bs, Redacted)
    ensures forall b :: b in Fresh(before, bs) ==> b in bs
  {
    hide ThinkingText, Filter, AskedIn;
    if bs != [] {
      var n := |bs| - 1;
      var f := Fresh(before, bs[..n]);
      assert bs == bs[..n] + [bs[n]];
      FreshKeepsThinking(before, bs[..n]);
      ThinkingTextSnoc(bs[..n], bs[n]);
      ThinkingTextSnoc(f, bs[n]);
      FilterConcat(bs[..n], [bs[n]], Redacted);
      FilterConcat(f, [bs[n]], Redacted);
      FilterOne(bs[n], Redacted);
      assert f + [] == f && ThinkingText(f) + "" == ThinkingText(f);
      assert Filter(f, Redacted) + [] == Filter(f, Redacted);
    }
  }

  lemma {:induction false} FilterAll(bs: seq<Block>, p: Block -> bool)
    requires forall b :: b in bs ==> p(b)
    ensures Filter(bs, p) == bs
  {
    hide Filter;
    if bs == [] {
      FilterNothing(p);
    } else {
      var n := |bs| - 1;
      assert bs == bs[..n] + [bs[n]];
      assert forall b :: b in bs[..n] ==> b in bs;
      FilterAll(bs[..n], p);
      FilterConcat(bs[..n], [bs[n]], p);
      FilterOne(bs[n], p);
    }
  }

  lemma SentKeepsThinking(before: seq<Message>, acc: seq<Message>, c: Message, inference: nat)
    requires !AsksAndThinks(c)
    ensures var s := Sent(before, acc, c, inference).content;
            && ThinkingText(s) == ThinkingText(c.content)
            && Filter(s, Redacted) == Filter(c.content, Redacted)
  {
    hide ThinkingText, Filter, Fresh, Contents, Redacted;
    var kept := Fresh(Contents(before), c.content);
    FreshKeepsThinking(Contents(before), c.content);
    if i :| 0 <= i < |kept| && kept[i].ToolRequest? {
      assert kept[i] in c.content;
      forall b | b in kept ensures !Rethought(acc, c.role, b) {
        assert b in c.content;
      }
      FilterAll(kept, b => !Rethought(acc, c.role, b));
    }
  }

  /** If no chunk carries both a request and thinking, the thinking is all there too. */
  lemma {:induction false} GatherKeepsThinking(chunks: seq<Message>, inference: nat)
    requires forall i :: 0 <= i < |chunks| ==> !AsksAndThinks(chunks[i])
    ensures var r := Contents(Gather(chunks, inference).messages);
            && ThinkingText(r) == ThinkingText(Contents(chunks))
            && Filter(r, Redacted) == Filter(Contents(chunks), Redacted)
  {
    hide ThinkingText, TextFor, Filter, Gather, Pushed, Sent, Contents, Redacted, AsksAndThinks, Hard;
    if chunks == [] {
      GatherNothing(inference);
    } else {
      var n := |chunks| - 1;
      var init, c := chunks[..n], chunks[n];
      assert chunks == init + [c];
      var acc := Gather(init, inference).messages;
      var s := Sent(init, acc, c, inference);
      GatherKeepsThinking(init, inference);
      GatherStep(init, c, inference);
      SentKeepsThinking(init, acc, c, inference);
      RedactedIsHard();
      PushHolds(acc, s, None, Redacted);
      ContentsSnoc(init, c);
      HoldsConcat(Contents(init), c.content, None, Redacted);
    }
  }

  lemma RedactedIsHard()
    ensures Hard(Redacted)
  {}

  // ---- What the provider is shown ----

  /** `messages_for_provider`, of the first `n` messages. */
  function ForProvider(conv: seq<Message>, start: nat, n: nat): (r: seq<Message>)
    requires n <= |conv|
    ensures forall i :: 0 <= i < |r| ==> r[i].meta.agentVisible && r[i].content != []
  {
    if n == 0 then []
    else
      var v := ProviderView(conv, start, n - 1);
      ForProvider(conv, start, n - 1) + if v == [] then [] else [conv[n - 1].(content := v)]
  }

  /** Not a text for the user's eyes only. */
  predicate ForModel(b: Block) {
    b.Text? ==> match b.annotations.audience case None => true case Some(roles) => Assistant in roles
  }

  /** What is shown of a message, by its place before or in the turn. */
  lemma ProviderViewExact(conv: seq<Message>, start: nat, i: nat)
    requires i < |conv|
    ensures !conv[i].meta.agentVisible ==> ProviderView(conv, start, i) == []
    ensures conv[i].meta.agentVisible && start <= i ==>
              ProviderView(conv, start, i) == Filter(conv[i].content, ForModel)
    ensures conv[i].meta.agentVisible && i < start ==>
              ProviderView(conv, start, i) == Filter(conv[i].content,
                b => ForModel(b) && (b.ToolRequest? ==> AnsweredIn(b.id, Contents(conv))))
  {
    hide AnsweredIn, Contents, AnswersOf, Filter;
    ViewsExact(conv);
    var answered := AnswersOf(conv);
    var p := b => Shown(b, start <= i, answered);
    if start <= i {
      FilterSame(conv[i].content, p, ForModel);
    } else {
      FilterSame(conv[i].content, p, b => ForModel(b) && (b.ToolRequest? ==> AnsweredIn(b.id, Contents(conv))));
    }
  }

  lemma {:induction false} LastIsSeen(conv: seq<Message>, start: nat, n: nat)
    requires n <= |conv|
    ensures var r := ForProvider(conv, start, n);
            LastSeen(conv, start, n) == if r == [] then None else Some(r[|r| - 1])
  {
    hide ProviderView;
    if n > 0 { LastIsSeen(conv, start, n - 1); }
  }

  /** An inference applies exactly if there is a turn, the conversation does not end in
      an error, and what the provider would be shown ends in a message of the user's. */
  lemma AppliesExact(conv: seq<Message>)
    ensures Applies(conv) <==>
            && Kickoff(conv).Some?
            && (var last := conv[|conv| - 1].content; forall k :: 0 <= k < |last| ==> !last[k].ErrorBlock?)
            && var r := ForProvider(conv, Kickoff(conv).value, |conv|);
               r != [] && r[|r| - 1].role == User
  {
    hide ProviderView, Kickoff, ForProvider, LastSeen;
    if Kickoff(conv).Some? { LastIsSeen(conv, Kickoff(conv).value, |conv|); }
  }

  /** `agent_visible_messages`. */
  function Projected(ms: seq<Message>): seq<Message> {
    if ms == [] then []
    else
      var n := |ms| - 1;
      var v := if ms[n].meta.agentVisible then Filter(ms[n].content, ForModel) else [];
      Projected(ms[..n]) + if v == [] then [] else [ms[n].(content := v)]
  }

  lemma ViewIsForModel(conv: seq<Message>, start: nat, i: nat)
    requires i < |conv|
    ensures Filter(ProviderView(conv, start, i), ForModel) == ProviderView(conv, start, i)
  {
    hide AnswersOf, Filter;
    FilterAll(ProviderView(conv, start, i), ForModel);
  }

  /** Projecting what the provider is shown once more changes nothing. */
  lemma {:induction false} ProjectionIsIdempotent(conv: seq<Message>, start: nat, n: nat)
    requires n <= |conv|
    ensures Projected(ForProvider(conv, start, n)) == ForProvider(conv, start, n)
  {
    hide ProviderView, Filter, Projected;
    if n == 0 {
      NothingProjected();
    } else {
      ProjectionIsIdempotent(conv, start, n - 1);
      ViewIsForModel(conv, start, n - 1);
      var r := ForProvider(conv, start, n - 1);
      if ProviderView(conv, start, n - 1) != [] {
        ViewHasMeta(conv, start, n - 1);
        ProjectedSnoc(r, conv[n - 1].(content := ProviderView(conv, start, n - 1)));
      } else {
        assert r + [] == r;
      }
    }
  }

  lemma NothingProjected()
    ensures Projected([]) == []
  {}

  lemma ProjectedSnoc(ms: seq<Message>, m: Message)
    requires m.meta.agentVisible && m.content != [] && Filter(m.content, ForModel) == m.content
    ensures Projected(ms + [m]) == Projected(ms) + [m]
  {
    hide Filter;
    assert (ms + [m])[..|ms|] == ms;
  }

  lemma ViewHasMeta(conv: seq<Message>, start: nat, i: nat)
    requires i < |conv| && ProviderView(conv, start, i) != []
    ensures conv[i].meta.agentVisible
  {}

  /** The messages an inference sends. */
  function Request(conv: seq<Message>): seq<Message>
    requires Kickoff(conv).Some?
  {
    Merge(FixConversation(Projected(ForProvider(conv, Kickoff(conv).value, |conv|))).kept, true)
  }

  /** Whenever an inference applies, its request is not empty, its roles alternate, and
      its calls are well placed and answered: it is the repair of exactly what the
      provider may see, merged once more. */
  lemma RequestIsSound(conv: seq<Message>)
    requires Applies(conv)
    ensures Kickoff(conv).Some?
    ensures var q := Request(conv);
            var seen := ForProvider(conv, Kickoff(conv).value, |conv|);
            && q == Merge(FixMessages(seen).kept, true)
            && q != [] && Alternates(q) && WellPlaced(Items(q)) && RequestsAnswered(Items(q))
  {
    hide Applies, ForProvider, Projected, FixConversation, FixMessages, Merge, Alternates, WellPlaced,
         RequestsAnswered, Items, Kickoff, Handed, EndsAreUser, Stays, TwoLead, TwoTrail;
    AppliesExact(conv);
    var start := Kickoff(conv).value;
    var seen := ForProvider(conv, start, |conv|);
    ProjectionIsIdempotent(conv, start, |conv|);
    FixProjection(seen);
    RequestIsAlternating(seen);
  }

  // ---- How an inference ends ----

  /** A block that says something. */
  predicate Says(b: Block) {
    match b
    case Text(t, _) => exists i :: 0 <= i < |t| && !IsWhitespace(t[i])
    case Thinking(t, signature) => signature != "" || exists i :: 0 <= i < |t| && !IsWhitespace(t[i])
    case _ => true
  }

  /** The answer says something, or was cut off at the output limit. */
  predicate Counts(ms: seq<Message>) {
    || (exists i :: 0 <= i < |ms| && ms[i].meta.outputTokenLimitReached)
    || (exists i, k :: 0 <= i < |ms| && 0 <= k < |ms[i].content| && Says(ms[i].content[k]))
  }

  lemma SaysExact(m: Message)
    ensures IsEmptyResponse(m) <==> forall k :: 0 <= k < |m.content| ==> !Says(m.content[k])
  {}

  lemma CountsExact(ms: seq<Message>)
    ensures IsEmptyAnswer(ms) <==> !Counts(ms)
  {
    hide IsEmptyResponse, Says;
    forall i | 0 <= i < |ms|
      ensures IsEmptyResponse(ms[i]) <==> forall k :: 0 <= k < |ms[i].content| ==> !Says(ms[i].content[k])
    {
      SaysExact(ms[i]);
    }
  }

  const PLAIN := Metadata(true, true, false, None, false, 0)

  /** A stream that cannot be opened leaves the error alone; one that breaks off
      leaves what was gathered and then the error. */
  lemma FailedInference(conv: seq<Message>, c: Choice)
    requires Applies(conv)
    ensures c.provider.NoStream? ==>
              Infer(conv, c) == Did([Message(None, Assistant, [ErrorBlock(c.provider.error)], PLAIN)], false)
    ensures c.provider.Streamed? && c.provider.ending.Broken? ==>
              Infer(conv, c) == Did(Gather(c.provider.chunks, c.inference).messages
                + [Message(None, Assistant, [ErrorBlock(c.provider.ending.error)], PLAIN)], false)
  {
    hide Gather, CancellationResponse, IsEmptyAnswer, Turn;
  }

  /** An answer that ends by itself is appended as gathered if there is anything to it;
      otherwise a notice takes its place, and the user has to go on. */
  lemma EndedInference(conv: seq<Message>, c: Choice)
    requires Applies(conv) && c.provider.Streamed? && c.provider.ending == Ended && !c.lateCancel
    ensures var g := Gather(c.provider.chunks, c.inference).messages;
            Infer(conv, c) ==
            if Counts(g) then Did(g, false)
            else Did([Message(None, Assistant, [
                        Text("The model returned an empty response. Please resend your message to continue.",
                             Annotations(None, 0))], PLAIN)], true)
  {
    hide Gather, CancellationResponse, IsEmptyAnswer, Turn, Counts;
    AppliesHasTurn(conv);
    CountsExact(Gather(c.provider.chunks, c.inference).messages);
  }

  /** The requests in `bs` that nothing in `bs` answers, each id where it is first. */
  ghost function Open(bs: seq<Block>): (r: seq<Block>)
    ensures forall i :: 0 <= i < |r| ==> r[i].ToolRequest?
  {
    Filter(Fresh([], Requests(bs)), (b: Block) => b.ToolRequest? && !AnsweredIn(b.id, bs))
  }

  function IdsOf(rs: seq<Block>): seq<string>
    requires forall i :: 0 <= i < |rs| ==> rs[i].ToolRequest?
  {
    seq(|rs|, i requires 0 <= i < |rs| => rs[i].id)
  }

  lemma {:induction false} MissingInOrder(reqs: seq<Block>, answered: set<string>)
    requires forall i :: 0 <= i < |reqs| ==> reqs[i].ToolRequest?
    ensures var o := Filter(Fresh([], reqs), (b: Block) => b.ToolRequest? && b.id !in answered);
            Missing(reqs, answered) == IdsOf(o)
  {
    hide Filter, AskedIn, Fresh, IdsOf;
    var p := (b: Block) => b.ToolRequest? && b.id !in answered;
    if reqs == [] {
      NothingFresh();
      FilterNothing(p);
      assert IdsOf([]) == [] by { NoIds(); }
    } else {
      var n := |reqs| - 1;
      var init, b := reqs[..n], reqs[n];
      var f := Fresh([], init);
      MissingInOrder(init, answered);
      MissingIsAsked(init, answered, b.id);
      assert reqs == init + [b];
      FreshSnoc(init, b);
      FilterConcat(f, [b], p);
      FilterOne(b, p);
      IdsSnoc(Filter(f, p), b);
      assert f + [] == f && Filter(f, p) + [] == Filter(f, p);
    }
  }

  lemma NothingFresh()
    ensures Fresh([], []) == []
  {}

  lemma NoIds()
    ensures IdsOf([]) == []
  {}

  lemma FreshSnoc(bs: seq<Block>, b: Block)
    ensures Fresh([], bs + [b]) == Fresh([], bs) + if b.ToolRequest? && AskedIn(b.id, bs) then [] else [b]
  {
    hide AskedIn;
    assert (bs + [b])[..|bs|] == bs && [] + bs == bs;
  }

  lemma IdsSnoc(rs: seq<Block>, b: Block)
    requires (forall i :: 0 <= i < |rs| ==> rs[i].ToolRequest?) && b.ToolRequest?
    ensures forall i :: 0 <= i < |rs + [b]| ==> (rs + [b])[i].ToolRequest?
    ensures IdsOf(rs + [b]) == IdsOf(rs) + [b.id]
  {}

  lemma MissingIsAsked(reqs: seq<Block>, answered: set<string>, id: string)
    requires forall i :: 0 <= i < |reqs| ==> reqs[i].ToolRequest?
    ensures id in Missing(reqs, answered) <==> id !in answered && AskedIn(id, reqs)
  {
    hide Missing;
    MissingExact(reqs, answered);
  }

  /** The message that answers the calls a cancellation cut short. */
  ghost function Closing(bs: seq<Block>): seq<Message> {
    var ids := IdsOf(Open(bs));
    if ids == [] then []
    else [FromUs(seq(|ids|, i requires 0 <= i < |ids| =>
            ToolResponse(ids[i], Ok([ResultText("Tool call was cancelled before execution")]))))]
  }

  /** `cancellation_response`, on the blocks of the turn and of the answer. */
  lemma CancellationExact(turn: seq<Message>, acc: seq<Message>)
    ensures CancellationResponse(turn, acc) ==
            var m := Closing(Contents(turn + acc)); if m == [] then None else Some(m[0])
  {
    hide Missing, Contents, Filter, Fresh, RequestsOf, AnswersOf, AnsweredIn;
    var all, bs := turn + acc, Contents(turn + acc);
    var answered := AnswersOf(all);
    ViewsAreContents(all);
    ViewsExact(all);
    MissingInOrder(Requests(bs), answered);
    FilterSame(Fresh([], Requests(bs)), (b: Block) => b.ToolRequest? && b.id !in answered,
               (b: Block) => b.ToolRequest? && !AnsweredIn(b.id, bs));
    var ids := IdsOf(Open(bs));
    assert Missing(RequestsOf(all), answered) == ids;
    assert Replies(ids) == seq(|ids|, i requires 0 <= i < |ids| =>
             ToolResponse(ids[i], Ok([ResultText("Tool call was cancelled before execution")])));
  }

  /** A cancelled answer is appended as gathered and closed: every call of the turn and
      of the answer that has no answer gets one. A cancellation after the end does the
      same, unless that leaves nothing to append. */
  lemma StoppedInference(conv: seq<Message>, c: Choice)
    requires Applies(conv) && c.provider.Streamed? && !c.provider.ending.Broken?
    ensures Kickoff(conv).Some?
    ensures var g := Gather(c.provider.chunks, c.inference).messages;
            var out := g + Closing(Contents(Turn(conv) + g));
            && (c.provider.ending == Cancelled ==> Infer(conv, c) == Did(out, false))
            && (c.provider.ending == Ended && c.lateCancel && Counts(out) ==> Infer(conv, c) == Did(out, false))
  {
    hide Gather, CancellationResponse, IsEmptyAnswer, Turn, Counts, Closing, Contents, Applies;
    AppliesHasTurn(conv);
    var g := Gather(c.provider.chunks, c.inference).messages;
    CancellationExact(Turn(conv), g);
    ClosingIsOne(Contents(Turn(conv) + g));
    CountsExact(g + Closing(Contents(Turn(conv) + g)));
    assert g + [] == g;
  }

  lemma ClosingIsOne(bs: seq<Block>)
    ensures |Closing(bs)| <= 1 && (Closing(bs) != [] ==> Closing(bs) == [Closing(bs)[0]])
  {}
}
