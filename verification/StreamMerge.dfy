/** The two coalescers of a streamed answer: `Conversation::push`
    (conversation.rs) and `collect_stream` (base.rs). */
module StreamMerge {
  import opened Common
  import opened Messages
  import opened MessageMerge

  /** A signed block takes in only what carries its own signature. */
  predicate ThinkingContinues(last: Block, b: Block) {
    last.Thinking? && b.Thinking? && (last.signature == "" || b.signature == last.signature)
  }

  predicate Continues(last: Block, b: Block) { SameAudience(last, b) || ThinkingContinues(last, b) }

  function Fused(last: Block, b: Block): Block
    requires Continues(last, b)
  {
    if last.Text? then last.(text := last.text + b.text)
    else Thinking(last.thinking + b.thinking, if b.signature != "" then b.signature else last.signature)
  }

  /** One single-block delta. */
  function AddDelta(bs: seq<Block>, b: Block): seq<Block> {
    if bs != [] && Continues(bs[|bs| - 1], b)
    then bs[..|bs| - 1] + [Fused(bs[|bs| - 1], b)]
    else bs + [b]
  }

  function AddDeltas(bs: seq<Block>): seq<Block> {
    if bs == [] then [] else AddDelta(AddDeltas(bs[..|bs| - 1]), bs[|bs| - 1])
  }

  // ---- Conversation::push ----

  /** The content of the last message after a chunk with the same id. */
  function ExtendContent(content: seq<Block>, chunk: seq<Block>): seq<Block> {
    if |chunk| == 1 then AddDelta(content, chunk[0]) else content + chunk
  }

  function NoteMeta(d: Metadata, m: Message): Metadata {
    d.(inference := if m.meta.inference.Some? then m.meta.inference else d.inference,
       outputTokenLimitReached := d.outputTokenLimitReached || m.meta.outputTokenLimitReached)
  }

  predicate IsNote(m: Message) {
    m.content == [] && (m.meta.inference.Some? || m.meta.outputTokenLimitReached)
  }

  /** Whether an empty status message belongs to `e`. */
  predicate NoteFits(e: Message, m: Message) {
    && e.role == m.role && e.meta.userVisible
    && (m.meta.outputTokenLimitReached ==> m.id.Some? && e.id == m.id)
  }

  function LastFit(ms: seq<Message>, m: Message): (r: Option<nat>)
    ensures r.Some? ==> r.value < |ms| && NoteFits(ms[r.value], m)
    ensures forall i :: (if r.Some? then r.value else -1) < i < |ms| ==> !NoteFits(ms[i], m)
  {
    if ms == [] then None
    else if NoteFits(ms[|ms| - 1], m) then Some(|ms| - 1)
    else LastFit(ms[..|ms| - 1], m)
  }

  function Pushed(ms: seq<Message>, m: Message): seq<Message> {
    if IsNote(m) then
      match LastFit(ms, m)
      case Some(i) => ms[i := ms[i].(meta := NoteMeta(ms[i].meta, m))]
      case None =>
        if m.meta.outputTokenLimitReached
        then ms + [m.(meta := m.meta.(userVisible := true, agentVisible := false))] else ms
    else if ms != [] && ms[|ms| - 1].id.Some? && ms[|ms| - 1].id == m.id then
      var last := ms[|ms| - 1];
      ms[..|ms| - 1] + [last.(content := ExtendContent(last.content, m.content), meta := NoteMeta(last.meta, m))]
    else ms + [m]
  }

  function PushAll(chunks: seq<Message>): seq<Message> {
    if chunks == [] then [] else Pushed(PushAll(chunks[..|chunks| - 1]), chunks[|chunks| - 1])
  }

  class Conversation {
    var messages: seq<Message>

    constructor ()
      ensures messages == []
    {
      messages := [];
    }

    /** A single block may be fused with the last one; several are appended. */
    static method Extend(content: seq<Block>, chunk: seq<Block>) returns (r: seq<Block>)
      ensures r == ExtendContent(content, chunk)
    {
      var k := |content|;
      if k > 0 && |chunk| == 1 && SameAudience(content[k - 1], chunk[0]) {
        var last := content[k - 1];
        return content[..k - 1] + [last.(text := last.text + chunk[0].text)];
      }
      if k > 0 && |chunk| == 1 && ThinkingContinues(content[k - 1], chunk[0]) {
        var last, new' := content[k - 1], chunk[0];
        return content[..k - 1] +
          [Thinking(last.thinking + new'.thinking, if new'.signature != "" then new'.signature else last.signature)];
      }
      assert |chunk| == 1 ==> chunk == [chunk[0]];
      return content + chunk;
    }

    method Push(message: Message)
      modifies this
      ensures messages == Pushed(old(messages), message)
    {
      hide ExtendContent, NoteFits;
      var limit := message.meta.outputTokenLimitReached;
      if message.content == [] && (message.meta.inference.Some? || limit) {
        var fit := LastFit(messages, message);
        if fit.Some? {
          var existing := messages[fit.value];
          if message.meta.inference.Some? {
            existing := existing.(meta := existing.meta.(inference := message.meta.inference));
          }
          existing := existing.(meta := existing.meta.(
            outputTokenLimitReached := existing.meta.outputTokenLimitReached || limit));
          messages := messages[fit.value := existing];
          return;
        }
        if limit {
          messages := messages + [message.(meta := message.meta.(userVisible := true, agentVisible := false))];
        }
        return;
      }
      if messages != [] && messages[|messages| - 1].id.Some? && messages[|messages| - 1].id == message.id {
        var n := |messages| - 1;
        var last := messages[n];
        var content := Extend(last.content, message.content);
        if message.meta.inference.Some? {
          last := last.(meta := last.meta.(inference := message.meta.inference));
        }
        last := last.(content := content, meta := last.meta.(
          outputTokenLimitReached := last.meta.outputTokenLimitReached || message.meta.outputTokenLimitReached));
        messages := messages[..n] + [last];
      } else {
        messages := messages + [message];
      }
    }
  }

  // ---- collect_stream ----

  function CollectBlock(prev: seq<Block>, b: Block, single: bool): seq<Block> {
    if prev != [] && (SameAudience(prev[|prev| - 1], b) || (single && ThinkingContinues(prev[|prev| - 1], b)))
    then prev[..|prev| - 1] + [Fused(prev[|prev| - 1], b)]
    else prev + [b]
  }

  function CollectChunk(prev: seq<Block>, chunk: seq<Block>, single: bool): seq<Block> {
    if chunk == [] then prev
    else CollectBlock(CollectChunk(prev, chunk[..|chunk| - 1], single), chunk[|chunk| - 1], single)
  }

  /** The content gathered from all chunks; the first one is taken as it is. */
  function Collected(chunks: seq<Message>): seq<Block>
    requires chunks != []
  {
    if |chunks| == 1 then chunks[0].content
    else
      var c := chunks[|chunks| - 1].content;
      CollectChunk(Collected(chunks[..|chunks| - 1]), c, |c| == 1)
  }

  /** The inner loop: one chunk is taken in block by block. */
  method CollectInto(prev: seq<Block>, chunk: seq<Block>) returns (content: seq<Block>)
    ensures content == CollectChunk(prev, chunk, |chunk| == 1)
  {
    hide CollectBlock;
    content := prev;
    var single := |chunk| == 1;
    var j := 0;
    while j < |chunk|
      invariant 0 <= j <= |chunk|
      invariant content == CollectChunk(prev, chunk[..j], single)
    {
      assert chunk[..j + 1][..j] == chunk[..j];
      content := CollectBlock(content, chunk[j], single);
      j := j + 1;
    }
    assert chunk[..j] == chunk;
  }

  method CollectStream(chunks: seq<Message>) returns (final: Option<Message>)
    ensures chunks == [] ==> final == None
    ensures chunks != [] ==> final == Some(chunks[0].(content := Collected(chunks)))
  {
    hide CollectChunk;
    final := None;
    var i := 0;
    while i < |chunks|
      invariant 0 <= i <= |chunks|
      invariant i == 0 ==> final == None
      invariant i > 0 ==> final == Some(chunks[0].(content := Collected(chunks[..i])))
    {
      var msg := chunks[i];
      if final.Some? {
        var prev := final.value;
        var content := CollectInto(prev.content, msg.content);
        assert chunks[..i + 1][..i] == chunks[..i];
        final := Some(prev.(content := content));
      } else {
        assert chunks[..1][0] == chunks[0];
        final := Some(msg);
      }
      i := i + 1;
    }
    assert chunks[..i] == chunks;
  }

  // ---- When the two agree ----

  /** Chunks of one message: they share an id, the first has content or says
      nothing about status, and later status notes belong to it. */
  predicate OneStream(chunks: seq<Message>, id: string) {
    && chunks != [] && !IsNote(chunks[0])
    && (forall i :: 0 <= i < |chunks| ==> chunks[i].id == Some(id))
    && (forall i :: 0 <= i < |chunks| && IsNote(chunks[i]) ==>
          chunks[i].role == chunks[0].role && chunks[0].meta.userVisible)
  }

  function LastOf(bs: seq<Block>): (r: seq<Block>) { if bs == [] then [] else [bs[|bs| - 1]] }

  /** A chunk of several blocks may follow `before`: nothing in it is text for the
      same audience as the block it follows. */
  predicate MayFollow(before: seq<Block>, chunk: seq<Block>) {
    |chunk| == 1 || TextsApart(LastOf(before) + chunk)
  }

  predicate AllMayFollow(chunks: seq<Message>) {
    forall i :: 1 <= i < |chunks| ==> MayFollow(Contents(chunks[..i]), chunks[i].content)
  }

  /** Blocks alike to both coalescers. */
  predicate Alike(a: Block, b: Block) {
    && (a.Text? <==> b.Text?) && (a.Text? ==> a.annotations.audience == b.annotations.audience)
    && (a.Thinking? <==> b.Thinking?) && (a.Thinking? ==> a.signature == b.signature)
  }

  predicate AlikeText(a: Block, b: Block) {
    (a.Text? <==> b.Text?) && (a.Text? ==> a.annotations.audience == b.annotations.audience)
  }

  /** Where the two coalescers stand after the same chunks, whose blocks are `raw`. */
  predicate InStep(pushed: seq<Block>, collected: seq<Block>, raw: seq<Block>) {
    && (pushed == [] <==> raw == []) && (collected == [] <==> raw == [])
    && (raw != [] ==>
          && Alike(pushed[|pushed| - 1], collected[|collected| - 1])
          && AlikeText(pushed[|pushed| - 1], raw[|raw| - 1]))
    && |collected| <= |pushed|
    && (|collected| == |pushed| ==> collected == pushed)
  }

  /** `r` is what `collect_stream` made of `whole`, whose last blocks `before` shows. */
  predicate Gathered(r: seq<Block>, whole: seq<Block>, before: seq<Block>) {
    && |r| <= |whole|
    && (|r| == |whole| <==> TextsApart(before))
    && (|r| == |whole| ==> r == whole)
    && (whole == [] <==> r == []) && (whole == [] <==> before == [])
    && (whole != [] ==> Alike(r[|r| - 1], whole[|whole| - 1]) && before[|before| - 1] == whole[|whole| - 1])
  }

  lemma GatherOne(r: seq<Block>, whole: seq<Block>, before: seq<Block>, b: Block)
    requires Gathered(r, whole, before)
    ensures Gathered(CollectBlock(r, b, false), whole + [b], before + [b])
  {
    hide TextsApart;
    TextsApartSnoc(before, b);
  }

  /** `collect_stream` takes in a chunk of several blocks unchanged exactly if no
      two texts for one audience come side by side. */
  lemma {:induction false} CollectKeepsApart(prev: seq<Block>, c: seq<Block>)
    ensures Gathered(CollectChunk(prev, c, false), prev + c, LastOf(prev) + c)
  {
    hide TextsApart, CollectBlock, Alike, Gathered;
    if c == [] {
      assert LastOf(prev) + c == LastOf(prev) && prev + c == prev;
      GatheredSoFar(prev);
    } else {
      var n := |c| - 1;
      CollectKeepsApart(prev, c[..n]);
      GatherOne(CollectChunk(prev, c[..n], false), prev + c[..n], LastOf(prev) + c[..n], c[n]);
      assert (LastOf(prev) + c[..n]) + [c[n]] == LastOf(prev) + c && (prev + c[..n]) + [c[n]] == prev + c;
    }
  }

  lemma GatheredSoFar(prev: seq<Block>)
    ensures Gathered(prev, prev, LastOf(prev))
  {
    hide TextsApart;
    OneApart(LastOf(prev));
  }

  lemma OneApart(bs: seq<Block>)
    requires |bs| <= 1
    ensures TextsApart(bs)
  {}

  /** One more block, alone in its chunk: both fuse it or neither does. */
  lemma DeltaKeepsStep(pushed: seq<Block>, collected: seq<Block>, raw: seq<Block>, b: Block)
    requires InStep(pushed, collected, raw)
    ensures InStep(AddDelta(pushed, b), AddDelta(collected, b), raw + [b])
    ensures |AddDelta(collected, b)| == |AddDelta(pushed, b)| <==> |collected| == |pushed|
  {}

  lemma ChunkKeepsStep(pushed: seq<Block>, collected: seq<Block>, raw: seq<Block>, c: seq<Block>)
    requires InStep(pushed, collected, raw) && |c| != 1
    ensures var q := CollectChunk(collected, c, false);
            && InStep(pushed + c, q, raw + c)
            && (q == pushed + c <==> collected == pushed && TextsApart(LastOf(raw) + c))
  {
    hide TextsApart, CollectChunk, Alike, AlikeText;
    CollectKeepsApart(collected, c);
    assert TextsApart(LastOf(raw) + c) <==> TextsApart(LastOf(collected) + c) by {
      if raw != [] { AlikeLasts(pushed, collected, raw, c); }
    }
    var q := CollectChunk(collected, c, false);
    if c == [] {
      assert collected + c == collected && pushed + c == pushed && raw + c == raw;
      OneApart(LastOf(collected));
      assert LastOf(collected) + c == LastOf(collected);
      assert q == collected;
    } else {
      var b := c[|c| - 1];
      assert (collected + c)[|collected + c| - 1] == b;
      assert (pushed + c)[|pushed + c| - 1] == b && (raw + c)[|raw + c| - 1] == b;
      AlikeBack(q[|q| - 1], b);
      if collected != pushed { assert |collected| < |pushed|; }
    }
  }

  lemma AlikeBack(x: Block, b: Block)
    requires Alike(x, b)
    ensures Alike(b, x) && AlikeText(b, b)
  {}

  lemma AlikeLasts(pushed: seq<Block>, collected: seq<Block>, raw: seq<Block>, c: seq<Block>)
    requires InStep(pushed, collected, raw) && raw != []
    ensures TextsApart(LastOf(raw) + c) <==> TextsApart(LastOf(collected) + c)
  {
    hide TextsApart;
    ApartAlike(raw[|raw| - 1], collected[|collected| - 1], c);
  }

  lemma ApartAlike(x: Block, y: Block, c: seq<Block>)
    requires AlikeText(x, y)
    ensures TextsApart([x] + c) <==> TextsApart([y] + c)
  {
    forall a, b | AlikeText(a, b) && TextsApart([a] + c) ensures TextsApart([b] + c) {
      var s, t := [a] + c, [b] + c;
      forall i | 0 <= i < |t| - 1 ensures !SameAudience(t[i], t[i + 1]) {
        assert !SameAudience(s[i], s[i + 1]);
      }
    }
  }

  lemma SingleChunk(prev: seq<Block>, c: seq<Block>)
    requires |c| == 1
    ensures CollectChunk(prev, c, true) == AddDelta(prev, c[0])
  {
    assert c[..0] == [];
    assert CollectChunk(prev, [], true) == prev;
  }

  /** One more chunk of the stream is taken in by the one message there is. */
  lemma PushOntoOne(e: Message, m: Message)
    requires e.id.Some? && m.id == e.id && (IsNote(m) ==> m.role == e.role && e.meta.userVisible)
    ensures var r := Pushed([e], m);
            && |r| == 1 && r[0].id == e.id && r[0].role == e.role && r[0].meta.userVisible == e.meta.userVisible
            && r[0].content == (if |m.content| == 1 then AddDelta(e.content, m.content[0]) else e.content + m.content)
            && r[0].meta == e.meta.(
                 inference := if m.meta.inference.Some? then m.meta.inference else e.meta.inference,
                 outputTokenLimitReached := e.meta.outputTokenLimitReached || m.meta.outputTokenLimitReached)
  {
    hide AddDelta;
    if IsNote(m) {
      assert NoteFits([e][0], m);
      assert LastFit([e], m) == Some(0);
      assert e.content + [] == e.content;
    } else {
      assert [e][..0] == [];
    }
  }

  lemma {:induction false} StreamsInStep(chunks: seq<Message>, id: string)
    requires OneStream(chunks, id)
    ensures |PushAll(chunks)| == 1
    ensures var m := PushAll(chunks)[0];
            && m.id == Some(id) && m.role == chunks[0].role && m.meta.userVisible == chunks[0].meta.userVisible
            && InStep(m.content, Collected(chunks), Contents(chunks))
            && (m.content == Collected(chunks) <==> AllMayFollow(chunks))
  {
    hide InStep, MayFollow, Pushed, IsNote, Contents, CollectChunk, AddDelta;
    var n := |chunks| - 1;
    if n == 0 {
      FirstInStep(chunks);
    } else {
      var init, c := chunks[..n], chunks[n].content;
      assert forall i :: 0 <= i < n ==> init[i] == chunks[i] && init[..i] == chunks[..i];
      StreamsInStep(init, id);
      var e := PushAll(init)[0];
      assert PushAll(init) == [e];
      PushOntoOne(e, chunks[n]);
      NextInStep(PushAll(init)[0].content, Collected(init), Contents(init), c);
      BlocksSnoc(chunks);
      assert AllMayFollow(chunks) <==> AllMayFollow(init) && MayFollow(Contents(init), c);
    }
  }

  lemma BlocksSnoc(chunks: seq<Message>)
    requires chunks != []
    ensures Contents(chunks) == Contents(chunks[..|chunks| - 1]) + chunks[|chunks| - 1].content
  {}

  lemma FirstInStep(chunks: seq<Message>)
    requires |chunks| == 1 && !IsNote(chunks[0])
    ensures PushAll(chunks) == chunks
    ensures InStep(chunks[0].content, Collected(chunks), Contents(chunks))
  {
    assert chunks[..0] == [];
    assert PushAll([]) == [] && Contents([]) == [];
    assert [] + chunks[0].content == chunks[0].content;
  }

  lemma NextInStep(pushed: seq<Block>, collected: seq<Block>, raw: seq<Block>, c: seq<Block>)
    requires InStep(pushed, collected, raw)
    ensures var p := if |c| == 1 then AddDelta(pushed, c[0]) else pushed + c;
            var q := CollectChunk(collected, c, |c| == 1);
            && InStep(p, q, raw + c)
            && (p == q <==> pushed == collected && MayFollow(raw, c))
  {
    hide TextsApart, CollectChunk, AddDelta;
    if |c| == 1 {
      SingleChunk(collected, c);
      assert c == [c[0]];
      DeltaKeepsStep(pushed, collected, raw, c[0]);
    } else {
      ChunkKeepsStep(pushed, collected, raw, c);
    }
  }

  /** Folding `push` over the stream gives one message, and its blocks are those
      `collect_stream` gathers if and only if no chunk of several blocks brings
      text next to text for the same audience. */
  lemma PushAgreesWithCollect(chunks: seq<Message>, id: string)
    requires OneStream(chunks, id)
    ensures |PushAll(chunks)| == 1
    ensures PushAll(chunks)[0].id == Some(id) && PushAll(chunks)[0].role == chunks[0].role
    ensures PushAll(chunks)[0].content == Collected(chunks) <==> AllMayFollow(chunks)
  {
    hide InStep, AllMayFollow;
    StreamsInStep(chunks, id);
  }

  // ---- What the status notes leave, and what they leave alone ----

  /** `d` is the metadata of the first chunk, except that the output limit counts
      as reached if any chunk says so and the inference is the last one any chunk
      carries. */
  ghost predicate GathersStatus(d: Metadata, chunks: seq<Message>)
    requires chunks != []
  {
    && d == chunks[0].meta.(inference := d.inference, outputTokenLimitReached := d.outputTokenLimitReached)
    && (d.outputTokenLimitReached <==> exists i :: 0 <= i < |chunks| && chunks[i].meta.outputTokenLimitReached)
    && (d.inference == None ==> forall i :: 0 <= i < |chunks| ==> chunks[i].meta.inference == None)
    && (d.inference.Some? ==> exists i :: 0 <= i < |chunks| && chunks[i].meta.inference == d.inference
                                && forall j :: i < j < |chunks| ==> chunks[j].meta.inference == None)
  }

  lemma GathersMore(d: Metadata, chunks: seq<Message>, m: Message)
    requires chunks != [] && GathersStatus(d, chunks)
    ensures GathersStatus(
              d.(inference := if m.meta.inference.Some? then m.meta.inference else d.inference,
                 outputTokenLimitReached := d.outputTokenLimitReached || m.meta.outputTokenLimitReached),
              chunks + [m])
  {
    var more := chunks + [m];
    assert more[|chunks|] == m && more[0] == chunks[0];
    assert forall i :: 0 <= i < |chunks| ==> more[i] == chunks[i];
    if d.outputTokenLimitReached {
      var i :| 0 <= i < |chunks| && chunks[i].meta.outputTokenLimitReached;
      assert more[i].meta.outputTokenLimitReached;
    }
    if d.inference.Some? && m.meta.inference.None? {
      var i :| 0 <= i < |chunks| && chunks[i].meta.inference == d.inference
               && forall j :: i < j < |chunks| ==> chunks[j].meta.inference == None;
      assert more[i].meta.inference == d.inference;
    }
  }

  /** The message made of a stream carries the status of all its chunks. */
  lemma {:induction false} StreamStatus(chunks: seq<Message>, id: string)
    requires OneStream(chunks, id)
    ensures |PushAll(chunks)| == 1 && GathersStatus(PushAll(chunks)[0].meta, chunks)
  {
    hide GathersStatus, Pushed, IsNote, InStep, AllMayFollow;
    StreamsInStep(chunks, id);
    var n := |chunks| - 1;
    if n == 0 {
      FirstInStep(chunks);
      FirstStatus(chunks);
    } else {
      var init := chunks[..n];
      assert forall i :: 0 <= i < n ==> init[i] == chunks[i];
      StreamStatus(init, id);
      StreamsInStep(init, id);
      var e := PushAll(init)[0];
      assert PushAll(init) == [e] && chunks == init + [chunks[n]];
      PushOntoOne(e, chunks[n]);
      GathersMore(e.meta, init, chunks[n]);
    }
  }

  lemma FirstStatus(chunks: seq<Message>)
    requires |chunks| == 1
    ensures GathersStatus(chunks[0].meta, chunks)
  {}

  /** A chunk of the message under way touches that message alone, whatever stands
      before it. */
  lemma PushTouchesLast(ms: seq<Message>, e: Message, m: Message)
    requires e.id.Some? && m.id == e.id && (IsNote(m) ==> m.role == e.role && e.meta.userVisible)
    ensures Pushed(ms + [e], m) == ms + Pushed([e], m)
  {
    hide ExtendContent;
    var all := ms + [e];
    assert all[|ms|] == e && all[..|ms|] == ms && [e][..0] == [];
    if IsNote(m) {
      assert NoteFits(e, m);
      assert LastFit(all, m) == Some(|ms|) && LastFit([e], m) == Some(0);
    }
  }

  /** A message with content under another id is appended as it is. */
  lemma PushElsewhere(ms: seq<Message>, m: Message)
    requires m.content != [] || (m.meta.inference == None && !m.meta.outputTokenLimitReached)
    requires ms == [] || ms[|ms| - 1].id == None || ms[|ms| - 1].id != m.id
    ensures Pushed(ms, m) == ms + [m]
  {}

  /** The next stream becomes one more message behind those there are. */
  lemma {:induction false} StreamAppends(before: seq<Message>, chunks: seq<Message>, id: string)
    requires OneStream(chunks, id)
    requires var ms := PushAll(before); ms == [] || ms[|ms| - 1].id != Some(id)
    ensures PushAll(before + chunks) == PushAll(before) + PushAll(chunks)
  {
    hide Pushed, InStep, AllMayFollow;
    var ms := PushAll(before);
    var n := |chunks| - 1;
    var init, c := chunks[..n], chunks[n];
    assert (before + chunks)[..|before| + n] == before + init && (before + chunks)[|before| + n] == c;
    StreamsInStep(chunks, id);
    if n == 0 {
      FirstInStep(chunks);
      assert before + init == before;
      PushElsewhere(ms, c);
      assert chunks == [c];
    } else {
      assert forall i :: 0 <= i < n ==> init[i] == chunks[i];
      StreamAppends(before, init, id);
      StreamsInStep(init, id);
      var e := PushAll(init)[0];
      assert PushAll(init) == [e];
      PushTouchesLast(ms, e, c);
    }
  }

  /** Message `e` may take the status note `m`: same role, shown to the user, and,
      if the note reports the output limit, the same id. */
  predicate TakesNote(e: Message, m: Message) {
    e.role == m.role && e.meta.userVisible && (m.meta.outputTokenLimitReached ==> m.id.Some? && e.id == m.id)
  }

  /** A status note changes the last message that may take it, and only its status;
      if there is none, a report of the output limit becomes a message for the user
      alone, and any other note is dropped. */
  lemma NoteExact(ms: seq<Message>, m: Message)
    requires m.content == [] && (m.meta.inference.Some? || m.meta.outputTokenLimitReached)
    ensures (forall k :: 0 <= k < |ms| ==> !TakesNote(ms[k], m)) ==>
              Pushed(ms, m) ==
              if m.meta.outputTokenLimitReached
              then ms + [m.(meta := m.meta.(userVisible := true, agentVisible := false))] else ms
    ensures forall i :: 0 <= i < |ms| && TakesNote(ms[i], m) && (forall k :: i < k < |ms| ==> !TakesNote(ms[k], m)) ==>
              Pushed(ms, m) == ms[i := ms[i].(meta := ms[i].meta.(
                inference := if m.meta.inference.Some? then m.meta.inference else ms[i].meta.inference,
                outputTokenLimitReached := ms[i].meta.outputTokenLimitReached || m.meta.outputTokenLimitReached))]
  {
    assert forall e :: TakesNote(e, m) <==> NoteFits(e, m);
  }

  /** Chunks of one block each, all with the id `id`. */
  predicate OneBlockChunks(chunks: seq<Message>, id: string) {
    forall i :: 0 <= i < |chunks| ==> |chunks[i].content| == 1 && chunks[i].id == Some(id)
  }

  /** Of chunks of one block each, both make the deltas of all blocks. */
  lemma {:induction false} SingleBlocksAgree(chunks: seq<Message>, id: string)
    requires chunks != [] && OneBlockChunks(chunks, id)
    ensures |PushAll(chunks)| == 1
    ensures PushAll(chunks)[0].content == Collected(chunks) == AddDeltas(Contents(chunks))
  {
    hide AddDelta, TextsApart;
    PushAgreesWithCollect(chunks, id);
    var n := |chunks| - 1;
    var c := chunks[n].content;
    assert c == [c[0]] && Contents(chunks) == Contents(chunks[..n]) + c;
    assert Contents(chunks)[..|Contents(chunks)| - 1] == Contents(chunks[..n]);
    if n == 0 {
      assert chunks[..0] == [];
      FirstDelta(c[0]);
    } else {
      assert OneBlockChunks(chunks[..n], id);
      SingleBlocksAgree(chunks[..n], id);
      SingleChunk(Collected(chunks[..n]), c);
    }
  }

  lemma FirstDelta(b: Block)
    ensures AddDelta(AddDeltas(Contents([])), b) == [b]
  {}

  // ---- What coalescing preserves ----

  function ThinkingText(bs: seq<Block>): string {
    if bs == [] then ""
    else ThinkingText(bs[..|bs| - 1]) + if bs[|bs| - 1].Thinking? then bs[|bs| - 1].thinking else ""
  }

  lemma ThinkingTextSnoc(bs: seq<Block>, b: Block)
    ensures ThinkingText(bs + [b]) == ThinkingText(bs) + if b.Thinking? then b.thinking else ""
  {
    assert (bs + [b])[..|bs|] == bs;
  }

  lemma AddDeltaConserves(bs: seq<Block>, b: Block, audience: Option<seq<Role>>)
    ensures TextFor(AddDelta(bs, b), audience)
         == TextFor(bs, audience) + if b.Text? && b.annotations.audience == audience then b.text else ""
    ensures ThinkingText(AddDelta(bs, b)) == ThinkingText(bs) + if b.Thinking? then b.thinking else ""
  {
    hide TextFor, ThinkingText;
    if bs != [] && Continues(bs[|bs| - 1], b) {
      var init, l := bs[..|bs| - 1], bs[|bs| - 1];
      var f := Fused(l, b);
      assert bs == init + [l];
      TextForSnoc(init, l, audience);
      TextForSnoc(init, f, audience);
      ThinkingTextSnoc(init, l);
      ThinkingTextSnoc(init, f);
      var t, h := TextFor(init, audience), ThinkingText(init);
      if l.Text? {
        assert (t + l.text) + b.text == t + (l.text + b.text);
        assert (t + "") + "" == t + "" && (h + "") + "" == h + "";
      } else {
        assert (h + l.thinking) + b.thinking == h + (l.thinking + b.thinking);
        assert (t + "") + "" == t + "";
      }
    } else {
      TextForSnoc(bs, b, audience);
      ThinkingTextSnoc(bs, b);
    }
  }

  /** The text of every audience and the thinking text are conserved, in order. */
  lemma {:induction false} DeltasConserve(bs: seq<Block>, audience: Option<seq<Role>>)
    ensures TextFor(AddDeltas(bs), audience) == TextFor(bs, audience)
    ensures ThinkingText(AddDeltas(bs)) == ThinkingText(bs)
  {
    hide AddDelta;
    if bs != [] {
      DeltasConserve(bs[..|bs| - 1], audience);
      AddDeltaConserves(AddDeltas(bs[..|bs| - 1]), bs[|bs| - 1], audience);
    }
  }

  /** The blocks that are neither text nor thinking, in order. */
  function OtherBlocks(bs: seq<Block>): seq<Block> {
    if bs == [] then []
    else
      var b := bs[|bs| - 1];
      OtherBlocks(bs[..|bs| - 1]) + if b.Text? || b.Thinking? then [] else [b]
  }

  lemma OtherBlocksSnoc(bs: seq<Block>, b: Block)
    ensures OtherBlocks(bs + [b]) == OtherBlocks(bs) + if b.Text? || b.Thinking? then [] else [b]
  {
    assert (bs + [b])[..|bs|] == bs;
  }

  /** What must come through: text by audience, thinking, and all other blocks. */
  predicate SameMatter(a: seq<Block>, b: seq<Block>, audience: Option<seq<Role>>) {
    && TextFor(a, audience) == TextFor(b, audience)
    && ThinkingText(a) == ThinkingText(b) && OtherBlocks(a) == OtherBlocks(b)
  }

  lemma CollectBlockConserves(prev: seq<Block>, whole: seq<Block>, b: Block, single: bool, audience: Option<seq<Role>>)
    requires SameMatter(prev, whole, audience)
    ensures SameMatter(CollectBlock(prev, b, single), whole + [b], audience)
  {
    hide TextFor, ThinkingText, OtherBlocks, AddDelta;
    TextForSnoc(whole, b, audience);
    ThinkingTextSnoc(whole, b);
    OtherBlocksSnoc(whole, b);
    if prev != [] && (SameAudience(prev[|prev| - 1], b) || (single && ThinkingContinues(prev[|prev| - 1], b))) {
      var init, l := prev[..|prev| - 1], prev[|prev| - 1];
      CollectIsDelta(prev, b, single);
      AddDeltaConserves(prev, b, audience);
      assert prev == init + [l];
      OtherBlocksSnoc(init, l);
      OtherBlocksSnoc(init, Fused(l, b));
    } else {
      TextForSnoc(prev, b, audience);
      ThinkingTextSnoc(prev, b);
      OtherBlocksSnoc(prev, b);
    }
  }

  lemma CollectIsDelta(prev: seq<Block>, b: Block, single: bool)
    requires prev != [] && (SameAudience(prev[|prev| - 1], b) || (single && ThinkingContinues(prev[|prev| - 1], b)))
    ensures CollectBlock(prev, b, single) == AddDelta(prev, b)
  {}

  lemma {:induction false} CollectChunkConserves(
    prev: seq<Block>, whole: seq<Block>, c: seq<Block>, single: bool, audience: Option<seq<Role>>)
    requires SameMatter(prev, whole, audience)
    ensures SameMatter(CollectChunk(prev, c, single), whole + c, audience)
  {
    hide SameMatter, CollectBlock;
    if c == [] {
      assert whole + c == whole;
    } else {
      var n := |c| - 1;
      CollectChunkConserves(prev, whole, c[..n], single, audience);
      CollectBlockConserves(CollectChunk(prev, c[..n], single), whole + c[..n], c[n], single, audience);
      assert (whole + c[..n]) + [c[n]] == whole + c;
    }
  }

  /** Whatever the chunks are like, `collect_stream` keeps the text of every
      audience, the thinking text and all other blocks, each in order. */
  lemma {:induction false} CollectConserves(chunks: seq<Message>, audience: Option<seq<Role>>)
    requires chunks != []
    ensures SameMatter(Collected(chunks), Contents(chunks), audience)
  {
    hide SameMatter, CollectChunk;
    var n := |chunks| - 1;
    var c := chunks[n].content;
    if n == 0 {
      assert chunks[..0] == [];
      assert Contents([]) == [] && [] + c == c;
      SameIsSame(c, audience);
    } else {
      CollectConserves(chunks[..n], audience);
      CollectChunkConserves(Collected(chunks[..n]), Contents(chunks[..n]), c, |c| == 1, audience);
    }
  }

  lemma SameIsSame(bs: seq<Block>, audience: Option<seq<Role>>)
    ensures SameMatter(bs, bs, audience)
  {}

  /** A run of deltas that may become one block: one audience; or thinking in
      which everything after a signed delta carries that same signature. */
  predicate Coherent(run: seq<Block>) {
    && run != []
    && (|run| == 1
        || (forall i :: 0 <= i < |run| ==> SameAudience(run[0], run[i]))
        || ((forall i :: 0 <= i < |run| ==> run[i].Thinking?)
            && forall i, j :: 0 <= i < j < |run| && run[i].signature != "" ==> run[j].signature == run[i].signature))
  }

  /** The single block such a run becomes. */
  function FuseRun(run: seq<Block>): Block
    requires run != []
  {
    if |run| == 1 then run[0]
    else
      var l := FuseRun(run[..|run| - 1]);
      if Continues(l, run[|run| - 1]) then Fused(l, run[|run| - 1]) else l
  }

  predicate IsRuns(runs: seq<seq<Block>>, out: seq<Block>) {
    && |runs| == |out|
    && forall i :: 0 <= i < |runs| ==> Coherent(runs[i]) && FuseRun(runs[i]) == out[i]
  }

  /** The signature of a fused thinking run is the last one set in it. */
  lemma {:induction false} FusedSignature(run: seq<Block>)
    requires Coherent(run) && run[0].Thinking?
    ensures FuseRun(run).Thinking?
    ensures forall i :: 0 <= i < |run| ==> run[i].Thinking?
    ensures forall i :: 0 <= i < |run| && run[i].signature != "" ==> FuseRun(run).signature == run[i].signature
    ensures FuseRun(run).signature != "" ==> exists i :: 0 <= i < |run| && run[i].signature == FuseRun(run).signature
  {
    if |run| > 1 {
      var n := |run| - 1;
      var init, b := run[..n], run[n];
      assert Coherent(init) by {
        assert forall i :: 0 <= i < n ==> init[i] == run[i];
      }
      FusedSignature(init);
      var l := FuseRun(init);
      if l.signature != "" {
        var i :| 0 <= i < |init| && init[i].signature == l.signature;
        assert init[i] == run[i];
      }
      assert ThinkingContinues(l, b);
      assert FuseRun(run) == Fused(l, b);
    }
  }

  lemma {:induction false} FusedAudience(run: seq<Block>)
    requires Coherent(run) && run[0].Text?
    ensures FuseRun(run).Text? && FuseRun(run).annotations == run[0].annotations
  {
    if |run| > 1 {
      var n := |run| - 1;
      assert Coherent(run[..n]) by {
        assert forall i :: 0 <= i < n ==> run[..n][i] == run[i];
      }
      FusedAudience(run[..n]);
    }
  }

  lemma FuseSnoc(run: seq<Block>, b: Block)
    requires run != [] && Continues(FuseRun(run), b)
    ensures FuseRun(run + [b]) == Fused(FuseRun(run), b)
  {
    assert (run + [b])[..|run|] == run;
  }

  lemma {:induction false} FuseKind(run: seq<Block>)
    requires run != []
    ensures FuseRun(run).Text? == run[0].Text? && FuseRun(run).Thinking? == run[0].Thinking?
  {
    if |run| > 1 { FuseKind(run[..|run| - 1]); }
  }

  /** A run that its next delta continues stays coherent. */
  lemma RunGrows(run: seq<Block>, b: Block)
    requires Coherent(run) && Continues(FuseRun(run), b)
    ensures Coherent(run + [b])
  {
    var r := run + [b];
    FuseKind(run);
    if run[0].Text? {
      FusedAudience(run);
      forall i | 0 <= i < |r| ensures SameAudience(r[0], r[i]) {
        if i < |run| { assert r[i] == run[i]; }
      }
    } else {
      FusedSignature(run);
      forall i | 0 <= i < |r| ensures r[i].Thinking? {
        if i < |run| { assert r[i] == run[i]; }
      }
      forall i, j | 0 <= i < j < |r| && r[i].signature != "" ensures r[j].signature == r[i].signature {
        assert r[i] == run[i];
        if j < |run| { assert r[j] == run[j]; }
      }
    }
  }

  /** The stream falls into coherent runs, in order and without remainder, and
      each block of the result is the fusion of one of them: a signed thinking
      block never takes in a delta that is unsigned or signed otherwise. */
  lemma {:induction false} DeltasAreRuns(bs: seq<Block>) returns (runs: seq<seq<Block>>)
    ensures Flat(runs) == bs && IsRuns(runs, AddDeltas(bs))
  {
    hide Coherent, FuseRun, Continues, IsRuns, Flat;
    if bs == [] {
      runs := [];
      NoRuns();
    } else {
      var n := |bs| - 1;
      var b := bs[n];
      var rs := DeltasAreRuns(bs[..n]);
      var out := AddDeltas(bs[..n]);
      assert bs == bs[..n] + [b];
      if out != [] && Continues(out[|out| - 1], b) {
        runs := ExtendRun(rs, out, b);
      } else {
        runs := rs + [[b]];
        FlatSnoc(rs, [b]);
        NewRun(rs, out, b);
      }
    }
  }

  lemma NoRuns()
    ensures Flat<Block>([]) == [] && IsRuns([], [])
  {}

  lemma NewRun(rs: seq<seq<Block>>, out: seq<Block>, b: Block)
    requires IsRuns(rs, out)
    ensures IsRuns(rs + [[b]], out + [b])
  {
    assert Coherent([b]) && FuseRun([b]) == b;
    hide Coherent, FuseRun;
  }

  lemma ExtendRun(rs: seq<seq<Block>>, out: seq<Block>, b: Block) returns (runs: seq<seq<Block>>)
    requires IsRuns(rs, out) && out != [] && Continues(out[|out| - 1], b)
    ensures Flat(runs) == Flat(rs) + [b]
    ensures IsRuns(runs, out[..|out| - 1] + [Fused(out[|out| - 1], b)])
  {
    hide Coherent, FuseRun, Continues;
    var k := |rs| - 1;
    var init, r := rs[..k], rs[k];
    assert rs == init + [r] && Coherent(r);
    CoherentIsNotEmpty(r);
    assert FuseRun(r) == out[k];
    RunGrows(r, b);
    FuseSnoc(r, b);
    runs := init + [r + [b]];
    FlatSnoc(init, r);
    FlatSnoc(init, r + [b]);
    assert (Flat(init) + r) + [b] == Flat(init) + (r + [b]);
  }

  lemma CoherentIsNotEmpty(run: seq<Block>)
    requires Coherent(run)
    ensures run != []
  {}

  /** With several blocks in a chunk the two do differ: `collect_stream` joins the
      first text of the chunk to what came before, `push` does not. */
  lemma MultiBlockChunksDiffer()
    ensures var plain := Annotations(None, 0);
            var a := Message(Some("m"), Assistant, [Text("x", plain)], DEFAULT_METADATA);
            var b := a.(content := [Text("y", plain), Image(0)]);
            PushAll([a, b])[0].content != Collected([a, b])
  {
    var plain := Annotations(None, 0);
    var a := Message(Some("m"), Assistant, [Text("x", plain)], DEFAULT_METADATA);
    var b := a.(content := [Text("y", plain), Image(0)]);
    assert [a, b][..1] == [a];
    OnePushed(a);
    assert PushAll([a, b])[0].content == a.content + b.content;
    TwoCollected(Text("x", plain), Text("y", plain), Image(0));
  }

  lemma OnePushed(a: Message)
    requires !IsNote(a)
    ensures PushAll([a]) == [a]
  {
    assert [a][..0] == [];
    assert PushAll([]) == [];
  }

  lemma TwoCollected(x: Block, y: Block, z: Block)
    requires SameAudience(x, y)
    ensures |CollectChunk([x], [y, z], false)| <= 2
  {
    assert [y, z][..1] == [y] && [y][..0] == [] && [x][..0] == [];
    assert CollectChunk([x], [], false) == [x];
    assert CollectChunk([x], [y], false) == [] + [Fused(x, y)];
  }
}
