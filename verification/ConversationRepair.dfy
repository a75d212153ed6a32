/** The nine repair passes, the pipeline that folds them, and the shadow map
    that puts hidden messages back (conversation.rs). */
module ConversationRepair {
  import opened Common
  import opened Text
  import opened Messages
  import opened ToolCalling
  import opened MessageMerge

  // ---- Passes that rewrite each message on its own ----

  function MapFix<T>(f: T -> (T, seq<string>), s: seq<T>): Fixed<T> {
    if s == [] then Fixed([], [])
    else
      var c := MapFix(f, s[..|s| - 1]);
      var (x, more) := f(s[|s| - 1]);
      Fixed(c.kept + [x], c.issues + more)
  }

  lemma {:induction false} MapFixAt<T>(f: T -> (T, seq<string>), s: seq<T>)
    ensures var r := MapFix(f, s);
            && |r.kept| == |s|
            && (forall i :: 0 <= i < |s| ==> r.kept[i] == f(s[i]).0)
            && (r.issues == [] <==> forall i :: 0 <= i < |s| ==> f(s[i]).1 == [])
  {
    if s != [] {
      var n := |s| - 1;
      MapFixAt(f, s[..n]);
      assert forall i :: 0 <= i < n ==> s[..n][i] == s[i];
    }
  }

  /** `f` reports nothing exactly where `ok` holds, and then changes nothing. */
  ghost predicate Honest<T(!new)>(f: T -> (T, seq<string>), ok: T -> bool) {
    forall x :: (f(x).1 == [] <==> ok(x)) && (ok(x) ==> f(x).0 == x)
  }

  lemma MapFixExact<T(!new)>(f: T -> (T, seq<string>), ok: T -> bool, s: seq<T>)
    requires Honest(f, ok)
    ensures MapFix(f, s).issues == [] <==> forall i :: 0 <= i < |s| ==> ok(s[i])
    ensures MapFix(f, s).issues == [] ==> MapFix(f, s).kept == s
  {
    MapFixAt(f, s);
    assert forall i :: 0 <= i < |s| ==> (f(s[i]).1 == [] <==> ok(s[i])) && (ok(s[i]) ==> f(s[i]).0 == s[i]);
  }

  function MergeMessageTexts(m: Message): (Message, seq<string>) {
    if m.role != Assistant then (m, [])
    else
      var c := MergeTexts(m.content);
      (m.(content := c), if |c| != |m.content| then ["Merged text content"] else [])
  }

  predicate TextsMerged(m: Message) { m.role == Assistant ==> TextsApart(m.content) }

  lemma MergeMessageTextsHonest()
    ensures Honest(MergeMessageTexts, TextsMerged)
  {
    hide TextsApart;
    forall m: Message
      ensures (MergeMessageTexts(m).1 == [] <==> TextsMerged(m)) && (TextsMerged(m) ==> MergeMessageTexts(m).0 == m)
    {
      MergeTextsExact(m.content);
    }
  }

  function TrimBlock(b: Block): (Block, seq<string>) {
    if b.Text? && TrimEnd(b.text) != b.text
    then (b.(text := TrimEnd(b.text)), ["Trimmed trailing whitespace from assistant message"])
    else (b, [])
  }

  /** Only white space at the end of a text is cut off, all of it, and nothing else
      of any block is touched. */
  lemma TrimBlockExact(b: Block)
    ensures !b.Text? ==> TrimBlock(b).0 == b
    ensures b.Text? ==>
              var r := TrimBlock(b).0;
              && r.Text? && r.annotations == b.annotations && r.text <= b.text
              && (forall i :: |r.text| <= i < |b.text| ==> IsWhitespace(b.text[i]))
              && (r.text == "" || !IsWhitespace(r.text[|r.text| - 1]))
  {}

  predicate BlockTrimmed(b: Block) { b.Text? ==> !EndsInSpace(b.text) }

  lemma TrimBlockHonest()
    ensures Honest(TrimBlock, BlockTrimmed)
  {
    forall b: Block ensures (TrimBlock(b).1 == [] <==> BlockTrimmed(b)) && (BlockTrimmed(b) ==> TrimBlock(b).0 == b) {
      if b.Text? && EndsInSpace(b.text) {
        assert TrimEnd(b.text) != b.text;
      }
    }
  }

  function TrimMessage(m: Message): (Message, seq<string>) {
    if m.role != Assistant then (m, [])
    else
      var r := MapFix(TrimBlock, m.content);
      (m.(content := r.kept), r.issues)
  }

  predicate MessageTrimmed(m: Message) {
    m.role == Assistant ==> forall i :: 0 <= i < |m.content| ==> BlockTrimmed(m.content[i])
  }

  lemma TrimMessageHonest()
    ensures Honest(TrimMessage, MessageTrimmed)
  {
    TrimBlockHonest();
    forall m: Message
      ensures (TrimMessage(m).1 == [] <==> MessageTrimmed(m)) && (MessageTrimmed(m) ==> TrimMessage(m).0 == m)
    {
      MapFixExact(TrimBlock, BlockTrimmed, m.content);
    }
  }

  predicate Meaningful(x: ResultItem) {
    match x
    case ResultText(t) => t != ""
    case ResultResource(t) => t != ""
    case ResultImage => true
    case ResultOther => false
  }

  predicate HasContent(items: seq<ResultItem>) { exists i :: 0 <= i < |items| && Meaningful(items[i]) }

  const PLACEHOLDER_RESULT := ResultText("(empty result)")

  function FillBlock(b: Block): (Block, seq<string>) {
    if b.ToolResponse? && b.result.Ok? && !HasContent(b.result.items)
    then (b.(result := Ok(b.result.items + [PLACEHOLDER_RESULT])),
          ["Added placeholder to empty tool result '" + b.id + "'"])
    else (b, [])
  }

  /** An image, or a text or resource that is not empty. */
  predicate Tells(x: ResultItem) {
    x.ResultImage? || ((x.ResultText? || x.ResultResource?) && x.text != "")
  }

  /** A successful result in which nothing tells anything gets one more item, the
      placeholder, behind those it has; no other block is touched. */
  lemma FillBlockExact(b: Block)
    ensures var silent := b.ToolResponse? && b.result.Ok? && forall x :: x in b.result.items ==> !Tells(x);
            FillBlock(b).0 ==
            if silent then ToolResponse(b.id, Ok(b.result.items + [ResultText("(empty result)")])) else b
  {
    if b.ToolResponse? && b.result.Ok? {
      var items := b.result.items;
      if HasContent(items) {
        var i :| 0 <= i < |items| && Meaningful(items[i]);
        assert items[i] in items && Tells(items[i]);
      } else {
        forall x | x in items ensures !Tells(x) {
          var i :| 0 <= i < |items| && items[i] == x;
          assert !Meaningful(items[i]);
        }
      }
    }
  }

  predicate BlockFilled(b: Block) { b.ToolResponse? && b.result.Ok? ==> HasContent(b.result.items) }

  lemma FillBlockHonest()
    ensures Honest(FillBlock, BlockFilled)
    ensures forall b :: BlockFilled(FillBlock(b).0)
  {
    forall b ensures BlockFilled(FillBlock(b).0) {
      if b.ToolResponse? && b.result.Ok? && !HasContent(b.result.items) {
        var items := b.result.items + [PLACEHOLDER_RESULT];
        assert Meaningful(items[|items| - 1]);
      }
    }
  }

  function FillMessage(m: Message): (Message, seq<string>) {
    var r := MapFix(FillBlock, m.content);
    (m.(content := r.kept), r.issues)
  }

  predicate ResultsFilled(m: Message) { forall i :: 0 <= i < |m.content| ==> BlockFilled(m.content[i]) }

  lemma FillMessageHonest()
    ensures Honest(FillMessage, ResultsFilled)
  {
    FillBlockHonest();
    forall m: Message
      ensures (FillMessage(m).1 == [] <==> ResultsFilled(m)) && (ResultsFilled(m) ==> FillMessage(m).0 == m)
    {
      MapFixExact(FillBlock, BlockFilled, m.content);
    }
  }

  // ---- Removing empty messages ----

  predicate NotEmpty(m: Message) { !AllEmptyText(m.content) }

  lemma {:induction false} RemoveEmptyExact(ms: seq<Message>)
    ensures RemoveEmpty(ms).issues == [] <==> forall i :: 0 <= i < |ms| ==> NotEmpty(ms[i])
    ensures RemoveEmpty(ms).issues == [] ==> RemoveEmpty(ms).kept == ms
    ensures |RemoveEmpty(ms).kept| <= |ms|
  {
    hide AllEmptyText;
    if ms != [] {
      var n := |ms| - 1;
      var init := ms[..n];
      RemoveEmptyExact(init);
      assert ms == init + [ms[n]];
      if RemoveEmpty(init).issues == [] {
        forall i | 0 <= i < n ensures NotEmpty(ms[i]) { assert NotEmpty(init[i]); }
      } else {
        var i :| 0 <= i < n && !NotEmpty(init[i]);
        assert !NotEmpty(ms[i]);
      }
    }
  }

  // ---- Tool calling ----

  ghost predicate AllSurvive(t: seq<Item>) { forall j :: 0 <= j < |t| ==> Survives(t, j) }

  lemma {:induction false} CleanBlocksCount(role: Role, bs: seq<Block>, pending: set<string>)
    ensures var c := CleanBlocks(role, bs, pending);
            |c.issues| == |bs| - |c.kept| && (c.issues == [] ==> c.kept == bs)
  {
    if bs != [] {
      CleanBlocksCount(role, bs[..|bs| - 1], pending);
      assert bs == bs[..|bs| - 1] + [bs[|bs| - 1]];
    }
  }

  lemma NoItems()
    ensures Items([]) == []
  {}

  lemma {:induction false} CleanMessagesCount(ms: seq<Message>)
    ensures var c := CleanMessages(ms);
            && |c.issues| == |Items(ms)| - |Items(c.kept)|
            && (c.issues == [] ==> c.kept == ms) && |c.kept| == |ms|
  {
    hide CleanBlocks, Items;
    if ms == [] {
      NoItems();
    } else {
      var n := |ms| - 1;
      var m := ms[n];
      var c := CleanMessages(ms[..n]);
      CleanMessagesCount(ms[..n]);
      CleanBlocksCount(m.role, m.content, c.pending);
      ItemsSnoc(c.kept, m.(content := CleanBlocks(m.role, m.content, c.pending).kept));
      assert ms == ms[..n] + [m];
      ItemsSnoc(ms[..n], m);
    }
  }

  lemma {:induction false} DropPendingCount(role: Role, bs: seq<Block>, pending: set<string>)
    ensures var c := DropPending(role, bs, pending);
            |c.issues| == |bs| - |c.kept| && (c.issues == [] ==> c.kept == bs)
  {
    if bs != [] {
      DropPendingCount(role, bs[..|bs| - 1], pending);
      assert bs == bs[..|bs| - 1] + [bs[|bs| - 1]];
    }
  }

  lemma {:induction false} DropOrphansCount(ms: seq<Message>, pending: set<string>)
    ensures var c := DropOrphans(ms, pending);
            && |c.issues| == |Items(ms)| - |Items(c.kept)|
            && (c.issues == [] ==> c.kept == ms) && |c.kept| == |ms|
  {
    hide DropPending, Items;
    if ms == [] {
      NoItems();
    } else {
      var n := |ms| - 1;
      var m := ms[n];
      var c := DropOrphans(ms[..n], pending);
      DropOrphansCount(ms[..n], pending);
      DropPendingCount(m.role, m.content, pending);
      ItemsSnoc(c.kept, m.(content := DropPending(m.role, m.content, pending).kept));
      assert ms == ms[..n] + [m];
      ItemsSnoc(ms[..n], m);
    }
  }

  lemma {:induction false} SurvivorsCount(t: seq<Item>, n: nat)
    requires n <= |t|
    ensures |Survivors(t, n)| <= n
    ensures |Survivors(t, n)| == n <==> forall j :: 0 <= j < n ==> Survives(t, j)
  {
    hide Survives;
    if n > 0 { SurvivorsCount(t, n - 1); }
  }

  /** `fix_tool_calling` reports nothing exactly when every item survives and no
      message is empty. */
  lemma FixToolCallingReports(ms: seq<Message>)
    ensures FixToolCalling(ms).issues == [] <==> AllSurvive(Items(ms)) && forall i :: 0 <= i < |ms| ==> NotEmpty(ms[i])
    ensures FixToolCalling(ms).issues == [] ==> FixToolCalling(ms).kept == ms
    ensures |FixToolCalling(ms).kept| <= |ms|
  {
    hide Survives, Feed, NotEmpty;
    var t := Items(ms);
    var a := CleanMessages(ms);
    var b := DropOrphans(a.kept, a.pending);
    CleanMessagesCount(ms);
    DropOrphansCount(a.kept, a.pending);
    RemoveEmptyExact(b.kept);
    CleanMessagesFeeds(ms);
    DropOrphansItems(a.kept, a.pending);
    assert t[..|t|] == t;
    PassesKeepSurvivors(t, |t|, a.pending);
    SurvivorsCount(t, |t|);
  }

  // ---- Duplicate signed thinking ----

  predicate IsSigned(b: Block) { (b.Thinking? && b.signature != "") || b.RedactedThinking? }

  datatype Deduped = Deduped(kept: seq<Block>, seen: seq<Block>)

  function DedupeBlocks(bs: seq<Block>, seen: seq<Block>): Deduped {
    if bs == [] then Deduped([], seen)
    else
      var d := DedupeBlocks(bs[..|bs| - 1], seen);
      var b := bs[|bs| - 1];
      if !IsSigned(b) then Deduped(d.kept + [b], d.seen)
      else if b in d.seen then d
      else Deduped(d.kept + [b], d.seen + [b])
  }

  datatype DedupedMessages = DedupedMessages(kept: seq<Message>, seen: seq<Block>, issues: seq<string>)

  const DEDUPE_ISSUE := "Removed duplicate signed thinking block"

  function DedupeMessages(ms: seq<Message>): DedupedMessages {
    if ms == [] then DedupedMessages([], [], [])
    else
      var d := DedupeMessages(ms[..|ms| - 1]);
      var m := ms[|ms| - 1];
      if m.role != Assistant then d.(kept := d.kept + [m])
      else
        var e := DedupeBlocks(m.content, d.seen);
        DedupedMessages(
          d.kept + [m.(content := e.kept)], e.seen,
          if |e.kept| != |m.content| then d.issues + [DEDUPE_ISSUE] else d.issues)
  }

  method DedupeSignedThinking(messages: seq<Message>) returns (fixed: seq<Message>, issues: seq<string>)
    ensures fixed == DedupeMessages(messages).kept && issues == DedupeMessages(messages).issues
  {
    fixed, issues := [], [];
    var seen: seq<Block> := [];
    var i := 0;
    while i < |messages|
      invariant 0 <= i <= |messages|
      invariant DedupeMessages(messages[..i]) == DedupedMessages(fixed, seen, issues)
    {
      var message := messages[i];
      assert messages[..i + 1][..i] == messages[..i];
      if message.role == Assistant {
        var deduped: seq<Block> := [];
        ghost var seen0 := seen;
        var j := 0;
        while j < |message.content|
          invariant 0 <= j <= |message.content|
          invariant DedupeBlocks(message.content[..j], seen0) == Deduped(deduped, seen)
        {
          var content := message.content[j];
          assert message.content[..j + 1][..j] == message.content[..j];
          var isSigned := IsSigned(content);
          if !(isSigned && content in seen) {
            if isSigned { seen := seen + [content]; }
            deduped := deduped + [content];
          }
          j := j + 1;
        }
        assert message.content[..j] == message.content;
        DedupeBlocksShrink(message.content, seen0);
        if |deduped| != |message.content| {
          issues := issues + [DEDUPE_ISSUE];
          message := message.(content := deduped);
        }
      }
      fixed := fixed + [message];
      i := i + 1;
    }
    assert messages[..i] == messages;
  }

  lemma {:induction false} DedupeBlocksShrink(bs: seq<Block>, seen: seq<Block>)
    ensures var d := DedupeBlocks(bs, seen);
            |d.kept| <= |bs| && (|d.kept| == |bs| ==> d.kept == bs)
  {
    if bs != [] {
      DedupeBlocksShrink(bs[..|bs| - 1], seen);
      assert bs == bs[..|bs| - 1] + [bs[|bs| - 1]];
    }
  }

  predicate IsSignedItem(x: Item) { x.role == Assistant && IsSigned(x.block) }

  /** The signed blocks of assistant messages, in order. */
  function SignedOf(t: seq<Item>): seq<Block> {
    if t == [] then []
    else SignedOf(t[..|t| - 1]) + if IsSignedItem(t[|t| - 1]) then [t[|t| - 1].block] else []
  }

  /** Everything else, in order. */
  function UnsignedOf(t: seq<Item>): seq<Item> {
    if t == [] then []
    else UnsignedOf(t[..|t| - 1]) + if IsSignedItem(t[|t| - 1]) then [] else [t[|t| - 1]]
  }

  lemma {:induction false} SignedConcat(t: seq<Item>, u: seq<Item>)
    ensures SignedOf(t + u) == SignedOf(t) + SignedOf(u)
    ensures UnsignedOf(t + u) == UnsignedOf(t) + UnsignedOf(u)
  {
    if u == [] {
      assert t + u == t;
    } else {
      assert (t + u)[..|t + u| - 1] == t + u[..|u| - 1];
      SignedConcat(t, u[..|u| - 1]);
    }
  }

  lemma NoDupSnoc<T>(s: seq<T>, x: T)
    ensures NoDup(s + [x]) <==> NoDup(s) && x !in s
  {
    var r := s + [x];
    if NoDup(r) {
      forall i, j | 0 <= i < j < |s| ensures s[i] != s[j] { assert r[i] == s[i] && r[j] == s[j]; }
      forall i | 0 <= i < |s| ensures s[i] != x { assert r[i] != r[|s|]; }
    }
  }

  lemma SignedSnoc(bs: seq<Block>)
    requires bs != []
    ensures var n := |bs| - 1;
            SignedOf(ItemsOf(Assistant, bs))
            == SignedOf(ItemsOf(Assistant, bs[..n])) + if IsSigned(bs[n]) then [bs[n]] else []
    ensures var n := |bs| - 1;
            UnsignedOf(ItemsOf(Assistant, bs))
            == UnsignedOf(ItemsOf(Assistant, bs[..n])) + if IsSigned(bs[n]) then [] else [Item(Assistant, bs[n])]
  {
    var n := |bs| - 1;
    assert ItemsOf(Assistant, bs)[..n] == ItemsOf(Assistant, bs[..n]);
  }

  /** What one message contributes: the record of seen blocks stays free of
      duplicates, and the message is untouched exactly when it brings none. */
  lemma {:induction false} DedupeBlocksSpec(bs: seq<Block>, seen: seq<Block>)
    requires NoDup(seen)
    ensures var d := DedupeBlocks(bs, seen);
            && NoDup(d.seen)
            && d.seen == seen + SignedOf(ItemsOf(Assistant, d.kept))
            && UnsignedOf(ItemsOf(Assistant, d.kept)) == UnsignedOf(ItemsOf(Assistant, bs))
            && (forall b :: b in d.seen <==> b in seen || b in SignedOf(ItemsOf(Assistant, bs)))
            && (|d.kept| == |bs| <==> NoDup(seen + SignedOf(ItemsOf(Assistant, bs))))
            && (|d.kept| == |bs| ==> d.seen == seen + SignedOf(ItemsOf(Assistant, bs)))
  {
    hide NoDup, SignedOf, UnsignedOf;
    if bs == [] {
      NothingSigned();
      assert seen + [] == seen;
    } else {
      var n := |bs| - 1;
      var b := bs[n];
      var d := DedupeBlocks(bs[..n], seen);
      DedupeBlocksSpec(bs[..n], seen);
      DedupeBlocksShrink(bs[..n], seen);
      SignedSnoc(bs);
      var k := d.kept + [b];
      assert k[..|k| - 1] == d.kept;
      SignedSnoc(k);
      var s := SignedOf(ItemsOf(Assistant, bs[..n]));
      if IsSigned(b) {
        NoDupSnoc(d.seen, b);
        NoDupSnoc(seen + s, b);
        assert seen + (s + [b]) == (seen + s) + [b];
        var k := SignedOf(ItemsOf(Assistant, d.kept));
        assert seen + (k + [b]) == (seen + k) + [b];
        forall x ensures x in seen + s <==> x in d.seen {}
      } else {
        assert s + [] == s;
        assert SignedOf(ItemsOf(Assistant, d.kept)) + [] == SignedOf(ItemsOf(Assistant, d.kept));
      }
    }
  }

  lemma NothingSigned()
    ensures SignedOf(ItemsOf(Assistant, [])) == [] && UnsignedOf(ItemsOf(Assistant, [])) == []
  {}

  lemma {:induction false} UserSignsNothing(bs: seq<Block>)
    ensures SignedOf(ItemsOf(User, bs)) == []
  {
    if bs != [] {
      assert ItemsOf(User, bs)[..|bs| - 1] == ItemsOf(User, bs[..|bs| - 1]);
      UserSignsNothing(bs[..|bs| - 1]);
    }
  }

  predicate SignedDistinct(ms: seq<Message>) { NoDup(SignedOf(Items(ms))) }

  /** Deduplication keeps every signed block once and everything else in place,
      and reports nothing exactly when there were no duplicates. */
  lemma {:induction false} DedupeExact(ms: seq<Message>)
    ensures var d := DedupeMessages(ms);
            && |d.kept| == |ms|
            && NoDup(d.seen) && d.seen == SignedOf(Items(d.kept))
            && UnsignedOf(Items(d.kept)) == UnsignedOf(Items(ms))
            && (forall b :: b in d.seen <==> b in SignedOf(Items(ms)))
            && (d.issues == [] <==> SignedDistinct(ms))
            && (d.issues == [] ==> d.kept == ms)
  {
    hide NoDup, SignedOf, UnsignedOf, DedupeBlocks;
    if ms == [] {
      NothingSigned();
      NoDupNothing<Block>();
    } else {
      var n := |ms| - 1;
      var m := ms[n];
      var d := DedupeMessages(ms[..n]);
      DedupeExact(ms[..n]);
      assert ms == ms[..n] + [m];
      SignedConcat(Items(ms[..n]), ItemsOf(m.role, m.content));
      if m.role == Assistant {
        DedupeAssistant(d.kept, d.seen, m, SignedOf(Items(ms[..n])));
        var e := DedupeBlocks(m.content, d.seen);
        DedupeBlocksShrink(m.content, d.seen);
        ItemsSnoc(d.kept, m.(content := e.kept));
        SignedConcat(Items(d.kept), ItemsOf(Assistant, e.kept));
        if d.issues != [] { NoDupPrefix(SignedOf(Items(ms[..n])), SignedOf(ItemsOf(Assistant, m.content))); }
      } else {
        ItemsSnoc(d.kept, m);
        SignedConcat(Items(d.kept), ItemsOf(m.role, m.content));
        UserSignsNothing(m.content);
        assert d.seen + [] == d.seen && SignedOf(Items(ms[..n])) + [] == SignedOf(Items(ms[..n]));
      }
    }
  }

  lemma NoDupNothing<T>()
    ensures NoDup<T>([])
  {}

  lemma NoDupPrefix<T>(s: seq<T>, t: seq<T>)
    requires !NoDup(s)
    ensures !NoDup(s + t)
  {
    var i, j :| 0 <= i < j < |s| && s[i] == s[j];
    assert (s + t)[i] == s[i] && (s + t)[j] == s[j];
  }

  lemma DedupeAssistant(kept: seq<Message>, seen: seq<Block>, m: Message, signed: seq<Block>)
    requires NoDup(seen) && seen == SignedOf(Items(kept))
    requires forall b :: b in seen <==> b in signed
    ensures var e := DedupeBlocks(m.content, seen);
            && NoDup(e.seen) && e.seen == SignedOf(Items(kept)) + SignedOf(ItemsOf(Assistant, e.kept))
            && UnsignedOf(ItemsOf(Assistant, e.kept)) == UnsignedOf(ItemsOf(Assistant, m.content))
            && (forall b :: b in e.seen <==> b in signed + SignedOf(ItemsOf(Assistant, m.content)))
            && (|e.kept| == |m.content| <==> NoDup(seen + SignedOf(ItemsOf(Assistant, m.content))))
  {
    hide NoDup, SignedOf, UnsignedOf, DedupeBlocks, Items;
    DedupeBlocksSpec(m.content, seen);
  }

  // ---- Ends of the list ----

  function DropLead(ms: seq<Message>): seq<Message> {
    if ms != [] && ms[0].role == Assistant then ms[1..] else ms
  }

  function DropTrail(ms: seq<Message>): seq<Message> {
    if ms != [] && ms[|ms| - 1].role == Assistant then ms[..|ms| - 1] else ms
  }

  function FixLeadTrail(ms: seq<Message>): Fixed<Message> {
    var a := DropLead(ms);
    Fixed(DropTrail(a),
          (if a != ms then ["Removed leading assistant message"] else [])
          + if DropTrail(a) != a then ["Removed trailing assistant message"] else [])
  }

  predicate EndsAreUser(ms: seq<Message>) {
    ms != [] ==> ms[0].role == User && ms[|ms| - 1].role == User
  }

  lemma FixLeadTrailExact(ms: seq<Message>)
    ensures FixLeadTrail(ms).issues == [] <==> EndsAreUser(ms)
    ensures FixLeadTrail(ms).issues == [] ==> FixLeadTrail(ms).kept == ms
    ensures |FixLeadTrail(ms).kept| <= |ms|
  {
    if ms != [] && ms[0].role == Assistant { assert |ms[1..]| != |ms|; }
    var a := DropLead(ms);
    if a != [] && a[|a| - 1].role == Assistant { assert |a[..|a| - 1]| != |a|; }
  }

  /** Where the messages that stay begin, and where they end. */
  function KeptFrom(ms: seq<Message>): (n: nat)
    ensures n <= |ms|
  {
    if ms != [] && ms[0].role == Assistant then 1 else 0
  }

  function KeptTo(ms: seq<Message>): (n: nat)
    ensures KeptFrom(ms) <= n <= |ms|
  {
    if |ms| > KeptFrom(ms) && ms[|ms| - 1].role == Assistant then |ms| - 1 else |ms|
  }

  lemma LeadTrailKeeps(ms: seq<Message>)
    ensures FixLeadTrail(ms).kept == ms[KeptFrom(ms)..KeptTo(ms)]
  {}

  predicate TwoLead(ms: seq<Message>) { |ms| >= 2 && ms[0].role == Assistant && ms[1].role == Assistant }

  predicate TwoTrail(ms: seq<Message>) {
    |ms| >= 2 && ms[|ms| - 1].role == Assistant && ms[|ms| - 2].role == Assistant
  }

  /** Only one message is removed at each end: nothing stays of at most two
      messages that are all of the assistant, and of any other list the ends are
      right exactly when no two assistant messages stood there. */
  lemma LeadTrailEnds(ms: seq<Message>)
    ensures FixLeadTrail(ms).kept == [] <==> |ms| <= 2 && forall i :: 0 <= i < |ms| ==> ms[i].role == Assistant
    ensures FixLeadTrail(ms).kept != [] ==>
              var r := FixLeadTrail(ms).kept;
              && (r[0].role == User <==> !TwoLead(ms))
              && (r[|r| - 1].role == User <==> !TwoTrail(ms))
  {
    if |ms| == 2 { assert ms[1..] == [ms[1]] && ms[1..][..0] == []; }
    if |ms| == 1 { assert ms[1..] == []; }
    var a := DropLead(ms);
    if |a| == 1 { assert a[..0] == []; }
  }

  const PLACEHOLDER := Message(None, User, [Text("Hello", Annotations(None, 0))], DEFAULT_METADATA)

  function PopulateIfEmpty(ms: seq<Message>): Fixed<Message> {
    if ms == [] then Fixed([PLACEHOLDER], ["Added placeholder user message to empty conversation"])
    else Fixed(ms, [])
  }

  // ---- The pipeline ----

  function BeforeMerge(ms: seq<Message>): Fixed<Message> {
    var a := MapFix(MergeMessageTexts, ms);
    var b := MapFix(TrimMessage, a.kept);
    var c := RemoveEmpty(b.kept);
    var d := MapFix(FillMessage, c.kept);
    var e := FixToolCalling(d.kept);
    Fixed(e.kept, a.issues + b.issues + c.issues + d.issues + e.issues)
  }

  function AfterMerge(ms: seq<Message>): Fixed<Message> {
    var f := Merge(ms, false);
    var g := DedupeMessages(f);
    var h := FixLeadTrail(g.kept);
    var k := PopulateIfEmpty(h.kept);
    Fixed(k.kept, MergeIssues(ms, false) + g.issues + h.issues + k.issues)
  }

  function FixMessages(ms: seq<Message>): Fixed<Message> {
    var a := BeforeMerge(ms);
    var b := AfterMerge(a.kept);
    Fixed(b.kept, a.issues + b.issues)
  }

  /** `Conversation::new`: the messages are accepted when the repair finds nothing. */
  predicate Accepts(ms: seq<Message>) { FixMessages(ms).issues == [] }

  /** A conversation a provider can take, with no reference to the passes. */
  ghost predicate WellFormed(ms: seq<Message>) {
    && ms != []
    && (forall i :: 0 <= i < |ms| ==>
          TextsMerged(ms[i]) && MessageTrimmed(ms[i]) && NotEmpty(ms[i]) && ResultsFilled(ms[i]))
    && AllSurvive(Items(ms))
    && Apart(ms, false)
    && SignedDistinct(ms)
    && EndsAreUser(ms)
  }

  lemma BeforeMergeExact(ms: seq<Message>)
    ensures BeforeMerge(ms).issues == [] <==>
            (forall i :: 0 <= i < |ms| ==>
               TextsMerged(ms[i]) && MessageTrimmed(ms[i]) && NotEmpty(ms[i]) && ResultsFilled(ms[i]))
            && AllSurvive(Items(ms))
    ensures BeforeMerge(ms).issues == [] ==> BeforeMerge(ms).kept == ms
  {
    hide TextsMerged, MessageTrimmed, NotEmpty, ResultsFilled, AllSurvive, FixToolCalling, RemoveEmpty, Honest, MapFix;
    MergeMessageTextsHonest();
    TrimMessageHonest();
    FillMessageHonest();
    var a := MapFix(MergeMessageTexts, ms);
    MapFixExact(MergeMessageTexts, TextsMerged, ms);
    var b := MapFix(TrimMessage, a.kept);
    MapFixExact(TrimMessage, MessageTrimmed, a.kept);
    var c := RemoveEmpty(b.kept);
    RemoveEmptyExact(b.kept);
    var d := MapFix(FillMessage, c.kept);
    MapFixExact(FillMessage, ResultsFilled, c.kept);
    FixToolCallingReports(d.kept);
  }

  lemma AfterMergeExact(ms: seq<Message>)
    ensures AfterMerge(ms).issues == [] <==> ms != [] && Apart(ms, false) && SignedDistinct(ms) && EndsAreUser(ms)
    ensures AfterMerge(ms).issues == [] ==> AfterMerge(ms).kept == ms
  {
    hide Apart, SignedDistinct, EndsAreUser, Merge, MergeIssues, DedupeMessages, FixLeadTrail;
    MergeExact(ms, false);
    DedupeExact(Merge(ms, false));
    FixLeadTrailExact(DedupeMessages(Merge(ms, false)).kept);
  }

  /** `Conversation::new` accepts exactly the well-formed lists, and whatever it
      accepts the repair leaves as it is. */
  lemma AcceptsExactlyWellFormed(ms: seq<Message>)
    ensures Accepts(ms) <==> WellFormed(ms)
    ensures Accepts(ms) ==> FixMessages(ms).kept == ms
  {
    hide BeforeMerge, AfterMerge;
    BeforeMergeExact(ms);
    AfterMergeExact(BeforeMerge(ms).kept);
    AfterMergeExact(ms);
  }
}
