/** What the repair does not touch: which texts and blocks come through all the
    passes, in which order, and under whose name (conversation.rs). */
module RepairConserves {
  import opened Common
  import opened Text
  import opened Messages
  import opened ToolCalling
  import opened MessageMerge
  import opened ConversationRepair
  import opened ConversationShape
  import opened RepairFixpoint

  // ---- Marks ----

  /** One thing the repair has to keep: a character of a text, for its audience, or
      a block it has no business with. */
  datatype Mark = Letter(role: Role, audience: Option<seq<Role>>, c: char) | Whole(item: Item)

  /** Blocks no pass may drop: what is neither text, tool call nor signed thinking,
      unless it is thinking or a confirmation request in a user message. */
  predicate Bystander(x: Item) {
    match x.block
    case Image(_) => true
    case Document(_) => true
    case ActionRequired(_) => true
    case SystemNotification(_) => true
    case ErrorBlock(_) => true
    case ToolConfirmationRequest(_) => x.role == Assistant
    case Thinking(_, signature) => x.role == Assistant && signature == ""
    case _ => false
  }

  /** The characters of a text; of an assistant text only those that are not white space. */
  function Letters(role: Role, audience: Option<seq<Role>>, s: string): seq<Mark> {
    if s == "" then []
    else
      var n := |s| - 1;
      Letters(role, audience, s[..n])
      + if role == Assistant && IsWhitespace(s[n]) then [] else [Letter(role, audience, s[n])]
  }

  function MarksOf(x: Item): seq<Mark> {
    if x.block.Text? then Letters(x.role, x.block.annotations.audience, x.block.text)
    else if Bystander(x) then [Whole(x)]
    else []
  }

  function Marks(t: seq<Item>): seq<Mark> {
    if t == [] then [] else Marks(t[..|t| - 1]) + MarksOf(t[|t| - 1])
  }

  lemma {:induction false} LettersConcat(role: Role, audience: Option<seq<Role>>, s: string, t: string)
    ensures Letters(role, audience, s + t) == Letters(role, audience, s) + Letters(role, audience, t)
  {
    if t == "" {
      assert s + t == s;
    } else {
      var n := |t| - 1;
      assert (s + t)[..|s| + n] == s + t[..n];
      LettersConcat(role, audience, s, t[..n]);
    }
  }

  lemma {:induction false} MarksConcat(t: seq<Item>, u: seq<Item>)
    ensures Marks(t + u) == Marks(t) + Marks(u)
  {
    hide MarksOf;
    if u == [] {
      assert t + u == t;
    } else {
      assert (t + u)[..|t + u| - 1] == t + u[..|u| - 1];
      MarksConcat(t, u[..|u| - 1]);
    }
  }

  lemma MarksSnoc(t: seq<Item>, x: Item)
    ensures Marks(t + [x]) == Marks(t) + MarksOf(x)
  {
    assert (t + [x])[..|t|] == t;
  }

  function BlockMarks(role: Role, bs: seq<Block>): seq<Mark> { Marks(ItemsOf(role, bs)) }

  lemma BlockMarksSnoc(role: Role, bs: seq<Block>, b: Block)
    ensures BlockMarks(role, bs + [b]) == BlockMarks(role, bs) + MarksOf(Item(role, b))
  {
    hide MarksOf;
    ItemsOfConcat(role, bs, [b]);
    assert ItemsOf(role, [b]) == [Item(role, b)];
    MarksSnoc(ItemsOf(role, bs), Item(role, b));
  }

  // ---- Passes on one message ----

  lemma AddBlockKeepsMarks(role: Role, acc: seq<Block>, b: Block)
    ensures BlockMarks(role, AddBlock(acc, b)) == BlockMarks(role, acc) + MarksOf(Item(role, b))
  {
    hide BlockMarks, Letters;
    if acc != [] && SameAudience(acc[|acc| - 1], b) {
      var init, l := acc[..|acc| - 1], acc[|acc| - 1];
      assert acc == init + [l];
      BlockMarksSnoc(role, init, l);
      BlockMarksSnoc(role, init, l.(text := l.text + b.text));
      LettersConcat(role, l.annotations.audience, l.text, b.text);
    } else {
      BlockMarksSnoc(role, acc, b);
    }
  }

  lemma {:induction false} MergeTextsKeepsMarks(role: Role, bs: seq<Block>)
    ensures BlockMarks(role, MergeTexts(bs)) == BlockMarks(role, bs)
  {
    hide BlockMarks, MarksOf, AddBlock;
    if bs != [] {
      var n := |bs| - 1;
      MergeTextsKeepsMarks(role, bs[..n]);
      AddBlockKeepsMarks(role, MergeTexts(bs[..n]), bs[n]);
      assert bs == bs[..n] + [bs[n]];
      BlockMarksSnoc(role, bs[..n], bs[n]);
    }
  }

  lemma {:induction false} SpaceHasNoLetters(audience: Option<seq<Role>>, s: string)
    requires forall i :: 0 <= i < |s| ==> IsWhitespace(s[i])
    ensures Letters(Assistant, audience, s) == []
  {
    if s != "" { SpaceHasNoLetters(audience, s[..|s| - 1]); }
  }

  lemma TrimKeepsMarks(b: Block)
    ensures MarksOf(Item(Assistant, TrimBlock(b).0)) == MarksOf(Item(Assistant, b))
  {
    hide TrimBlock, Letters;
    TrimBlockExact(b);
    if b.Text? {
      var r := TrimBlock(b).0;
      var tail := b.text[|r.text|..];
      assert b.text == r.text + tail;
      LettersConcat(Assistant, b.annotations.audience, r.text, tail);
      SpaceHasNoLetters(b.annotations.audience, tail);
    }
  }

  lemma FillKeepsMarks(role: Role, b: Block)
    ensures MarksOf(Item(role, FillBlock(b).0)) == MarksOf(Item(role, b))
  {}

  lemma {:induction false} MapKeepsMarks(role: Role, f: Block -> (Block, seq<string>), bs: seq<Block>)
    requires forall b :: MarksOf(Item(role, f(b).0)) == MarksOf(Item(role, b))
    ensures BlockMarks(role, MapFix(f, bs).kept) == BlockMarks(role, bs)
  {
    hide BlockMarks, MarksOf;
    if bs != [] {
      var n := |bs| - 1;
      MapKeepsMarks(role, f, bs[..n]);
      var kept := MapFix(f, bs[..n]).kept;
      assert bs == bs[..n] + [bs[n]];
      BlockMarksSnoc(role, bs[..n], bs[n]);
      BlockMarksSnoc(role, kept, f(bs[n]).0);
      assert MapFix(f, bs).kept == kept + [f(bs[n]).0];
    }
  }

  /** A pass that rewrites the blocks of each message and keeps their marks. */
  ghost predicate KeepsMarks(f: Message -> (Message, seq<string>)) {
    forall m :: f(m).0.role == m.role && BlockMarks(m.role, f(m).0.content) == BlockMarks(m.role, m.content)
  }

  lemma MergingKeepsMarks()
    ensures KeepsMarks(MergeMessageTexts)
  {
    hide BlockMarks, MergeTexts;
    forall m: Message ensures BlockMarks(m.role, MergeMessageTexts(m).0.content) == BlockMarks(m.role, m.content) {
      MergeTextsKeepsMarks(m.role, m.content);
    }
  }

  lemma TrimmingKeepsMarks()
    ensures KeepsMarks(TrimMessage)
  {
    hide BlockMarks, MarksOf, MapFix, TrimBlock;
    forall b ensures MarksOf(Item(Assistant, TrimBlock(b).0)) == MarksOf(Item(Assistant, b)) { TrimKeepsMarks(b); }
    forall m: Message ensures BlockMarks(m.role, TrimMessage(m).0.content) == BlockMarks(m.role, m.content) {
      if m.role == Assistant { MapKeepsMarks(Assistant, TrimBlock, m.content); }
    }
  }

  lemma FillingKeepsMarks()
    ensures KeepsMarks(FillMessage)
  {
    hide BlockMarks, MarksOf, MapFix, FillBlock;
    forall m: Message ensures BlockMarks(m.role, FillMessage(m).0.content) == BlockMarks(m.role, m.content) {
      forall b ensures MarksOf(Item(m.role, FillBlock(b).0)) == MarksOf(Item(m.role, b)) {
        FillKeepsMarks(m.role, b);
      }
      MapKeepsMarks(m.role, FillBlock, m.content);
    }
  }

  lemma {:induction false} MapMessagesKeepsMarks(f: Message -> (Message, seq<string>), ms: seq<Message>)
    requires KeepsMarks(f)
    ensures Marks(Items(MapFix(f, ms).kept)) == Marks(Items(ms))
  {
    hide Marks, Items;
    if ms != [] {
      var n := |ms| - 1;
      MapMessagesKeepsMarks(f, ms[..n]);
      var kept, m, m' := MapFix(f, ms[..n]).kept, ms[n], f(ms[n]).0;
      assert ms == ms[..n] + [m];
      assert BlockMarks(m.role, m'.content) == BlockMarks(m.role, m.content);
      ItemsSnoc(ms[..n], m);
      ItemsSnoc(kept, m');
      MarksConcat(Items(ms[..n]), ItemsOf(m.role, m.content));
      MarksConcat(Items(kept), ItemsOf(m.role, m'.content));
    }
  }

  // ---- Passes on the list ----

  lemma {:induction false} SolidKeepsMarks(t: seq<Item>)
    ensures Marks(Solid(t)) == Marks(t)
  {
    hide MarksOf, Marks;
    if t == [] {
    } else {
      assert t == [t[0]] + t[1..];
      MarksConcat([t[0]], t[1..]);
      SolidKeepsMarks(t[1..]);
      MarksConcat([t[0]], Solid(t[1..]));
      if IsEmptyText(t[0].block) {
        EmptyHasNoMarks(t[0]);
        assert [] + Solid(t[1..]) == Solid(t[1..]) && [] + Marks(t[1..]) == Marks(t[1..]);
      }
    }
  }

  lemma EmptyHasNoMarks(x: Item)
    requires IsEmptyText(x.block)
    ensures Marks([x]) == []
  {
    assert [x][..0] == [];
    assert Marks([]) == [];
  }

  lemma {:induction false} SurvivorsKeepMarks(t: seq<Item>, n: nat)
    requires n <= |t|
    ensures Marks(Survivors(t, n)) == Marks(t[..n])
  {
    hide MarksOf, Survives;
    if n > 0 {
      SurvivorsKeepMarks(t, n - 1);
      assert t[..n] == t[..n - 1] + [t[n - 1]];
      MarksSnoc(t[..n - 1], t[n - 1]);
      MarksSnoc(Survivors(t, n - 1), t[n - 1]);
      if !Survives(t, n - 1) {
        DroppedHasNoMarks(t, n - 1);
        assert Survivors(t, n - 1) + [] == Survivors(t, n - 1) && Marks(t[..n - 1]) + [] == Marks(t[..n - 1]);
      }
    }
  }

  /** What `fix_tool_calling` drops has no marks. */
  lemma DroppedHasNoMarks(t: seq<Item>, j: nat)
    requires j < |t| && !Survives(t, j)
    ensures MarksOf(t[j]) == []
  {
    hide Awaited;
  }

  lemma FixToolCallingKeepsMarks(ms: seq<Message>)
    ensures Marks(Items(FixToolCalling(ms).kept)) == Marks(Items(ms))
  {
    hide Marks, FixToolCalling, Items, Survivors, Solid;
    var t := Items(ms);
    FixToolCallingIsExact(ms);
    SolidKeepsMarks(Items(FixToolCalling(ms).kept));
    SolidKeepsMarks(Survivors(t, |t|));
    SurvivorsKeepMarks(t, |t|);
    assert t[..|t|] == t;
  }

  lemma RemoveEmptyKeepsMarks(ms: seq<Message>)
    ensures Marks(Items(RemoveEmpty(ms).kept)) == Marks(Items(ms))
  {
    hide Marks, Items, Solid, RemoveEmpty;
    RemoveEmptyKeepsSolid(ms);
    SolidKeepsMarks(Items(ms));
    SolidKeepsMarks(Items(RemoveEmpty(ms).kept));
  }

  lemma {:induction false} UnsignedKeepsMarks(t: seq<Item>)
    ensures Marks(UnsignedOf(t)) == Marks(t)
  {
    hide Letters;
    if t != [] {
      var n := |t| - 1;
      UnsignedKeepsMarks(t[..n]);
      MarksSnoc(UnsignedOf(t[..n]), t[n]);
      assert UnsignedOf(t[..n]) + [] == UnsignedOf(t[..n]);
      if IsSignedItem(t[n]) { assert MarksOf(t[n]) == [] && Marks(t[..n]) + [] == Marks(t[..n]); }
    }
  }

  lemma BeforeMergeKeepsMarks(ms: seq<Message>)
    ensures Marks(Items(BeforeMerge(ms).kept)) == Marks(Items(ms))
  {
    hide Marks, Items, MapFix, RemoveEmpty, FixToolCalling, KeepsMarks, MergeMessageTexts, TrimMessage, FillMessage;
    MergingKeepsMarks();
    TrimmingKeepsMarks();
    FillingKeepsMarks();
    var a := MapFix(MergeMessageTexts, ms);
    MapMessagesKeepsMarks(MergeMessageTexts, ms);
    var b := MapFix(TrimMessage, a.kept);
    MapMessagesKeepsMarks(TrimMessage, a.kept);
    var c := RemoveEmpty(b.kept);
    RemoveEmptyKeepsMarks(b.kept);
    var d := MapFix(FillMessage, c.kept);
    MapMessagesKeepsMarks(FillMessage, c.kept);
    FixToolCallingKeepsMarks(d.kept);
  }

  /** Up to the removals at both ends the repair keeps, in order, every character
      of a user text, every character of an assistant text that is not white
      space, each for its audience, and every block it has no business with. */
  lemma RepairConserves(ms: seq<Message>)
    ensures Marks(Items(Handed(ms))) == Marks(Items(ms))
  {
    hide Marks, Items, BeforeMerge, Merge, DedupeMessages, UnsignedOf;
    BeforeMergeKeepsMarks(ms);
    var f := Merge(BeforeMerge(ms).kept, false);
    MergeKeepsItems(BeforeMerge(ms).kept, false);
    DedupeExact(f);
    UnsignedKeepsMarks(Items(f));
    UnsignedKeepsMarks(Items(Handed(ms)));
  }

  // ---- Signed thinking ----

  /** Thinking that must be replayed exactly: it carries a signature, or is redacted. */
  predicate MustReplay(x: Item) {
    x.role == Assistant && (x.block.RedactedThinking? || (x.block.Thinking? && x.block.signature != ""))
  }

  /** The items without those to be replayed that stood before already. */
  function FirstOnly(t: seq<Item>): seq<Item> {
    if t == [] then []
    else
      var n := |t| - 1;
      FirstOnly(t[..n]) + if MustReplay(t[n]) && t[n] in t[..n] then [] else [t[n]]
  }

  lemma FirstOnlySnoc(t: seq<Item>, x: Item)
    ensures FirstOnly(t + [x]) == FirstOnly(t) + if MustReplay(x) && x in t then [] else [x]
  {
    assert (t + [x])[..|t|] == t;
  }

  lemma {:induction false} SignedMember(t: seq<Item>, b: Block)
    ensures b in SignedOf(t) <==> IsSigned(b) && Item(Assistant, b) in t
  {
    if t != [] {
      var n := |t| - 1;
      SignedMember(t[..n], b);
      assert t == t[..n] + [t[n]];
    }
  }

  lemma SeenIsBefore(t: seq<Item>, bs: seq<Block>, seen: seq<Block>, b: Block)
    requires NoDup(seen) && forall b :: b in seen <==> b in SignedOf(t)
    ensures IsSigned(b) ==> (b in DedupeBlocks(bs, seen).seen <==> Item(Assistant, b) in t + ItemsOf(Assistant, bs))
  {
    hide NoDup, SignedOf, DedupeBlocks;
    DedupeBlocksSpec(bs, seen);
    SignedConcat(t, ItemsOf(Assistant, bs));
    SignedMember(t + ItemsOf(Assistant, bs), b);
  }

  lemma ItemsOfSnoc(role: Role, bs: seq<Block>, b: Block)
    ensures ItemsOf(role, bs + [b]) == ItemsOf(role, bs) + [Item(role, b)]
  {}

  lemma {:induction false} DedupeBlocksFirst(t: seq<Item>, bs: seq<Block>, seen: seq<Block>)
    requires NoDup(seen) && forall b :: b in seen <==> b in SignedOf(t)
    ensures FirstOnly(t + ItemsOf(Assistant, bs))
         == FirstOnly(t) + ItemsOf(Assistant, DedupeBlocks(bs, seen).kept)
  {
    hide NoDup, SignedOf, FirstOnly, ItemsOf;
    if bs == [] {
      assert ItemsOf(Assistant, bs) == [];
      assert t + [] == t && FirstOnly(t) + [] == FirstOnly(t);
    } else {
      var n := |bs| - 1;
      var b := bs[n];
      var x := Item(Assistant, b);
      var d := DedupeBlocks(bs[..n], seen);
      var before := t + ItemsOf(Assistant, bs[..n]);
      DedupeBlocksFirst(t, bs[..n], seen);
      SeenIsBefore(t, bs[..n], seen, b);
      assert bs == bs[..n] + [b];
      ItemsOfSnoc(Assistant, bs[..n], b);
      ItemsOfSnoc(Assistant, d.kept, b);
      assert t + ItemsOf(Assistant, bs) == before + [x];
      FirstOnlySnoc(before, x);
      assert FirstOnly(t) + (ItemsOf(Assistant, d.kept) + [x]) == (FirstOnly(t) + ItemsOf(Assistant, d.kept)) + [x];
      assert (FirstOnly(t) + ItemsOf(Assistant, d.kept)) + [] == FirstOnly(t) + ItemsOf(Assistant, d.kept);
    }
  }

  lemma {:induction false} UserIsKept(t: seq<Item>, bs: seq<Block>)
    ensures FirstOnly(t + ItemsOf(User, bs)) == FirstOnly(t) + ItemsOf(User, bs)
  {
    hide FirstOnly;
    if bs == [] {
      assert t + ItemsOf(User, bs) == t;
      assert FirstOnly(t) + [] == FirstOnly(t);
    } else {
      var n := |bs| - 1;
      var x := Item(User, bs[n]);
      UserIsKept(t, bs[..n]);
      assert t + ItemsOf(User, bs) == (t + ItemsOf(User, bs[..n])) + [x];
      FirstOnlySnoc(t + ItemsOf(User, bs[..n]), x);
      assert ItemsOf(User, bs) == ItemsOf(User, bs[..n]) + [x];
    }
  }

  /** Of every block that must be replayed the first occurrence stays where it is,
      the others go, and nothing else does. */
  lemma {:induction false} DedupeKeepsFirst(ms: seq<Message>)
    ensures Items(DedupeMessages(ms).kept) == FirstOnly(Items(ms))
  {
    hide FirstOnly, DedupeBlocks, NoDup, SignedOf, Items;
    if ms == [] {
      NothingFirst();
    } else {
      var n := |ms| - 1;
      var m := ms[n];
      var d := DedupeMessages(ms[..n]);
      DedupeKeepsFirst(ms[..n]);
      DedupeExact(ms[..n]);
      assert ms == ms[..n] + [m];
      ItemsSnoc(ms[..n], m);
      if m.role == Assistant {
        DedupeBlocksFirst(Items(ms[..n]), m.content, d.seen);
        ItemsSnoc(d.kept, m.(content := DedupeBlocks(m.content, d.seen).kept));
      } else {
        UserIsKept(Items(ms[..n]), m.content);
        ItemsSnoc(d.kept, m);
      }
    }
  }

  lemma NothingFirst()
    ensures Items([]) == [] && FirstOnly([]) == []
  {}

  // ---- Whose message it is ----

  /** A message without its blocks: id, role and metadata. */
  function Envelope(m: Message): Message { m.(content := []) }

  /** `a` takes its envelopes from `b`, at the places `ix`, in order. */
  predicate Picks(a: seq<Message>, b: seq<Message>, ix: seq<nat>) {
    && |ix| == |a|
    && (forall i :: 0 <= i < |ix| ==> ix[i] < |b| && Envelope(a[i]) == Envelope(b[ix[i]]))
    && forall i, j :: 0 <= i < j < |ix| ==> ix[i] < ix[j]
  }

  lemma PicksAll(a: seq<Message>, b: seq<Message>) returns (ix: seq<nat>)
    requires |a| == |b| && forall i :: 0 <= i < |a| ==> Envelope(a[i]) == Envelope(b[i])
    ensures Picks(a, b, ix)
  {
    ix := seq(|a|, i => i);
  }

  lemma PicksThrough(a: seq<Message>, b: seq<Message>, c: seq<Message>, ix: seq<nat>, jx: seq<nat>)
    returns (kx: seq<nat>)
    requires Picks(a, b, ix) && Picks(b, c, jx)
    ensures Picks(a, c, kx)
  {
    hide Envelope;
    kx := seq(|ix|, i requires 0 <= i < |ix| => jx[ix[i]]);
  }

  lemma PicksSnoc(a: seq<Message>, b: seq<Message>, ix: seq<nat>, m: Message)
    requires Picks(a, b, ix)
    ensures Picks(a + [m], b + [m], ix + [|b|]) && Picks(a, b + [m], ix)
  {
    hide Envelope;
  }

  lemma PicksSame(a: seq<Message>, b: seq<Message>, ix: seq<nat>, m: Message)
    requires Picks(a, b, ix) && a != [] && Envelope(m) == Envelope(a[|a| - 1])
    ensures Picks(a[..|a| - 1] + [m], b, ix)
  {
    hide Envelope;
  }

  lemma {:induction false} MergePicks(ms: seq<Message>, across: bool) returns (ix: seq<nat>)
    ensures Picks(Merge(ms, across), ms, ix)
  {
    hide Mergeable, Picks;
    if ms == [] {
      ix := [];
      NothingPicked();
    } else {
      var n := |ms| - 1;
      var m := ms[n];
      assert ms == ms[..n] + [m];
      ix := MergePicks(ms[..n], across);
      var acc := Merge(ms[..n], across);
      PicksSnoc(acc, ms[..n], ix, m);
      if acc != [] && Mergeable(acc[|acc| - 1], m, across) {
        PicksSame(acc, ms, ix, Absorb(acc[|acc| - 1], m));
      } else {
        ix := ix + [n];
      }
    }
  }

  lemma NothingPicked()
    ensures Picks([], [], [])
  {}

  /** Nothing is in the message, or only empty text. */
  predicate SaysNothing(m: Message) { forall b :: b in m.content ==> b.Text? && b.text == "" }

  lemma SilentIsEmpty(m: Message)
    ensures AllEmptyText(m.content) <==> SaysNothing(m)
  {
    if AllEmptyText(m.content) {
      forall b | b in m.content ensures b.Text? && b.text == "" {
        var i :| 0 <= i < |m.content| && m.content[i] == b;
        assert IsEmptyText(m.content[i]);
      }
    } else {
      var i :| 0 <= i < |m.content| && !IsEmptyText(m.content[i]);
      assert m.content[i] in m.content;
    }
  }

  /** `r` is exactly the messages of `ms` at the places `ix`, in order. */
  predicate Selects(r: seq<Message>, ms: seq<Message>, ix: seq<nat>) {
    && |ix| == |r|
    && (forall i :: 0 <= i < |r| ==> ix[i] < |ms| && r[i] == ms[ix[i]])
    && forall i, j :: 0 <= i < j < |ix| ==> ix[i] < ix[j]
  }

  lemma SelectsSnoc(r: seq<Message>, ms: seq<Message>, ix: seq<nat>, m: Message)
    requires Selects(r, ms, ix)
    ensures Selects(r + [m], ms + [m], ix + [|ms|]) && Selects(r, ms + [m], ix)
    ensures |ms| !in ix
  {}

  /** Removing empty messages leaves exactly the others, as they were and in order. */
  lemma {:induction false} RemoveEmptyPicks(ms: seq<Message>) returns (ix: seq<nat>)
    ensures Selects(RemoveEmpty(ms).kept, ms, ix)
    ensures forall j :: 0 <= j < |ms| ==> (j in ix <==> !SaysNothing(ms[j]))
  {
    hide AllEmptyText, SaysNothing, Selects;
    if ms == [] {
      ix := [];
      NothingSelected();
    } else {
      var n := |ms| - 1;
      var m := ms[n];
      assert ms == ms[..n] + [m];
      var jx := RemoveEmptyPicks(ms[..n]);
      SilentIsEmpty(m);
      SelectsSnoc(RemoveEmpty(ms[..n]).kept, ms[..n], jx, m);
      ix := if AllEmptyText(m.content) then jx else jx + [n];
      forall j | 0 <= j < |ms| ensures j in ix <==> !SaysNothing(ms[j]) {
        if j < n { assert ms[..n][j] == ms[j]; }
      }
    }
  }

  lemma NothingSelected()
    ensures Selects([], [], [])
  {}

  lemma {:induction false} CleanKeepsEnvelopes(ms: seq<Message>)
    ensures var r := CleanMessages(ms).kept;
            |r| == |ms| && forall i :: 0 <= i < |ms| ==> Envelope(r[i]) == Envelope(ms[i])
  {
    hide CleanBlocks;
    if ms != [] {
      var n := |ms| - 1;
      CleanKeepsEnvelopes(ms[..n]);
      assert forall i :: 0 <= i < n ==> ms[..n][i] == ms[i];
    }
  }

  lemma {:induction false} DropKeepsEnvelopes(ms: seq<Message>, pending: set<string>)
    ensures var r := DropOrphans(ms, pending).kept;
            |r| == |ms| && forall i :: 0 <= i < |ms| ==> Envelope(r[i]) == Envelope(ms[i])
  {
    hide DropPending;
    if ms != [] {
      var n := |ms| - 1;
      DropKeepsEnvelopes(ms[..n], pending);
      assert forall i :: 0 <= i < n ==> ms[..n][i] == ms[i];
    }
  }

  lemma {:induction false} DedupeKeepsEnvelopes(ms: seq<Message>)
    ensures var r := DedupeMessages(ms).kept;
            |r| == |ms| && forall i :: 0 <= i < |ms| ==> Envelope(r[i]) == Envelope(ms[i])
  {
    hide DedupeBlocks;
    if ms != [] {
      var n := |ms| - 1;
      DedupeKeepsEnvelopes(ms[..n]);
      assert forall i :: 0 <= i < n ==> ms[..n][i] == ms[i];
    }
  }

  lemma MapPicks(f: Message -> (Message, seq<string>), ms: seq<Message>) returns (ix: seq<nat>)
    requires forall m :: Envelope(f(m).0) == Envelope(m)
    ensures Picks(MapFix(f, ms).kept, ms, ix)
  {
    hide MapFix, Envelope, Picks;
    MapFixAt(f, ms);
    ix := PicksAll(MapFix(f, ms).kept, ms);
  }

  lemma FilterPicks(ms: seq<Message>) returns (ix: seq<nat>)
    ensures Picks(RemoveEmpty(ms).kept, ms, ix)
  {
    hide RemoveEmpty, SaysNothing;
    ix := RemoveEmptyPicks(ms);
  }

  lemma ToolPicks(ms: seq<Message>) returns (ix: seq<nat>)
    ensures Picks(FixToolCalling(ms).kept, ms, ix)
  {
    hide Picks, CleanMessages, DropOrphans, RemoveEmpty, Envelope;
    var a := CleanMessages(ms);
    var b := DropOrphans(a.kept, a.pending);
    CleanKeepsEnvelopes(ms);
    DropKeepsEnvelopes(a.kept, a.pending);
    var ax := PicksAll(b.kept, ms);
    var bx := FilterPicks(b.kept);
    ix := PicksThrough(RemoveEmpty(b.kept).kept, b.kept, ms, bx, ax);
  }

  lemma MapsKeepEnvelopes(m: Message)
    ensures Envelope(MergeMessageTexts(m).0) == Envelope(m)
    ensures Envelope(TrimMessage(m).0) == Envelope(m)
    ensures Envelope(FillMessage(m).0) == Envelope(m)
  {}

  lemma BeforeMergePicks(ms: seq<Message>) returns (ix: seq<nat>)
    ensures Picks(BeforeMerge(ms).kept, ms, ix)
  {
    hide Picks, MapFix, RemoveEmpty, FixToolCalling, Envelope, MergeMessageTexts, TrimMessage, FillMessage;
    forall m
      ensures Envelope(MergeMessageTexts(m).0) == Envelope(m)
      ensures Envelope(TrimMessage(m).0) == Envelope(m)
      ensures Envelope(FillMessage(m).0) == Envelope(m)
    {
      MapsKeepEnvelopes(m);
    }
    var a := MapFix(MergeMessageTexts, ms).kept;
    ix := MapPicks(MergeMessageTexts, ms);
    var b := MapFix(TrimMessage, a).kept;
    var bx := MapPicks(TrimMessage, a);
    ix := PicksThrough(b, a, ms, bx, ix);
    var c := RemoveEmpty(b).kept;
    var cx := FilterPicks(b);
    ix := PicksThrough(c, b, ms, cx, ix);
    var d := MapFix(FillMessage, c).kept;
    var dx := MapPicks(FillMessage, c);
    ix := PicksThrough(d, c, ms, dx, ix);
    var ex := ToolPicks(d);
    ix := PicksThrough(FixToolCalling(d).kept, d, ms, ex, ix);
  }

  /** Every repaired message keeps the id, the role and the metadata of an input
      message, in input order; the one exception is the greeting that stands for
      an empty conversation. */
  lemma RepairKeepsEnvelopes(ms: seq<Message>) returns (ix: seq<nat>)
    ensures || Picks(FixMessages(ms).kept, ms, ix)
            || FixMessages(ms).kept
               == [Message(None, User, [Text("Hello", Annotations(None, 0))],
                           Metadata(true, true, false, None, false, 0))]
  {
    hide Picks, BeforeMerge, Merge, DedupeMessages, FixMessages;
    var b := BeforeMerge(ms).kept;
    var f := Merge(b, false);
    var g := Handed(ms);
    ix := BeforeMergePicks(ms);
    var fx := MergePicks(b, false);
    ix := PicksThrough(f, b, ms, fx, ix);
    DedupeKeepsEnvelopes(f);
    var gx := PicksAll(g, f);
    ix := PicksThrough(g, f, ms, gx, ix);
    FixMessagesKeeps(ms);
    if Stays(g) != [] {
      ix := StaysPicks(g, ms, ix);
    }
  }

  lemma StaysPicks(g: seq<Message>, ms: seq<Message>, jx: seq<nat>) returns (ix: seq<nat>)
    requires Picks(g, ms, jx)
    ensures Picks(Stays(g), ms, ix)
  {
    hide Envelope;
    ix := jx[KeptFrom(g)..KeptTo(g)];
  }

  // ---- What may stand in a message ----

  /** After the repair a user message carries no call, no request for confirmation
      and no thinking, and an assistant message no response. */
  lemma RepairedBlocksBelong(ms: seq<Message>, i: nat, j: nat)
    requires i < |FixMessages(ms).kept| && j < |FixMessages(ms).kept[i].content|
    ensures var m := FixMessages(ms).kept[i];
            var b := m.content[j];
            && (m.role == User ==>
                  !b.ToolRequest? && !b.ToolConfirmationRequest? && !b.Thinking? && !b.RedactedThinking?)
            && (m.role == Assistant ==> !b.ToolResponse?)
  {
    hide FixMessages, Items;
    RepairedCallsStand(ms);
    var k := ItemsContain(FixMessages(ms).kept, i, j);
    assert !Misplaced(Items(FixMessages(ms).kept)[k]);
  }
}
