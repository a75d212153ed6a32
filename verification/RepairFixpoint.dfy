/** What the repaired conversation is like, for every input, and exactly when a
    second repair would find nothing to do (conversation.rs). */
module RepairFixpoint {
  import opened Common
  import opened Text
  import opened Messages
  import opened ToolCalling
  import opened MessageMerge
  import opened ConversationRepair
  import opened ConversationShape

  /** What reaches `fix_tool_calling`. */
  function Prepared(ms: seq<Message>): seq<Message> {
    MapFix(FillMessage, RemoveEmpty(MapFix(TrimMessage, MapFix(MergeMessageTexts, ms).kept).kept).kept).kept
  }

  lemma PreparedFirst(ms: seq<Message>)
    ensures BeforeMerge(ms).kept == FixToolCalling(Prepared(ms)).kept
  {
    hide MapFix, RemoveEmpty, FixToolCalling;
  }

  /** The list handed to `fix_lead_trail`. */
  function Handed(ms: seq<Message>): seq<Message> {
    DedupeMessages(Merge(BeforeMerge(ms).kept, false)).kept
  }

  /** The part of it that stays. */
  function Stays(g: seq<Message>): seq<Message> { g[KeptFrom(g)..KeptTo(g)] }

  lemma FixMessagesKeeps(ms: seq<Message>)
    ensures var h := Stays(Handed(ms));
            FixMessages(ms).kept == if h == [] then [PLACEHOLDER] else h
  {
    hide BeforeMerge, Merge, DedupeMessages, FixLeadTrail;
    LeadTrailKeeps(Handed(ms));
  }

  // ---- Items and messages ----

  lemma {:induction false} ItemsSource(ms: seq<Message>, k: nat) returns (i: nat, j: nat)
    requires k < |Items(ms)|
    ensures i < |ms| && j < |ms[i].content| && Items(ms)[k] == Item(ms[i].role, ms[i].content[j])
  {
    var n := |ms| - 1;
    var m := |Items(ms[..n])|;
    if k < m {
      i, j := ItemsSource(ms[..n], k);
    } else {
      i, j := n, k - m;
    }
  }

  lemma {:induction false} ItemsContain(ms: seq<Message>, i: nat, j: nat) returns (k: nat)
    requires i < |ms| && j < |ms[i].content|
    ensures k < |Items(ms)| && Items(ms)[k] == Item(ms[i].role, ms[i].content[j])
  {
    var n := |ms| - 1;
    if i < n {
      k := ItemsContain(ms[..n], i, j);
    } else {
      k := |Items(ms[..n])| + j;
    }
  }

  lemma {:induction false} ItemsConcat(a: seq<Message>, b: seq<Message>)
    ensures Items(a + b) == Items(a) + Items(b)
  {
    hide Items;
    if b == [] {
      NoItems();
      assert a + b == a;
    } else {
      var n := |b| - 1;
      var init, m := b[..n], b[n];
      var x := ItemsOf(m.role, m.content);
      ItemsConcat(a, init);
      assert a + b == (a + init) + [m] && b == init + [m];
      ItemsSnoc(a + init, m);
      ItemsSnoc(init, m);
      assert (Items(a) + Items(init)) + x == Items(a) + (Items(init) + x);
    }
  }

  // ---- What holds of every block ----

  predicate Fine(x: Item) { (x.role == Assistant ==> BlockTrimmed(x.block)) && BlockFilled(x.block) }

  /** Trimmed, filled and well placed. */
  predicate Clean(x: Item) { Fine(x) && !Misplaced(x) }

  lemma {:induction false} RemoveEmptyMembers(ms: seq<Message>, i: nat)
    requires i < |RemoveEmpty(ms).kept|
    ensures RemoveEmpty(ms).kept[i] in ms
  {
    hide AllEmptyText;
    var n := |ms| - 1;
    if i < |RemoveEmpty(ms[..n]).kept| { RemoveEmptyMembers(ms[..n], i); }
  }

  lemma TrimmedAfterTrim(m: Message)
    ensures MessageTrimmed(TrimMessage(m).0)
  {
    hide MapFix, IsWhitespace;
    MapFixAt(TrimBlock, m.content);
    var r := MapFix(TrimBlock, m.content).kept;
    forall i | 0 <= i < |r| ensures BlockTrimmed(r[i]) {
      assert r[i] == TrimBlock(m.content[i]).0;
      TrimmedBlock(m.content[i]);
    }
  }

  lemma TrimmedBlock(b: Block)
    ensures BlockTrimmed(TrimBlock(b).0)
  {}

  lemma FilledAfterFill(m: Message)
    requires MessageTrimmed(m)
    ensures MessageTrimmed(FillMessage(m).0) && ResultsFilled(FillMessage(m).0)
  {
    hide HasContent;
    FillBlockHonest();
    MapFixAt(FillBlock, m.content);
    var r := FillMessage(m).0;
    forall i | 0 <= i < |m.content| ensures m.role == Assistant ==> BlockTrimmed(r.content[i]) {
      assert r.content[i] == FillBlock(m.content[i]).0;
    }
  }

  lemma FineBeforeCalls(ms: seq<Message>, k: nat)
    requires k < |Items(Prepared(ms))|
    ensures Fine(Items(Prepared(ms))[k])
  {
    hide BlockTrimmed, BlockFilled, RemoveEmpty, MapFix, TrimMessage, FillMessage, Items;
    var a := MapFix(MergeMessageTexts, ms).kept;
    var b := MapFix(TrimMessage, a).kept;
    var c := RemoveEmpty(b).kept;
    var d := MapFix(FillMessage, c).kept;
    MapFixAt(TrimMessage, a);
    MapFixAt(FillMessage, c);
    var i, j := ItemsSource(d, k);
    RemoveEmptyMembers(b, i);
    var o :| 0 <= o < |b| && b[o] == c[i];
    TrimmedAfterTrim(a[o]);
    FilledAfterFill(c[i]);
  }

  lemma EmptyTextIsClean(x: Item)
    requires IsEmptyText(x.block)
    ensures Clean(x)
  {}

  /** Tool repair removes whatever is misplaced and alters nothing. */
  lemma CleanAfterCalls(ms: seq<Message>, k: nat)
    requires k < |Items(FixToolCalling(ms).kept)|
    requires forall i :: 0 <= i < |Items(ms)| ==> Fine(Items(ms)[i])
    ensures Clean(Items(FixToolCalling(ms).kept)[k])
  {
    hide Fine, Items, FixToolCalling, Solid, Survivors;
    var u, t := Items(FixToolCalling(ms).kept), Items(ms);
    if IsEmptyText(u[k].block) {
      EmptyTextIsClean(u[k]);
    } else {
      var a := SolidRank(u, k);
      FixToolCallingIsExact(ms);
      var s := Survivors(t, |t|);
      var j := SurvivorSource(t, |t|, SolidPos(s, a));
    }
  }

  lemma CleanBeforeMerge(ms: seq<Message>, k: nat)
    requires k < |Items(BeforeMerge(ms).kept)|
    ensures Clean(Items(BeforeMerge(ms).kept)[k])
  {
    hide Fine, Misplaced, Items, FixToolCalling, BeforeMerge, Prepared;
    var d := Prepared(ms);
    PreparedFirst(ms);
    forall i | 0 <= i < |Items(d)| ensures Fine(Items(d)[i]) { FineBeforeCalls(ms, i); }
    CleanAfterCalls(d, k);
  }

  lemma {:induction false} UnsignedMember(t: seq<Item>, x: Item)
    ensures x in UnsignedOf(t) <==> x in t && !IsSignedItem(x)
  {
    if t != [] {
      UnsignedMember(t[..|t| - 1], x);
      assert t == t[..|t| - 1] + [t[|t| - 1]];
    }
  }

  lemma SignedIsClean(x: Item)
    requires IsSignedItem(x)
    ensures Clean(x)
  {}

  lemma CleanHanded(ms: seq<Message>, k: nat)
    requires k < |Items(Handed(ms))|
    ensures Clean(Items(Handed(ms))[k])
  {
    hide Clean, Items, BeforeMerge, Merge, DedupeMessages, IsSignedItem, UnsignedOf;
    var e := BeforeMerge(ms).kept;
    var f := Merge(e, false);
    var x := Items(Handed(ms))[k];
    if IsSignedItem(x) {
      SignedIsClean(x);
    } else {
      MergeKeepsItems(e, false);
      DedupeExact(f);
      UnsignedMember(Items(Handed(ms)), x);
      UnsignedMember(Items(f), x);
      var i :| 0 <= i < |Items(f)| && Items(f)[i] == x;
      CleanBeforeMerge(ms, i);
    }
  }

  lemma HandedMessages(ms: seq<Message>, i: nat)
    requires i < |Handed(ms)|
    ensures MessageTrimmed(Handed(ms)[i]) && ResultsFilled(Handed(ms)[i])
  {
    hide Handed, BlockTrimmed, BlockFilled, Items, Misplaced;
    var m := Handed(ms)[i];
    forall j | 0 <= j < |m.content| ensures Fine(Item(m.role, m.content[j])) {
      var k := ItemsContain(Handed(ms), i, j);
      CleanHanded(ms, k);
    }
    assert forall j :: 0 <= j < |m.content| ==> Fine(Item(m.role, m.content[j]));
  }

  lemma HandedApart(ms: seq<Message>)
    ensures Apart(Handed(ms), false)
  {
    hide BeforeMerge, Merge, DedupeMessages, EffectiveRoleOf;
    var f := Merge(BeforeMerge(ms).kept, false);
    MergeLeavesApart(BeforeMerge(ms).kept, false);
    DedupeKeepsShape(f);
    var g := Handed(ms);
    forall i | 0 <= i < |g| - 1 ensures !Mergeable(g[i], g[i + 1], false) {
      assert !Mergeable(f[i], f[i + 1], false);
    }
  }

  lemma SliceApart(g: seq<Message>, a: nat, b: nat)
    requires Apart(g, false) && a <= b <= |g|
    ensures Apart(g[a..b], false)
  {
    hide Mergeable;
    var h := g[a..b];
    forall i | 0 <= i < |h| - 1 ensures !Mergeable(h[i], h[i + 1], false) {
      assert h[i] == g[a + i] && h[i + 1] == g[(a + i) + 1];
      assert !Mergeable(g[a + i], g[(a + i) + 1], false);
    }
  }

  lemma Sliced(g: seq<Message>)
    ensures g == g[..KeptFrom(g)] + Stays(g) + g[KeptTo(g)..]
    ensures Items(g) == Items(g[..KeptFrom(g)]) + Items(Stays(g)) + Items(g[KeptTo(g)..])
  {
    hide Items, KeptFrom, KeptTo;
    var l, h, t := g[..KeptFrom(g)], Stays(g), g[KeptTo(g)..];
    assert g == l + h + t;
    ItemsConcat(l + h, t);
    ItemsConcat(l, h);
  }

  lemma NoDupMiddle<T>(a: seq<T>, b: seq<T>, c: seq<T>)
    requires NoDup(a + b + c)
    ensures NoDup(b)
  {
    var s := a + b + c;
    forall i, j | 0 <= i < j < |b| ensures b[i] != b[j] {
      assert s[|a| + i] == b[i] && s[|a| + j] == b[j];
    }
  }

  lemma SliceSignedDistinct(g: seq<Message>)
    requires SignedDistinct(g)
    ensures SignedDistinct(Stays(g))
  {
    hide Items, NoDup, SignedOf, KeptFrom, KeptTo;
    var l, h, t := Items(g[..KeptFrom(g)]), Items(Stays(g)), Items(g[KeptTo(g)..]);
    Sliced(g);
    SignedConcat(l + h, t);
    SignedConcat(l, h);
    NoDupMiddle(SignedOf(l), SignedOf(h), SignedOf(t));
  }

  lemma HandedSignedDistinct(ms: seq<Message>)
    ensures SignedDistinct(Handed(ms))
  {
    hide NoDup, SignedOf, Items, BeforeMerge, Merge, DedupeMessages;
    DedupeExact(Merge(BeforeMerge(ms).kept, false));
  }

  lemma PlaceholderIsFine()
    ensures WellFormed([PLACEHOLDER])
  {
    hide AllSurvive, SignedOf, NoDup, Items, TextsMerged, MessageTrimmed, NotEmpty, ResultsFilled;
    var m := PLACEHOLDER;
    SayIsClean(User, "Hello", true);
    assert m == Say(User, "Hello", true);
    PlainTextSurvives([m]);
    NoDupNothing<Block>();
  }

  /** Whatever went in, the repaired messages are trimmed and filled, none can be
      merged with its neighbour, and no signed thinking is repeated. */
  lemma RepairedAlways(ms: seq<Message>)
    ensures var r := FixMessages(ms).kept;
            && r != []
            && (forall i :: 0 <= i < |r| ==> MessageTrimmed(r[i]) && ResultsFilled(r[i]))
            && Apart(r, false) && SignedDistinct(r)
  {
    hide MessageTrimmed, ResultsFilled, Apart, SignedDistinct, FixMessages, Handed, KeptFrom, KeptTo;
    var g := Handed(ms);
    var r := FixMessages(ms).kept;
    FixMessagesKeeps(ms);
    if Stays(g) == [] {
      PlaceholderIsFine();
      PlaceholderViews();
    } else {
      forall i | 0 <= i < |r| ensures MessageTrimmed(r[i]) && ResultsFilled(r[i]) {
        HandedMessages(ms, KeptFrom(g) + i);
      }
      HandedApart(ms);
      SliceApart(g, KeptFrom(g), KeptTo(g));
      HandedSignedDistinct(ms);
      SliceSignedDistinct(g);
    }
  }

  lemma PlaceholderViews()
    requires WellFormed([PLACEHOLDER])
    ensures MessageTrimmed(PLACEHOLDER) && ResultsFilled(PLACEHOLDER)
    ensures Apart([PLACEHOLDER], false) && SignedDistinct([PLACEHOLDER])
  {
    hide MessageTrimmed, ResultsFilled, Apart, SignedDistinct, TextsMerged, NotEmpty, AllSurvive;
    assert [PLACEHOLDER][0] == PLACEHOLDER;
  }

  // ---- Calls and answers ----

  /** The ids requested and not yet answered at the end of `t`. */
  function Pend(t: seq<Item>): set<string> { FeedAll(START, t).pending }

  lemma PendSnoc(t: seq<Item>, x: Item)
    ensures Pend(t + [x]) == NextPending(x, Pend(t))
  {
    assert (t + [x])[..|t|] == t;
  }

  lemma {:induction false} PendSolid(t: seq<Item>)
    ensures Pend(Solid(t)) == Pend(t)
  {
    hide Pend, Solid;
    if t == [] {
      NothingSolid();
    } else {
      var n := |t| - 1;
      var init, x := t[..n], t[n];
      assert t == init + [x];
      PendSolid(init);
      SolidConcat(init, [x]);
      OneSolid(x);
      PendSnoc(init, x);
      if IsEmptyText(x.block) {
        assert Solid(init) + [] == Solid(init);
      } else {
        PendSnoc(Solid(init), x);
      }
    }
  }

  lemma NothingSolid()
    ensures Solid([]) == []
  {}

  lemma OneSolid(x: Item)
    ensures Solid([x]) == if IsEmptyText(x.block) then [] else [x]
  {
    assert [x][1..] == [];
  }

  lemma {:induction false} PendUnsigned(t: seq<Item>)
    ensures Pend(UnsignedOf(t)) == Pend(t)
  {
    hide Pend;
    if t != [] {
      var init, x := t[..|t| - 1], t[|t| - 1];
      assert t == init + [x];
      PendUnsigned(init);
      PendSnoc(init, x);
      if IsSignedItem(x) {
        assert UnsignedOf(init) + [] == UnsignedOf(init);
      } else {
        PendSnoc(UnsignedOf(init), x);
      }
    }
  }

  lemma AnsweredNotPending(t: seq<Item>)
    requires RequestsAnswered(t)
    ensures Pend(t) == {}
  {
    hide FeedAll;
    assert t[..|t|] == t;
    forall id ensures id !in Pend(t) {
      PendingIsAwaited(t, |t|, id);
      NotAwaitedWhenAnswered(t, id);
    }
  }

  lemma NotAwaitedWhenAnswered(t: seq<Item>, id: string)
    requires RequestsAnswered(t)
    ensures !Awaited(t, |t|, id)
  {
    forall i | 0 <= i < |t| && IsRequest(t[i], id) ensures !Quiet(t, i + 1, |t|, id) {
      assert HasResponse(t[i + 1..], id);
      var k :| 0 <= k < |t[i + 1..]| && IsResponse(t[i + 1..][k], id);
      assert IsResponse(t[i + 1 + k], id);
    }
  }

  lemma PendingNotAnswered(t: seq<Item>)
    requires WellPlaced(t) && Pend(t) == {}
    ensures RequestsAnswered(t)
  {
    hide FeedAll;
    assert t[..|t|] == t;
    forall i | 0 <= i < |t| && t[i].block.ToolRequest? ensures HasResponse(t[i + 1..], t[i].block.id) {
      var id := t[i].block.id;
      PendingIsAwaited(t, |t|, id);
      assert !Misplaced(t[i]) && IsRequest(t[i], id);
      assert !Quiet(t, i + 1, |t|, id);
      var k :| i + 1 <= k < |t| && IsResponse(t[k], id);
      assert t[i + 1..][k - (i + 1)] == t[k];
    }
  }

  lemma HandedHasNothingPending(ms: seq<Message>)
    ensures Pend(Items(Handed(ms))) == {}
  {
    hide Pend, Items, BeforeMerge, Prepared, FixToolCalling, Merge, DedupeMessages, UnsignedOf, Solid,
         RequestsAnswered, WellPlaced;
    PreparedFirst(ms);
    var e := BeforeMerge(ms).kept;
    RepairedCallsAnswered(Prepared(ms));
    AnsweredNotPending(Solid(Items(e)));
    PendSolid(Items(e));
    MergeKeepsItems(e, false);
    var f := Merge(e, false);
    DedupeExact(f);
    PendUnsigned(Items(f));
    PendUnsigned(Items(Handed(ms)));
  }

  lemma {:induction false} PendMonotone(l: Ledger, m: Ledger, t: seq<Item>)
    requires l.pending <= m.pending
    ensures FeedAll(l, t).pending <= FeedAll(m, t).pending
  {
    if t != [] { PendMonotone(l, m, t[..|t| - 1]); }
  }

  /** What the assistant says takes nothing off the list. */
  lemma {:induction false} AssistantOnlyAsks(l: Ledger, t: seq<Item>)
    requires forall i :: 0 <= i < |t| ==> t[i].role == Assistant
    ensures l.pending <= FeedAll(l, t).pending
  {
    if t != [] { AssistantOnlyAsks(l, t[..|t| - 1]); }
  }

  lemma AssistantItems(ms: seq<Message>)
    requires forall i :: 0 <= i < |ms| ==> ms[i].role == Assistant
    ensures forall k :: 0 <= k < |Items(ms)| ==> Items(ms)[k].role == Assistant
  {
    hide Items;
    forall k | 0 <= k < |Items(ms)| ensures Items(ms)[k].role == Assistant {
      var i, j := ItemsSource(ms, k);
    }
  }

  lemma StaysHasNothingPending(g: seq<Message>)
    requires Pend(Items(g)) == {}
    ensures Pend(Items(Stays(g))) == {}
  {
    hide FeedAll, Items;
    var l, h, t := Items(g[..KeptFrom(g)]), Items(Stays(g)), Items(g[KeptTo(g)..]);
    Sliced(g);
    FeedAllConcat(START, l + h, t);
    FeedAllConcat(START, l, h);
    AssistantItems(g[KeptTo(g)..]);
    AssistantOnlyAsks(FeedAll(START, l + h), t);
    assert START.pending == {};
    PendMonotone(START, FeedAll(START, l), h);
  }

  lemma StaysIsClean(ms: seq<Message>)
    ensures WellPlaced(Items(Stays(Handed(ms))))
  {
    hide Items, Handed, Fine, Misplaced, KeptFrom, KeptTo;
    var g := Handed(ms);
    var l, h := Items(g[..KeptFrom(g)]), Items(Stays(g));
    Sliced(g);
    forall i | 0 <= i < |h| ensures !Misplaced(h[i]) {
      assert Items(g)[|l| + i] == h[i];
      CleanHanded(ms, |l| + i);
    }
  }

  /** In every repaired conversation, calls and answers stand where they belong
      and every call is answered later. */
  lemma RepairedCallsStand(ms: seq<Message>)
    ensures var t := Items(FixMessages(ms).kept); WellPlaced(t) && RequestsAnswered(t) && Pend(t) == {}
  {
    hide Handed, FixMessages, WellPlaced, RequestsAnswered, Items, Pend, Stays;
    FixMessagesKeeps(ms);
    var g := Handed(ms);
    if Stays(g) == [] {
      PlaceholderCalls();
    } else {
      StaysIsClean(ms);
      HandedHasNothingPending(ms);
      StaysHasNothingPending(g);
    }
    PendingNotAnswered(Items(FixMessages(ms).kept));
  }

  lemma PlaceholderCalls()
    ensures WellPlaced(Items([PLACEHOLDER])) && Pend(Items([PLACEHOLDER])) == {}
  {
    var x := Item(User, PLACEHOLDER.content[0]);
    assert [PLACEHOLDER][..0] == [] && Items([PLACEHOLDER]) == [x];
    PendSnoc([], x);
    assert [] + [x] == [x];
  }

  // ---- When a second repair finds nothing ----

  /** Every answer follows a call for it that nothing else has answered. */
  ghost predicate ResponsesAwaited(t: seq<Item>) {
    forall j :: 0 <= j < |t| && t[j].block.ToolResponse? ==> Awaited(t, j, t[j].block.id)
  }

  lemma AllSurviveExactly(t: seq<Item>)
    requires WellPlaced(t) && Pend(t) == {}
    ensures AllSurvive(t) <==> ResponsesAwaited(t)
  {
    hide FeedAll, Awaited;
    assert t[..|t|] == t;
    forall j | 0 <= j < |t| ensures t[j].block.ToolRequest? ==> !Awaited(t, |t|, t[j].block.id) {
      if t[j].block.ToolRequest? { PendingIsAwaited(t, |t|, t[j].block.id); }
    }
    if AllSurvive(t) {
      forall j | 0 <= j < |t| && t[j].block.ToolResponse? ensures Awaited(t, j, t[j].block.id) {
        assert Survives(t, j);
      }
    }
  }

  /** What stays of the list handed to `fix_lead_trail` needs no further repair:
      nothing stays at all; or no two assistant messages stood at either end, and
      among the messages that stay no texts for one audience have come together,
      no message has been emptied, and every answer still has its call, which
      neither a repeated id nor the message dropped in front has taken away. */
  ghost predicate Settled(g: seq<Message>) {
    || Stays(g) == []
    || (&& !TwoLead(g) && !TwoTrail(g)
        && (forall i :: KeptFrom(g) <= i < KeptTo(g) ==> TextsMerged(g[i]) && NotEmpty(g[i]))
        && ResponsesAwaited(Items(Stays(g))))
  }

  /** The repaired conversation would be accepted, and so repaired into itself,
      if and only if what stays is settled. */
  lemma RepairSettlesExactly(ms: seq<Message>)
    ensures Accepts(FixMessages(ms).kept) <==> Settled(Handed(ms))
    ensures Settled(Handed(ms)) ==> FixMessages(FixMessages(ms).kept).kept == FixMessages(ms).kept
  {
    hide Handed, FixMessages, Accepts, WellFormed, Settled;
    var r := FixMessages(ms).kept;
    AcceptsExactlyWellFormed(r);
    FixMessagesKeeps(ms);
    if Stays(Handed(ms)) == [] {
      PlaceholderIsFine();
      NothingIsSettled(Handed(ms));
    } else {
      RepairedAlways(ms);
      RepairedCallsStand(ms);
      SettledIsWellFormed(Handed(ms));
    }
  }

  /** The repaired conversation begins and ends with the user exactly unless two
      assistant messages stood at an end of the list handed on. */
  lemma RepairedEndsExactly(ms: seq<Message>)
    ensures var g := Handed(ms);
            EndsAreUser(FixMessages(ms).kept) <==> Stays(g) == [] || (!TwoLead(g) && !TwoTrail(g))
  {
    hide Handed, FixMessages, FixLeadTrail, KeptFrom, KeptTo, TwoLead, TwoTrail;
    FixMessagesKeeps(ms);
    LeadTrailKeeps(Handed(ms));
    LeadTrailEnds(Handed(ms));
  }

  lemma NothingIsSettled(g: seq<Message>)
    requires Stays(g) == []
    ensures Settled(g)
  {}

  lemma SettledIsWellFormed(g: seq<Message>)
    requires var r := Stays(g);
             && r != []
             && (forall i :: 0 <= i < |r| ==> MessageTrimmed(r[i]) && ResultsFilled(r[i]))
             && Apart(r, false) && SignedDistinct(r)
             && WellPlaced(Items(r)) && Pend(Items(r)) == {}
    ensures WellFormed(Stays(g)) <==> Settled(g)
  {
    hide MessageTrimmed, ResultsFilled, TextsMerged, NotEmpty, Apart, SignedDistinct, WellPlaced, Pend, Items,
         AllSurvive, ResponsesAwaited, FixLeadTrail, TwoLead, TwoTrail, KeptFrom, KeptTo;
    var r := Stays(g);
    AllSurviveExactly(Items(r));
    LeadTrailKeeps(g);
    LeadTrailEnds(g);
    SameMessages(g);
  }

  lemma SameMessages(g: seq<Message>)
    ensures (forall i :: 0 <= i < |Stays(g)| ==> TextsMerged(Stays(g)[i]) && NotEmpty(Stays(g)[i]))
       <==> (forall i :: KeptFrom(g) <= i < KeptTo(g) ==> TextsMerged(g[i]) && NotEmpty(g[i]))
  {
    hide TextsMerged, NotEmpty, KeptFrom, KeptTo;
    var r, n := Stays(g), KeptFrom(g);
    assert forall i :: 0 <= i < |r| ==> r[i] == g[n + i];
    if forall i :: 0 <= i < |r| ==> TextsMerged(r[i]) && NotEmpty(r[i]) {
      forall i | n <= i < KeptTo(g) ensures TextsMerged(g[i]) && NotEmpty(g[i]) {
        assert r[i - n] == g[i];
      }
    }
  }

  // ---- A repair that changes nothing has nothing to report ----

  lemma {:induction false} MapShrinks(f: Message -> (Message, seq<string>), ms: seq<Message>)
    requires forall m :: |f(m).0.content| <= |m.content|
    ensures |Items(MapFix(f, ms).kept)| <= |Items(ms)|
    ensures |Items(MapFix(f, ms).kept)| == |Items(ms)| ==>
              forall i :: 0 <= i < |ms| ==> |f(ms[i]).0.content| == |ms[i].content|
  {
    hide Items;
    if ms == [] {
      NoItems();
    } else {
      var n := |ms| - 1;
      MapShrinks(f, ms[..n]);
      ItemsSnoc(MapFix(f, ms[..n]).kept, f(ms[n]).0);
      assert ms == ms[..n] + [ms[n]];
      ItemsSnoc(ms[..n], ms[n]);
    }
  }

  lemma TextsShrink(ms: seq<Message>)
    ensures var a := MapFix(MergeMessageTexts, ms);
            && |a.kept| == |ms| && |Items(a.kept)| <= |Items(ms)|
            && (|Items(a.kept)| == |Items(ms)| ==> a.issues == [])
  {
    hide Items, MapFix, MergeTexts;
    forall m: Message ensures |MergeMessageTexts(m).0.content| <= |m.content| { MergeTextsExact(m.content); }
    MapShrinks(MergeMessageTexts, ms);
    MapFixAt(MergeMessageTexts, ms);
  }

  lemma SameLength(f: Message -> (Message, seq<string>), ms: seq<Message>)
    requires forall m :: |f(m).0.content| == |m.content|
    ensures |MapFix(f, ms).kept| == |ms| && |Items(MapFix(f, ms).kept)| <= |Items(ms)|
  {
    hide Items, MapFix;
    MapShrinks(f, ms);
    MapFixAt(f, ms);
  }

  lemma TrimShrinks(ms: seq<Message>)
    ensures var b := MapFix(TrimMessage, ms).kept; |b| == |ms| && |Items(b)| <= |Items(ms)|
  {
    hide Items, TrimBlock;
    forall m: Message ensures |TrimMessage(m).0.content| == |m.content| { MapFixAt(TrimBlock, m.content); }
    SameLength(TrimMessage, ms);
  }

  lemma FillShrinks(ms: seq<Message>)
    ensures var d := MapFix(FillMessage, ms).kept; |d| == |ms| && |Items(d)| <= |Items(ms)|
  {
    hide Items, FillBlock;
    forall m: Message ensures |FillMessage(m).0.content| == |m.content| { MapFixAt(FillBlock, m.content); }
    SameLength(FillMessage, ms);
  }

  lemma {:induction false} RemoveEmptyShrinks(ms: seq<Message>)
    ensures var c := RemoveEmpty(ms);
            && |c.issues| == |ms| - |c.kept| && |Items(c.kept)| <= |Items(ms)|
  {
    hide Items, AllEmptyText;
    if ms != [] {
      var n := |ms| - 1;
      RemoveEmptyShrinks(ms[..n]);
      ItemsSnoc(RemoveEmpty(ms[..n]).kept, ms[n]);
      assert ms == ms[..n] + [ms[n]];
      ItemsSnoc(ms[..n], ms[n]);
    }
  }

  lemma CallsShrink(ms: seq<Message>)
    ensures var e := FixToolCalling(ms);
            && |e.kept| <= |ms| && |Items(e.kept)| <= |Items(ms)|
            && (|e.kept| == |ms| && |Items(e.kept)| == |Items(ms)| ==> e.issues == [])
  {
    hide Items, CleanMessages, DropOrphans, RemoveEmpty;
    var a := CleanMessages(ms);
    var b := DropOrphans(a.kept, a.pending);
    CleanMessagesCount(ms);
    DropOrphansCount(a.kept, a.pending);
    RemoveEmptyShrinks(b.kept);
  }

  lemma {:induction false} DedupeShrinks(ms: seq<Message>)
    ensures var g := DedupeMessages(ms);
            && |g.kept| == |ms| && |Items(g.kept)| <= |Items(ms)|
            && (|Items(g.kept)| == |Items(ms)| ==> g.issues == [])
  {
    hide Items, DedupeBlocks;
    if ms != [] {
      var n := |ms| - 1;
      var d, m := DedupeMessages(ms[..n]), ms[n];
      DedupeShrinks(ms[..n]);
      assert ms == ms[..n] + [m];
      ItemsSnoc(ms[..n], m);
      DedupeBlocksShrink(m.content, d.seen);
      ItemsSnoc(d.kept, m);
      ItemsSnoc(d.kept, m.(content := DedupeBlocks(m.content, d.seen).kept));
    } else {
      NoItems();
    }
  }

  /** The passes before the merge add neither blocks nor messages; if they take none
      away from trimmed and filled messages, they have nothing to report. */
  lemma BeforeMergeShrinks(ms: seq<Message>)
    ensures var e := BeforeMerge(ms);
            && |e.kept| <= |ms| && |Items(e.kept)| <= |Items(ms)|
            && (&& |e.kept| == |ms| && |Items(e.kept)| == |Items(ms)|
                && (forall i :: 0 <= i < |ms| ==> MessageTrimmed(ms[i]) && ResultsFilled(ms[i]))
                ==> e.issues == [] && e.kept == ms)
  {
    hide Items, MapFix, RemoveEmpty, FixToolCalling, MessageTrimmed, ResultsFilled, Honest;
    var a := MapFix(MergeMessageTexts, ms);
    var b := MapFix(TrimMessage, a.kept);
    var c := RemoveEmpty(b.kept);
    var d := MapFix(FillMessage, c.kept);
    TextsShrink(ms);
    TrimShrinks(a.kept);
    RemoveEmptyShrinks(b.kept);
    FillShrinks(c.kept);
    CallsShrink(d.kept);
    MergeMessageTextsHonest();
    TrimMessageHonest();
    FillMessageHonest();
    MapFixExact(MergeMessageTexts, TextsMerged, ms);
    MapFixExact(TrimMessage, MessageTrimmed, a.kept);
    RemoveEmptyExact(b.kept);
    MapFixExact(FillMessage, ResultsFilled, c.kept);
    FixToolCallingReports(d.kept);
  }

  /** So do the passes after it, as long as anything stays. */
  lemma AfterMergeShrinks(e: seq<Message>)
    requires FixLeadTrail(DedupeMessages(Merge(e, false)).kept).kept != []
    ensures var r := AfterMerge(e);
            && |r.kept| <= |e| && |Items(r.kept)| <= |Items(e)|
            && (|r.kept| == |e| && |Items(r.kept)| == |Items(e)| ==> r.issues == [])
  {
    hide Items, Merge, MergeIssues, DedupeMessages, FixLeadTrail, EndsAreUser, KeptFrom, KeptTo;
    var f := Merge(e, false);
    var g := DedupeMessages(f);
    MergeExact(e, false);
    MergeKeepsItems(e, false);
    DedupeShrinks(f);
    LeadTrailKeeps(g.kept);
    Sliced(g.kept);
    LeadTrailReports(g.kept);
  }

  lemma LeadTrailReports(g: seq<Message>)
    ensures |FixLeadTrail(g).kept| == |g| ==> FixLeadTrail(g).issues == []
  {}

  /** A list is accepted exactly if the repair leaves it as it is. */
  lemma AcceptsExactlyFixpoints(ms: seq<Message>)
    ensures Accepts(ms) <==> FixMessages(ms).kept == ms
  {
    hide BeforeMerge, AfterMerge, Items, FixLeadTrail, DedupeMessages, Merge, WellFormed, MessageTrimmed, ResultsFilled;
    AcceptsExactlyWellFormed(ms);
    if FixMessages(ms).kept == ms {
      var e := BeforeMerge(ms).kept;
      if FixLeadTrail(DedupeMessages(Merge(e, false)).kept).kept == [] {
        PlaceholderOnly(e);
        PlaceholderIsFine();
      } else {
        RepairedAlways(ms);
        BeforeMergeShrinks(ms);
        AfterMergeShrinks(e);
      }
    }
  }

  lemma PlaceholderOnly(e: seq<Message>)
    requires FixLeadTrail(DedupeMessages(Merge(e, false)).kept).kept == []
    ensures AfterMerge(e).kept == [PLACEHOLDER]
  {
    hide FixLeadTrail, DedupeMessages, Merge, MergeIssues;
  }

  /** Repairing twice is repairing once if and only if what stays is settled. */
  lemma IdempotentExactly(ms: seq<Message>)
    ensures FixMessages(FixMessages(ms).kept).kept == FixMessages(ms).kept <==> Settled(Handed(ms))
  {
    hide FixMessages, Accepts, Settled, Handed;
    RepairSettlesExactly(ms);
    AcceptsExactlyFixpoints(FixMessages(ms).kept);
  }

  /** The pipeline is not idempotent: merging two assistant messages puts their
      texts side by side, and a second repair makes one text of them. */
  lemma RepairIsNotIdempotent()
    ensures var ms := [Say(User, "q", true), Say(Assistant, "a", true), Say(Assistant, "b", true),
                       Say(User, "r", true)];
            FixMessages(FixMessages(ms).kept).kept != FixMessages(ms).kept
  {
    hide FixMessages, Accepts, Say;
    var ms := [Say(User, "q", true), Say(Assistant, "a", true), Say(Assistant, "b", true), Say(User, "r", true)];
    RepairIsNotAccepted();
    AcceptsExactlyFixpoints(FixMessages(ms).kept);
  }

  // ---- What is sent to the provider ----

  lemma ApartAlternates(ms: seq<Message>)
    requires Apart(ms, true)
    ensures Alternates(ms)
  {
    hide EffectiveRoleOf;
    forall i | 0 <= i < |ms| - 1 ensures EffectiveRoleOf(ms[i]) != EffectiveRoleOf(ms[i + 1]) {
      assert !Mergeable(ms[i], ms[i + 1], true);
    }
  }

  lemma {:induction false} MergeKeepsEnds(ms: seq<Message>, across: bool)
    requires ms != []
    ensures var q := Merge(ms, across);
            q != [] && q[0].role == ms[0].role && q[|q| - 1].role == ms[|ms| - 1].role
  {
    hide AddMessage;
    var n := |ms| - 1;
    if n == 0 {
      assert ms[..0] == [];
      AddedEnds([], ms[0], across);
    } else {
      MergeKeepsEnds(ms[..n], across);
      AddedEnds(Merge(ms[..n], across), ms[n], across);
    }
  }

  lemma AddedEnds(acc: seq<Message>, m: Message, across: bool)
    ensures var q := AddMessage(acc, m, across);
            && q != [] && q[|q| - 1].role == m.role
            && q[0].role == if acc == [] then m.role else acc[0].role
  {
    hide HasToolResponse;
  }

  /** The request that goes out is the repaired conversation, merged once more
      without regard to visibility. Whatever went in, it is not empty, its roles
      alternate, its calls are well placed and answered, and its ends are right
      exactly if those of the repaired conversation are. */
  lemma RequestIsAlternating(ms: seq<Message>)
    ensures var q := Merge(FixMessages(ms).kept, true);
            var g := Handed(ms);
            && q != [] && Alternates(q)
            && WellPlaced(Items(q)) && RequestsAnswered(Items(q))
            && (EndsAreUser(q) <==> Stays(g) == [] || (!TwoLead(g) && !TwoTrail(g)))
  {
    hide FixMessages, Merge, Handed, Items, Alternates, WellPlaced, RequestsAnswered, Apart, Stays, TwoLead,
         TwoTrail, Pend, SignedDistinct, MessageTrimmed, ResultsFilled;
    var r := FixMessages(ms).kept;
    RepairedAlways(ms);
    RepairedCallsStand(ms);
    RepairedEndsExactly(ms);
    MergeLeavesApart(r, true);
    ApartAlternates(Merge(r, true));
    MergeKeepsItems(r, true);
    MergeKeepsEnds(r, true);
  }

  // ---- With distinct request ids ----

  predicate IsCall(x: Item) { x.role == Assistant && x.block.ToolRequest? }

  predicate IsAnswer(x: Item) { x.role == User && x.block.ToolResponse? }

  function IdOf(x: Item): string
    requires IsCall(x) || IsAnswer(x)
  {
    x.block.id
  }

  /** The ids of all calls, or of all answers, in order. */
  function Ids(t: seq<Item>, calls: bool): seq<string> {
    if t == [] then []
    else
      var x := t[|t| - 1];
      Ids(t[..|t| - 1], calls) + if (if calls then IsCall(x) else IsAnswer(x)) then [IdOf(x)] else []
  }

  lemma IdsSnoc(t: seq<Item>, x: Item, calls: bool)
    ensures Ids(t + [x], calls)
         == Ids(t, calls) + if (if calls then IsCall(x) else IsAnswer(x)) then [IdOf(x)] else []
  {
    assert (t + [x])[..|t|] == t;
  }

  lemma {:induction false} IdsConcat(t: seq<Item>, u: seq<Item>, calls: bool)
    ensures Ids(t + u, calls) == Ids(t, calls) + Ids(u, calls)
  {
    if u == [] {
      assert t + u == t;
    } else {
      assert (t + u)[..|t + u| - 1] == t + u[..|u| - 1];
      IdsConcat(t, u[..|u| - 1], calls);
    }
  }

  lemma {:induction false} IdsMember(t: seq<Item>, id: string)
    ensures id in Ids(t, true) <==> HasRequest(t, id)
    ensures id in Ids(t, false) <==> HasResponse(t, id)
  {
    if t != [] {
      var n := |t| - 1;
      IdsMember(t[..n], id);
      HasSnoc(t[..n], t[n], id);
      assert t == t[..n] + [t[n]];
    }
  }

  lemma HasSnoc(t: seq<Item>, x: Item, id: string)
    ensures HasRequest(t + [x], id) <==> HasRequest(t, id) || IsRequest(x, id)
    ensures HasResponse(t + [x], id) <==> HasResponse(t, id) || IsResponse(x, id)
  {
    var u := t + [x];
    assert u[|t|] == x;
    if HasRequest(t, id) {
      var j :| 0 <= j < |t| && IsRequest(t[j], id);
      assert IsRequest(u[j], id);
    }
    if HasResponse(t, id) {
      var j :| 0 <= j < |t| && IsResponse(t[j], id);
      assert IsResponse(u[j], id);
    }
  }

  /** No call repeats the id of another, and no answer does. */
  predicate Distinct(t: seq<Item>) { NoDup(Ids(t, true)) && NoDup(Ids(t, false)) }

  lemma {:induction false} DistinctCalls(t: seq<Item>)
    ensures DistinctRequests(t) <==> NoDup(Ids(t, true))
  {
    hide NoDup, Ids;
    if t == [] {
      NoIds();
      NoDupNothing<string>();
    } else {
      var n := |t| - 1;
      var init, x := t[..n], t[n];
      assert t == init + [x];
      DistinctCalls(init);
      IdsSnoc(init, x, true);
      if IsCall(x) {
        NoDupSnoc(Ids(init, true), IdOf(x));
        IdsMember(init, IdOf(x));
      } else {
        assert Ids(init, true) + [] == Ids(init, true);
      }
      DistinctSnoc(init, x);
    }
  }

  lemma NoIds()
    ensures Ids([], true) == [] && Ids([], false) == []
  {}

  lemma DistinctSnoc(t: seq<Item>, x: Item)
    ensures DistinctRequests(t + [x]) <==> DistinctRequests(t) && (IsCall(x) ==> !HasRequest(t, IdOf(x)))
  {
    var u := t + [x];
    if DistinctRequests(u) {
      forall i, j, id | 0 <= i < j < |t| && IsRequest(t[i], id) ensures !IsRequest(t[j], id) {
        assert u[i] == t[i] && u[j] == t[j];
      }
      if IsCall(x) {
        forall i | 0 <= i < |t| ensures !IsRequest(t[i], IdOf(x)) {
          assert u[i] == t[i] && IsRequest(u[|t|], IdOf(x));
        }
      }
    } else if DistinctRequests(t) {
      assert forall i :: 0 <= i < |t| ==> u[i] == t[i];
      var i, j, id :| 0 <= i < j < |u| && IsRequest(u[i], id) && IsRequest(u[j], id);
      assert j == |t| && IsRequest(t[i], id);
    }
  }

  lemma {:induction false} NoRepeatsDistinct(t: seq<Item>)
    requires NoRepeats(t)
    ensures Distinct(t)
  {
    hide NoDup, Ids;
    if t == [] {
      NoIds();
      NoDupNothing<string>();
    } else {
      var n := |t| - 1;
      var init, x := t[..n], t[n];
      assert t == init + [x];
      assert NoRepeats(init);
      NoRepeatsDistinct(init);
      IdsSnoc(init, x, true);
      IdsSnoc(init, x, false);
      assert Ids(init, true) + [] == Ids(init, true) && Ids(init, false) + [] == Ids(init, false);
      if IsCall(x) {
        NoDupSnoc(Ids(init, true), IdOf(x));
        IdsMember(init, IdOf(x));
      }
      if IsAnswer(x) {
        NoDupSnoc(Ids(init, false), IdOf(x));
        IdsMember(init, IdOf(x));
      }
    }
  }

  // ---- The early passes leave the calls alone ----

  lemma {:induction false} SolidIds(t: seq<Item>, calls: bool)
    ensures Ids(Solid(t), calls) == Ids(t, calls)
  {
    hide Ids, Solid;
    if t == [] {
      NothingSolid();
    } else {
      var n := |t| - 1;
      var init, x := t[..n], t[n];
      assert t == init + [x];
      SolidIds(init, calls);
      SolidConcat(init, [x]);
      OneSolid(x);
      IdsSnoc(init, x, calls);
      if IsEmptyText(x.block) {
        assert Solid(init) + [] == Solid(init);
      } else {
        IdsSnoc(Solid(init), x, calls);
      }
    }
  }

  lemma {:induction false} UnsignedIds(t: seq<Item>, calls: bool)
    ensures Ids(UnsignedOf(t), calls) == Ids(t, calls)
  {
    hide Ids;
    if t != [] {
      var init, x := t[..|t| - 1], t[|t| - 1];
      assert t == init + [x];
      UnsignedIds(init, calls);
      IdsSnoc(init, x, calls);
      if IsSignedItem(x) {
        assert UnsignedOf(init) + [] == UnsignedOf(init);
      } else {
        IdsSnoc(UnsignedOf(init), x, calls);
      }
    }
  }

  function Called(role: Role, bs: seq<Block>): seq<string> { Ids(ItemsOf(role, bs), true) }

  lemma CalledSnoc(role: Role, bs: seq<Block>, b: Block)
    ensures Called(role, bs + [b]) == Called(role, bs) + if IsCall(Item(role, b)) then [b.id] else []
  {
    ItemsOfConcat(role, bs, [b]);
    assert ItemsOf(role, [b]) == [Item(role, b)];
    IdsSnoc(ItemsOf(role, bs), Item(role, b), true);
  }

  lemma {:induction false} CalledPointwise(role: Role, a: seq<Block>, b: seq<Block>)
    requires |a| == |b|
    requires forall i :: 0 <= i < |a| ==> (a[i].ToolRequest? || b[i].ToolRequest? ==> a[i] == b[i])
    ensures Called(role, a) == Called(role, b)
  {
    hide Called;
    if a != [] {
      var n := |a| - 1;
      CalledPointwise(role, a[..n], b[..n]);
      assert a == a[..n] + [a[n]] && b == b[..n] + [b[n]];
      CalledSnoc(role, a[..n], a[n]);
      CalledSnoc(role, b[..n], b[n]);
    } else {
      assert a == b;
    }
  }

  lemma {:induction false} MergedTextsCall(role: Role, bs: seq<Block>)
    ensures Called(role, MergeTexts(bs)) == Called(role, bs)
  {
    hide Called, SameAudience;
    if bs != [] {
      var n := |bs| - 1;
      var acc, b := MergeTexts(bs[..n]), bs[n];
      MergedTextsCall(role, bs[..n]);
      assert bs == bs[..n] + [b];
      CalledSnoc(role, bs[..n], b);
      AddedBlockCalls(role, acc, b);
    }
  }

  lemma AddedBlockCalls(role: Role, acc: seq<Block>, b: Block)
    ensures Called(role, AddBlock(acc, b)) == Called(role, acc) + if IsCall(Item(role, b)) then [b.id] else []
  {
    hide Called;
    if acc != [] && SameAudience(acc[|acc| - 1], b) {
      var init, l := acc[..|acc| - 1], acc[|acc| - 1];
      assert acc == init + [l];
      CalledSnoc(role, init, l);
      CalledSnoc(role, init, l.(text := l.text + b.text));
    } else {
      CalledSnoc(role, acc, b);
    }
  }

  ghost predicate KeepsCalls(f: Message -> (Message, seq<string>)) {
    forall m :: f(m).0.role == m.role && Called(m.role, f(m).0.content) == Called(m.role, m.content)
  }

  lemma MergeMessageTextsKeepsCalls()
    ensures KeepsCalls(MergeMessageTexts)
  {
    hide Called;
    forall m: Message ensures Called(m.role, MergeMessageTexts(m).0.content) == Called(m.role, m.content) {
      MergedTextsCall(m.role, m.content);
    }
  }

  lemma TrimMessageKeepsCalls()
    ensures KeepsCalls(TrimMessage)
  {
    hide Called, TrimMessage;
    forall m: Message
      ensures TrimMessage(m).0.role == m.role && Called(m.role, TrimMessage(m).0.content) == Called(m.role, m.content)
    {
      TrimmedCalls(m);
    }
  }

  lemma TrimmedCalls(m: Message)
    ensures TrimMessage(m).0.role == m.role && Called(m.role, TrimMessage(m).0.content) == Called(m.role, m.content)
  {
    hide Called, MapFix, TrimEnd;
    var r := MapFix(TrimBlock, m.content).kept;
    MapFixAt(TrimBlock, m.content);
    forall i | 0 <= i < |r| ensures r[i].ToolRequest? || m.content[i].ToolRequest? ==> r[i] == m.content[i] {
      assert r[i] == TrimBlock(m.content[i]).0;
    }
    CalledPointwise(m.role, r, m.content);
  }

  lemma FillMessageKeepsCalls()
    ensures KeepsCalls(FillMessage)
  {
    hide Called, FillMessage;
    forall m: Message
      ensures FillMessage(m).0.role == m.role && Called(m.role, FillMessage(m).0.content) == Called(m.role, m.content)
    {
      FilledCalls(m);
    }
  }

  lemma FilledCalls(m: Message)
    ensures FillMessage(m).0.role == m.role && Called(m.role, FillMessage(m).0.content) == Called(m.role, m.content)
  {
    hide Called, MapFix, HasContent;
    var r := MapFix(FillBlock, m.content).kept;
    MapFixAt(FillBlock, m.content);
    forall i | 0 <= i < |r| ensures r[i].ToolRequest? || m.content[i].ToolRequest? ==> r[i] == m.content[i] {
      assert r[i] == FillBlock(m.content[i]).0;
    }
    CalledPointwise(m.role, r, m.content);
  }

  lemma {:induction false} MapKeepsCalls(f: Message -> (Message, seq<string>), ms: seq<Message>)
    requires KeepsCalls(f)
    ensures Ids(Items(MapFix(f, ms).kept), true) == Ids(Items(ms), true)
  {
    hide Ids;
    if ms != [] {
      var n := |ms| - 1;
      var c := MapFix(f, ms[..n]).kept;
      var x, m := f(ms[n]).0, ms[n];
      MapKeepsCalls(f, ms[..n]);
      ItemsSnoc(c, x);
      IdsConcat(Items(c), ItemsOf(x.role, x.content), true);
      IdsConcat(Items(ms[..n]), ItemsOf(m.role, m.content), true);
      assert Called(m.role, x.content) == Called(m.role, m.content);
    }
  }

  lemma RemoveEmptyKeepsCalls(ms: seq<Message>)
    ensures Ids(Items(RemoveEmpty(ms).kept), true) == Ids(Items(ms), true)
  {
    hide Ids, RemoveEmpty, Items;
    RemoveEmptyKeepsSolid(ms);
    SolidIds(Items(ms), true);
    SolidIds(Items(RemoveEmpty(ms).kept), true);
  }

  lemma PreparedKeepsCalls(ms: seq<Message>)
    ensures Ids(Items(Prepared(ms)), true) == Ids(Items(ms), true)
  {
    hide Ids, Items, MapFix, RemoveEmpty, KeepsCalls;
    MergeMessageTextsKeepsCalls();
    TrimMessageKeepsCalls();
    FillMessageKeepsCalls();
    var a := MapFix(MergeMessageTexts, ms).kept;
    var b := MapFix(TrimMessage, a).kept;
    var c := RemoveEmpty(b).kept;
    MapKeepsCalls(MergeMessageTexts, ms);
    MapKeepsCalls(TrimMessage, a);
    RemoveEmptyKeepsCalls(b);
    MapKeepsCalls(FillMessage, c);
  }

  // ---- Answers and their calls ----

  /** Every answer has its call earlier, said by recursion. */
  predicate Told(t: seq<Item>) {
    t == [] ||
    var init, x := t[..|t| - 1], t[|t| - 1];
    Told(init) && (x.block.ToolResponse? ==> x.block.id in Ids(init, true))
  }

  lemma ToldSnoc(t: seq<Item>, x: Item)
    ensures Told(t + [x]) <==> Told(t) && (x.block.ToolResponse? ==> x.block.id in Ids(t, true))
  {
    assert (t + [x])[..|t|] == t;
  }

  lemma {:induction false} ToldExactly(t: seq<Item>)
    ensures Told(t) <==> ResponsesRequested(t)
  {
    hide Told, Ids, HasRequest;
    if t == [] {
      NothingTold();
    } else {
      var n := |t| - 1;
      var init, x := t[..n], t[n];
      assert t == init + [x];
      ToldExactly(init);
      ToldSnoc(init, x);
      if x.block.ToolResponse? { IdsMember(init, x.block.id); }
      assert forall j :: 0 <= j < n ==> t[j] == init[j] && t[..j] == init[..j];
      assert t[..n] == init;
    }
  }

  lemma NothingTold()
    ensures Told([])
  {}

  lemma {:induction false} ToldSolid(t: seq<Item>)
    ensures Told(Solid(t)) <==> Told(t)
  {
    hide Told, Solid, Ids;
    if t == [] {
      NothingSolid();
    } else {
      var n := |t| - 1;
      var init, x := t[..n], t[n];
      assert t == init + [x];
      ToldSolid(init);
      SolidConcat(init, [x]);
      OneSolid(x);
      SolidIds(init, true);
      ToldSnoc(init, x);
      if IsEmptyText(x.block) {
        assert Solid(init) + [] == Solid(init);
      } else {
        ToldSnoc(Solid(init), x);
      }
    }
  }

  lemma {:induction false} ToldUnsigned(t: seq<Item>)
    ensures Told(UnsignedOf(t)) <==> Told(t)
  {
    hide Told, Ids;
    if t != [] {
      var init, x := t[..|t| - 1], t[|t| - 1];
      assert t == init + [x];
      ToldUnsigned(init);
      UnsignedIds(init, true);
      ToldSnoc(init, x);
      if IsSignedItem(x) {
        assert UnsignedOf(init) + [] == UnsignedOf(init);
      } else {
        ToldSnoc(UnsignedOf(init), x);
      }
    }
  }

  /** With distinct request ids, the list handed to `fix_lead_trail` has every
      call and every answer once, each answer after its call. */
  lemma HandedIsPaired(ms: seq<Message>)
    requires DistinctRequests(Items(ms))
    ensures ResponsesRequested(Items(Handed(ms))) && Distinct(Items(Handed(ms)))
  {
    hide Ids, NoDup, Told, Items, Solid, UnsignedOf, Merge, DedupeMessages, FixToolCalling, Prepared,
         BeforeMerge, ResponsesRequested, DistinctRequests, NoRepeats;
    var d := Prepared(ms);
    PreparedKeepsCalls(ms);
    DistinctCalls(Items(ms));
    DistinctCalls(Items(d));
    RepairedCallsPaired(d);
    var e := FixToolCalling(d).kept;
    PreparedFirst(ms);
    var f := Merge(e, false);
    MergeKeepsItems(e, false);
    DedupeExact(f);
    var t, u := Items(e), Items(Handed(ms));
    NoRepeatsDistinct(Solid(t));
    SameIds(t, u);
    ToldExactly(Solid(t));
    ToldSolid(t);
    ToldUnsigned(t);
    ToldUnsigned(u);
    ToldExactly(u);
  }

  lemma SameIds(t: seq<Item>, u: seq<Item>)
    requires UnsignedOf(u) == UnsignedOf(t)
    ensures Distinct(Solid(t)) <==> Distinct(u)
  {
    hide Ids, NoDup, Solid, UnsignedOf;
    SolidIds(t, true);
    SolidIds(t, false);
    UnsignedIds(t, true);
    UnsignedIds(t, false);
    UnsignedIds(u, true);
    UnsignedIds(u, false);
  }

  /** The assistant message dropped in front carries a call. */
  predicate LeadCalls(g: seq<Message>) {
    g != [] && g[0].role == Assistant && exists j :: 0 <= j < |g[0].content| && g[0].content[j].ToolRequest?
  }

  lemma LeadCallsExactly(g: seq<Message>)
    ensures LeadCalls(g) <==> exists k :: 0 <= k < |Items(g[..KeptFrom(g)])| && IsCall(Items(g[..KeptFrom(g)])[k])
  {
    hide Items;
    var l := g[..KeptFrom(g)];
    if LeadCalls(g) {
      var j :| 0 <= j < |g[0].content| && g[0].content[j].ToolRequest?;
      var k := ItemsContain(l, 0, j);
      assert IsCall(Items(l)[k]);
    }
    if k :| 0 <= k < |Items(l)| && IsCall(Items(l)[k]) {
      var i, j := ItemsSource(l, k);
      assert g[0].content[j].ToolRequest?;
    }
  }

  lemma DistinctApart(t: seq<Item>, i: nat, j: nat, id: string)
    requires Distinct(t) && i < j < |t| && IsRequest(t[i], id)
    ensures !IsRequest(t[j], id)
  {
    hide NoDup, Ids;
    DistinctCalls(t);
  }

  /** Dropping the assistant's messages at the ends takes calls away from answers
      that stay exactly if the first one carries a call. */
  lemma DroppedCalls(l: seq<Item>, h: seq<Item>, t: seq<Item>)
    requires forall i :: 0 <= i < |l| ==> l[i].role == Assistant
    requires forall i :: 0 <= i < |t| ==> t[i].role == Assistant
    requires ResponsesRequested(l + h + t) && RequestsAnswered(l + h + t) && Distinct(l + h + t)
    ensures ResponsesRequested(h) <==> !exists k :: 0 <= k < |l| && IsCall(l[k])
    ensures h == [] ==> !exists k :: 0 <= k < |l| && IsCall(l[k])
  {
    hide Distinct;
    var s := l + h + t;
    if k :| 0 <= k < |l| && IsCall(l[k]) {
      var j := AnswerStays(l, h, t, k);
      if ResponsesRequested(h) {
        var id := IdOf(l[k]);
        assert HasRequest(h[..j], id);
        var m :| 0 <= m < |h[..j]| && IsRequest(h[..j][m], id);
        assert s[|l| + m] == h[m] && s[k] == l[k];
        DistinctApart(s, k, |l| + m, id);
      }
    } else {
      forall j | 0 <= j < |h| && h[j].block.ToolResponse? ensures HasRequest(h[..j], h[j].block.id) {
        CallStays(l, h, t, j);
      }
    }
  }

  lemma AnswerStays(l: seq<Item>, h: seq<Item>, t: seq<Item>, k: nat) returns (j: nat)
    requires forall i :: 0 <= i < |l| ==> l[i].role == Assistant
    requires forall i :: 0 <= i < |t| ==> t[i].role == Assistant
    requires RequestsAnswered(l + h + t) && k < |l| && IsCall(l[k])
    ensures j < |h| && IsResponse(h[j], IdOf(l[k]))
  {
    var s := l + h + t;
    assert s[k] == l[k];
    var u := s[k + 1..];
    assert HasResponse(u, IdOf(l[k]));
    var m :| 0 <= m < |u| && IsResponse(u[m], IdOf(l[k]));
    var n := k + 1 + m;
    assert s[n] == u[m];
    assert forall i :: 0 <= i < |l| ==> s[i] == l[i];
    assert forall i :: |l| + |h| <= i < |s| ==> s[i] == t[i - |l| - |h|];
    j := n - |l|;
  }

  lemma CallStays(l: seq<Item>, h: seq<Item>, t: seq<Item>, j: nat)
    requires ResponsesRequested(l + h + t) && j < |h| && h[j].block.ToolResponse?
    requires forall k :: 0 <= k < |l| ==> !IsCall(l[k])
    ensures HasRequest(h[..j], h[j].block.id)
  {
    var s := l + h + t;
    var n, id := |l| + j, h[j].block.id;
    assert s[n] == h[j];
    assert HasRequest(s[..n], id);
    var m :| 0 <= m < |s[..n]| && IsRequest(s[..n][m], id);
    assert forall i :: 0 <= i < |l| ==> s[i] == l[i];
    assert h[..j][m - |l|] == s[m];
  }

  /** With distinct request ids, every answer in the repaired conversation has its
      call before it if and only if the assistant message dropped in front carried
      no call. */
  lemma RepairedResponsesRequested(ms: seq<Message>)
    requires DistinctRequests(Items(ms))
    ensures ResponsesRequested(Items(FixMessages(ms).kept)) <==> !LeadCalls(Handed(ms))
  {
    hide Handed, FixMessages, Items, Distinct, DistinctRequests, ResponsesRequested, RequestsAnswered,
         LeadCalls, WellPlaced, Pend;
    var g := Handed(ms);
    var l, h, t := Items(g[..KeptFrom(g)]), Items(Stays(g)), Items(g[KeptTo(g)..]);
    FixMessagesKeeps(ms);
    HandedIsPaired(ms);
    HandedAnswered(ms);
    Sliced(g);
    AssistantItems(g[..KeptFrom(g)]);
    AssistantItems(g[KeptTo(g)..]);
    DroppedCalls(l, h, t);
    LeadCallsExactly(g);
    if Stays(g) == [] {
      NoItems();
      PlaceholderTold();
    }
  }

  lemma HandedAnswered(ms: seq<Message>)
    ensures RequestsAnswered(Items(Handed(ms)))
  {
    hide Handed, Items, Pend, Fine, Misplaced, RequestsAnswered;
    var t := Items(Handed(ms));
    forall k | 0 <= k < |t| ensures !Misplaced(t[k]) { CleanHanded(ms, k); }
    HandedHasNothingPending(ms);
    PendingNotAnswered(t);
  }

  lemma PlaceholderTold()
    ensures ResponsesRequested(Items([PLACEHOLDER]))
  {
    assert [PLACEHOLDER][..0] == [];
    assert Items([PLACEHOLDER]) == [Item(User, PLACEHOLDER.content[0])];
  }

  lemma AnswersDiffer(t: seq<Item>, i: nat, j: nat, id: string)
    requires Distinct(t) && i < j < |t| && IsResponse(t[i], id)
    ensures !IsResponse(t[j], id)
  {
    hide Ids, NoDup;
    if IsResponse(t[j], id) {
      var a, x, c := t[..j], t[j], t[j + 1..];
      assert t == (a + [x]) + c;
      IdsConcat(a + [x], c, false);
      IdsSnoc(a, x, false);
      IdsMember(a, id);
      assert a[i] == t[i];
      RepeatIsDup(Ids(a, false), id, Ids(c, false));
    }
  }

  lemma RepeatIsDup<T>(a: seq<T>, x: T, c: seq<T>)
    requires x in a
    ensures !NoDup(a + [x] + c)
  {
    var k :| 0 <= k < |a| && a[k] == x;
    var s := a + [x] + c;
    assert s[k] == x && s[|a|] == x;
  }

  /** If no answer is repeated, a call before it is a call that awaits it. */
  lemma RequestedIsAwaited(t: seq<Item>)
    requires WellPlaced(t) && Distinct(t)
    ensures ResponsesAwaited(t) <==> ResponsesRequested(t)
  {
    hide Distinct;
    forall j | 0 <= j < |t| && t[j].block.ToolResponse?
      ensures Awaited(t, j, t[j].block.id) <==> HasRequest(t[..j], t[j].block.id)
    {
      var id := t[j].block.id;
      assert !Misplaced(t[j]) && IsResponse(t[j], id);
      if HasRequest(t[..j], id) {
        var i :| 0 <= i < |t[..j]| && IsRequest(t[..j][i], id);
        forall k | i + 1 <= k < j ensures !IsResponse(t[k], id) {
          if IsResponse(t[k], id) { AnswersDiffer(t, k, j, id); }
        }
        assert IsRequest(t[i], id) && Quiet(t, i + 1, j, id);
      }
      if Awaited(t, j, id) {
        var i :| 0 <= i < j && i < |t| && IsRequest(t[i], id) && Quiet(t, i + 1, j, id);
        assert IsRequest(t[..j][i], id);
      }
    }
  }

  lemma StaysDistinct(g: seq<Message>)
    requires Distinct(Items(g))
    ensures Distinct(Items(Stays(g)))
  {
    hide Ids, NoDup, Items, KeptFrom, KeptTo;
    var l, h, t := Items(g[..KeptFrom(g)]), Items(Stays(g)), Items(g[KeptTo(g)..]);
    Sliced(g);
    forall calls: bool ensures NoDup(Ids(h, calls)) {
      IdsConcat(l + h, t, calls);
      IdsConcat(l, h, calls);
      assert NoDup(Ids(l + h + t, calls));
      NoDupMiddle(Ids(l, calls), Ids(h, calls), Ids(t, calls));
    }
  }

  /** With distinct request ids the repair settles exactly if nothing stays, or no
      two assistant messages stood at either end, no texts have come together and
      no message has been emptied, and the message dropped in front carried no call. */
  lemma DistinctIdsSettle(ms: seq<Message>)
    requires DistinctRequests(Items(ms))
    ensures var g := Handed(ms);
            Accepts(FixMessages(ms).kept) <==>
              || Stays(g) == []
              || (&& !TwoLead(g) && !TwoTrail(g) && !LeadCalls(g)
                  && (forall i :: KeptFrom(g) <= i < KeptTo(g) ==> TextsMerged(g[i]) && NotEmpty(g[i])))
  {
    hide Handed, FixMessages, Accepts, Items, Distinct, DistinctRequests, ResponsesRequested,
         ResponsesAwaited, LeadCalls, WellPlaced, TextsMerged, NotEmpty, Stays, TwoLead, TwoTrail, KeptFrom,
         KeptTo;
    var g := Handed(ms);
    RepairSettlesExactly(ms);
    RepairedResponsesRequested(ms);
    FixMessagesKeeps(ms);
    HandedIsPaired(ms);
    StaysDistinct(g);
    StaysIsClean(ms);
    RequestedIsAwaited(Items(Stays(g)));
  }

  const CALL := ToolRequest("a", Call("t", 0), false)
  const ANSWER := ToolResponse("a", Ok([ResultImage]))

  /** A call in the first message is dropped with it, and its answer stays. */
  lemma LeadingCallOrphansAnswer()
    ensures var q := Message(None, Assistant, [CALL], DEFAULT_METADATA);
            var r := Message(None, User, [ANSWER], DEFAULT_METADATA);
            FixMessages([q, r]).kept == [r] && !ResponsesRequested(Items([r]))
  {
    hide Handed, FixMessages;
    var q := Message(None, Assistant, [CALL], DEFAULT_METADATA);
    var r := Message(None, User, [ANSWER], DEFAULT_METADATA);
    CallIsHanded(q, r);
    assert Stays([q, r]) == [r];
    FixMessagesKeeps([q, r]);
    assert [r][..0] == [] && Items([r]) == [Item(User, ANSWER)];
    assert Items([r])[0].block.ToolResponse? && !HasRequest(Items([r])[..0], "a");
  }

  lemma CallIsHanded(q: Message, r: Message)
    requires q == Message(None, Assistant, [CALL], DEFAULT_METADATA)
    requires r == Message(None, User, [ANSWER], DEFAULT_METADATA)
    ensures Handed([q, r]) == [q, r]
  {
    hide Apart, SignedOf, Items, BeforeMerge, Merge, DedupeMessages, TextsMerged, MessageTrimmed, NotEmpty,
         ResultsFilled, AllSurvive, SignedDistinct;
    var ms := [q, r];
    CallAndAnswer(q, r);
    BeforeMergeExact(ms);
    RolesDiffer(q, r);
    MergeExact(ms, false);
    DedupeExact(ms);
  }

  lemma RolesDiffer(q: Message, r: Message)
    requires q.role != r.role
    ensures Apart([q, r], false)
  {}

  lemma CallAndAnswer(q: Message, r: Message)
    requires q == Message(None, Assistant, [CALL], DEFAULT_METADATA)
    requires r == Message(None, User, [ANSWER], DEFAULT_METADATA)
    ensures forall i :: 0 <= i < 2 ==>
              TextsMerged([q, r][i]) && MessageTrimmed([q, r][i]) && NotEmpty([q, r][i]) && ResultsFilled([q, r][i])
    ensures AllSurvive(Items([q, r])) && SignedDistinct([q, r])
  {
    hide AllSurvive, SignedOf, NoDup;
    var t := [Item(Assistant, CALL), Item(User, ANSWER)];
    assert [q, r][..1] == [q] && [q][..0] == [];
    assert Items([q]) == [t[0]];
    assert Items([q, r]) == t;
    assert !IsEmptyText(q.content[0]) && !IsEmptyText(r.content[0]);
    assert Meaningful(ANSWER.result.items[0]);
    CallAnswered(t);
    NoDupNothing<Block>();
  }

  lemma CallAnswered(t: seq<Item>)
    requires t == [Item(Assistant, CALL), Item(User, ANSWER)]
    ensures AllSurvive(t) && SignedOf(t) == []
  {
    assert IsRequest(t[0], "a") && IsResponse(t[1], "a") && Quiet(t, 1, 1, "a") && Awaited(t, 1, "a");
    assert !Awaited(t, 2, "a");
    assert t[..1] == [t[0]] && t[..1][..0] == [];
    assert SignedOf(t[..1][..0]) == [];
    assert SignedOf(t[..1]) == [];
  }
}
