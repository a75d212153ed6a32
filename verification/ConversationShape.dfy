/** What the repaired list looks like, and how `fix_conversation` weaves it back
    between the messages hidden from the agent (conversation.rs). */
module ConversationShape {
  import opened Common
  import opened Text
  import opened Messages
  import opened ToolCalling
  import opened MessageMerge
  import opened ConversationRepair

  // ---- Metadata and length through the passes ----

  ghost predicate AllMeta(ms: seq<Message>, p: Metadata -> bool) {
    forall i :: 0 <= i < |ms| ==> p(ms[i].meta)
  }

  lemma MapKeepsMeta(f: Message -> (Message, seq<string>), ms: seq<Message>, p: Metadata -> bool)
    requires AllMeta(ms, p) && forall m :: f(m).0.meta == m.meta
    ensures AllMeta(MapFix(f, ms).kept, p) && |MapFix(f, ms).kept| == |ms|
  {
    MapFixAt(f, ms);
  }

  lemma {:induction false} RemoveEmptyKeepsMeta(ms: seq<Message>, p: Metadata -> bool)
    requires AllMeta(ms, p)
    ensures AllMeta(RemoveEmpty(ms).kept, p) && |RemoveEmpty(ms).kept| <= |ms|
  {
    if ms != [] { RemoveEmptyKeepsMeta(ms[..|ms| - 1], p); }
  }

  lemma {:induction false} CleanKeepsMeta(ms: seq<Message>, p: Metadata -> bool)
    requires AllMeta(ms, p)
    ensures AllMeta(CleanMessages(ms).kept, p) && |CleanMessages(ms).kept| == |ms|
  {
    hide CleanBlocks;
    if ms != [] { CleanKeepsMeta(ms[..|ms| - 1], p); }
  }

  lemma {:induction false} DropKeepsMeta(ms: seq<Message>, pending: set<string>, p: Metadata -> bool)
    requires AllMeta(ms, p)
    ensures AllMeta(DropOrphans(ms, pending).kept, p) && |DropOrphans(ms, pending).kept| == |ms|
  {
    hide DropPending;
    if ms != [] { DropKeepsMeta(ms[..|ms| - 1], pending, p); }
  }

  lemma {:induction false} MergeKeepsMeta(ms: seq<Message>, across: bool, p: Metadata -> bool)
    requires AllMeta(ms, p)
    ensures AllMeta(Merge(ms, across), p) && |Merge(ms, across)| <= |ms|
  {
    hide AddMessage;
    if ms != [] {
      var n := |ms| - 1;
      MergeKeepsMeta(ms[..n], across, p);
      assert p(ms[n].meta);
      AddMessageKeepsMeta(Merge(ms[..n], across), ms[n], across, p);
    }
  }

  lemma AddMessageKeepsMeta(acc: seq<Message>, m: Message, across: bool, p: Metadata -> bool)
    requires AllMeta(acc, p) && p(m.meta)
    ensures AllMeta(AddMessage(acc, m, across), p) && |AddMessage(acc, m, across)| <= |acc| + 1
  {
    hide Mergeable;
  }

  /** Deduplication touches only the content of assistant messages. */
  lemma {:induction false} DedupeKeepsShape(ms: seq<Message>)
    ensures var r := DedupeMessages(ms).kept;
            |r| == |ms| && forall i :: 0 <= i < |ms| ==>
              r[i].meta == ms[i].meta && r[i].role == ms[i].role && EffectiveRoleOf(r[i]) == EffectiveRoleOf(ms[i])
  {
    hide DedupeBlocks;
    if ms != [] {
      var n := |ms| - 1;
      DedupeKeepsShape(ms[..n]);
      assert forall i :: 0 <= i < n ==> ms[..n][i] == ms[i];
    }
  }

  lemma BeforeMergeKeepsMeta(ms: seq<Message>, p: Metadata -> bool)
    requires AllMeta(ms, p)
    ensures AllMeta(BeforeMerge(ms).kept, p) && |BeforeMerge(ms).kept| <= |ms|
  {
    hide RemoveEmpty, CleanMessages, DropOrphans, MapFix, AllMeta;
    var a := MapFix(MergeMessageTexts, ms);
    MapKeepsMeta(MergeMessageTexts, ms, p);
    var b := MapFix(TrimMessage, a.kept);
    MapKeepsMeta(TrimMessage, a.kept, p);
    var c := RemoveEmpty(b.kept);
    RemoveEmptyKeepsMeta(b.kept, p);
    var d := MapFix(FillMessage, c.kept);
    MapKeepsMeta(FillMessage, c.kept, p);
    var e := CleanMessages(d.kept);
    CleanKeepsMeta(d.kept, p);
    DropKeepsMeta(e.kept, e.pending, p);
    RemoveEmptyKeepsMeta(DropOrphans(e.kept, e.pending).kept, p);
  }

  lemma AfterMergeKeepsMeta(ms: seq<Message>, p: Metadata -> bool)
    requires AllMeta(ms, p) && p(DEFAULT_METADATA)
    ensures AllMeta(AfterMerge(ms).kept, p) && |AfterMerge(ms).kept| <= if ms == [] then 1 else |ms|
  {
    hide Merge, DedupeMessages;
    MergeKeepsMeta(ms, false, p);
    DedupeKeepsShape(Merge(ms, false));
  }

  predicate VisibleMeta(d: Metadata) { d.agentVisible }

  /** The repair of visible messages yields visible messages, at least one, and
      no more than went in, the placeholder apart. */
  lemma FixMessagesVisible(ms: seq<Message>)
    requires AllMeta(ms, VisibleMeta)
    ensures AllMeta(FixMessages(ms).kept, VisibleMeta)
    ensures 1 <= |FixMessages(ms).kept| <= if ms == [] then 1 else |ms|
  {
    hide BeforeMerge, AllMeta;
    BeforeMergeKeepsMeta(ms, VisibleMeta);
    AfterMergeKeepsMeta(BeforeMerge(ms).kept, VisibleMeta);
  }

  // ---- The shadow map ----

  function Visible(ms: seq<Message>): seq<Message> {
    if ms == [] then []
    else Visible(ms[..|ms| - 1]) + if ms[|ms| - 1].meta.agentVisible then [ms[|ms| - 1]] else []
  }

  function Hidden(ms: seq<Message>): seq<Message> {
    if ms == [] then []
    else Hidden(ms[..|ms| - 1]) + if ms[|ms| - 1].meta.agentVisible then [] else [ms[|ms| - 1]]
  }

  /** Every slot in turn: hidden messages as they are, visible slots filled from
      the repaired list while it lasts. */
  function Reassemble(ms: seq<Message>, repaired: seq<Message>): seq<Message> {
    if ms == [] then []
    else
      var n := |ms| - 1;
      var k := |Visible(ms[..n])|;
      Reassemble(ms[..n], repaired) +
      if !ms[n].meta.agentVisible then [ms[n]] else if k < |repaired| then [repaired[k]] else []
  }

  function FixConversation(ms: seq<Message>): Fixed<Message> {
    var f := FixMessages(Visible(ms));
    Fixed(Reassemble(ms, f.kept), f.issues)
  }

  datatype Slot = VisibleSlot(index: nat) | HiddenSlot(message: Message)

  ghost function Slots(ms: seq<Message>): seq<Slot> {
    if ms == [] then []
    else
      var n := |ms| - 1;
      Slots(ms[..n]) + [if ms[n].meta.agentVisible then VisibleSlot(|Visible(ms[..n])|) else HiddenSlot(ms[n])]
  }

  lemma {:induction false} SlotsPrefix(ms: seq<Message>, n: nat)
    requires n <= |ms|
    ensures |Slots(ms)| == |ms| && Slots(ms)[..n] == Slots(ms[..n])
  {
    if n == |ms| {
      assert ms[..n] == ms;
      SlotsLength(ms);
    } else {
      var k := |ms| - 1;
      SlotsPrefix(ms[..k], n);
      assert ms[..k][..n] == ms[..n];
      SlotsLength(ms);
    }
  }

  lemma {:induction false} SlotsLength(ms: seq<Message>)
    ensures |Slots(ms)| == |ms|
  {
    if ms != [] { SlotsLength(ms[..|ms| - 1]); }
  }

  /** The shadow map: the visible messages, and a slot for every message. */
  method BuildShadow(messages: seq<Message>) returns (visible: seq<Message>, shadow: seq<Slot>)
    ensures visible == Visible(messages) && shadow == Slots(messages)
  {
    visible, shadow := [], [];
    var i := 0;
    while i < |messages|
      invariant 0 <= i <= |messages|
      invariant visible == Visible(messages[..i]) && shadow == Slots(messages[..i])
    {
      assert messages[..i + 1][..i] == messages[..i];
      if messages[i].meta.agentVisible {
        shadow := shadow + [VisibleSlot(|visible|)];
        visible := visible + [messages[i]];
      } else {
        shadow := shadow + [HiddenSlot(messages[i])];
      }
      i := i + 1;
    }
    assert messages[..i] == messages;
  }

  lemma SlotAt(ms: seq<Message>, i: nat)
    requires i < |ms|
    ensures |Slots(ms)| == |ms|
    ensures Slots(ms)[i] == if ms[i].meta.agentVisible then VisibleSlot(|Visible(ms[..i])|) else HiddenSlot(ms[i])
  {
    SlotsPrefix(ms, i + 1);
    assert Slots(ms)[i] == Slots(ms)[..i + 1][i];
    assert ms[..i + 1][..i] == ms[..i];
    SlotsLength(ms[..i]);
  }

  /** The map replayed: hidden messages as they were, visible slots filled while
      repaired messages last. */
  method Replay(shadow: seq<Slot>, fixed: seq<Message>, ghost messages: seq<Message>) returns (out: seq<Message>)
    requires shadow == Slots(messages)
    ensures out == Reassemble(messages, fixed)
  {
    hide Slots, Visible;
    out := [];
    SlotsLength(messages);
    var i := 0;
    while i < |shadow|
      invariant 0 <= i <= |shadow| == |messages|
      invariant out == Reassemble(messages[..i], fixed)
    {
      assert messages[..i + 1][..i] == messages[..i];
      SlotAt(messages, i);
      match shadow[i] {
        case VisibleSlot(k) => if k < |fixed| { out := out + [fixed[k]]; }
        case HiddenSlot(m) => out := out + [m];
      }
      i := i + 1;
    }
    assert messages[..i] == messages;
  }

  /** The shadow map is built, the visible part repaired, and the map replayed. */
  method FixConversationByShadowMap(messages: seq<Message>) returns (r: Fixed<Message>)
    ensures r == FixConversation(messages)
  {
    hide FixMessages, Visible, Slots, Reassemble;
    var visible, shadow := BuildShadow(messages);
    var f := FixMessages(visible);
    var out := Replay(shadow, f.kept, messages);
    r := Fixed(out, f.issues);
  }

  lemma ViewsSnoc(ms: seq<Message>, m: Message)
    ensures Visible(ms + [m]) == Visible(ms) + if m.meta.agentVisible then [m] else []
    ensures Hidden(ms + [m]) == Hidden(ms) + if m.meta.agentVisible then [] else [m]
  {
    assert (ms + [m])[..|ms|] == ms;
  }

  lemma NoViews()
    ensures Visible([]) == [] && Hidden([]) == []
  {}

  lemma {:induction false} VisibleAreVisible(ms: seq<Message>)
    ensures AllMeta(Visible(ms), VisibleMeta)
  {
    if ms != [] { VisibleAreVisible(ms[..|ms| - 1]); }
  }

  function Shorter(a: nat, b: nat): nat { if a < b then a else b }

  /** Replaying the map keeps the hidden messages and gives back the repaired
      list, as far as there are slots. */
  lemma {:induction false} ReassembleViews(ms: seq<Message>, repaired: seq<Message>)
    requires AllMeta(repaired, VisibleMeta)
    ensures Hidden(Reassemble(ms, repaired)) == Hidden(ms)
    ensures Visible(Reassemble(ms, repaired)) == repaired[..Shorter(|Visible(ms)|, |repaired|)]
  {
    hide Visible, Hidden;
    if ms == [] {
      NoViews();
      assert repaired[..0] == [];
    } else {
      var n := |ms| - 1;
      var m := ms[n];
      var k := |Visible(ms[..n])|;
      var a := Reassemble(ms[..n], repaired);
      ReassembleViews(ms[..n], repaired);
      assert ms[..n] + [m] == ms;
      ViewsSnoc(ms[..n], m);
      if !m.meta.agentVisible {
        ViewsSnoc(a, m);
      } else if k < |repaired| {
        ViewsSnoc(a, repaired[k]);
        assert repaired[..k] + [repaired[k]] == repaired[..k + 1];
      } else {
        assert a + [] == a;
      }
    }
  }

  lemma {:induction false} NothingVisible(ms: seq<Message>, repaired: seq<Message>)
    requires Visible(ms) == []
    ensures Reassemble(ms, repaired) == ms
  {
    hide Visible, Hidden;
    if ms != [] {
      var n := |ms| - 1;
      assert ms == ms[..n] + [ms[n]];
      ViewsSnoc(ms[..n], ms[n]);
      NothingVisible(ms[..n], repaired);
    }
  }

  /** Hidden messages pass through untouched and in order; the visible ones become
      exactly their repair, none lost to the index map; and a conversation with
      nothing visible is returned as it is. */
  lemma FixConversationWeaves(ms: seq<Message>)
    ensures Hidden(FixConversation(ms).kept) == Hidden(ms)
    ensures Visible(ms) != [] ==> Visible(FixConversation(ms).kept) == FixMessages(Visible(ms)).kept
    ensures Visible(ms) == [] ==> FixConversation(ms).kept == ms
  {
    hide FixMessages;
    var v := Visible(ms);
    var f := FixMessages(v).kept;
    VisibleAreVisible(ms);
    FixMessagesVisible(v);
    ReassembleViews(ms, f);
    assert f[..|f|] == f;
    if v == [] { NothingVisible(ms, f); }
  }

  lemma {:induction false} ReassemblePrefix(ms: seq<Message>, repaired: seq<Message>, i: nat)
    requires i <= |ms|
    ensures Reassemble(ms[..i], repaired) <= Reassemble(ms, repaired)
  {
    if i == |ms| {
      assert ms[..i] == ms;
    } else {
      var n := |ms| - 1;
      ReassemblePrefix(ms[..n], repaired, i);
      assert ms[..n][..i] == ms[..i];
    }
  }

  lemma {:induction false} ViewsCount(ms: seq<Message>)
    ensures |Visible(ms)| + |Hidden(ms)| == |ms|
  {
    if ms != [] { ViewsCount(ms[..|ms| - 1]); }
  }

  /** Where message `i` of the input ends up: behind all hidden messages that stood
      before it, and behind as many repaired ones as visible messages stood before
      it, while they last. A hidden message is found there as it was, a visible
      slot holds the next repaired message if there is one. */
  lemma WovenInPlace(ms: seq<Message>, repaired: seq<Message>, i: nat)
    requires i < |ms| && AllMeta(repaired, VisibleMeta)
    ensures var out := Reassemble(ms, repaired);
            var k := |Visible(ms[..i])|;
            var p := |Hidden(ms[..i])| + Shorter(k, |repaired|);
            && p <= |out| && Hidden(out[..p]) == Hidden(ms[..i])
            && Visible(out[..p]) == repaired[..Shorter(k, |repaired|)]
            && (!ms[i].meta.agentVisible ==> p < |out| && out[p] == ms[i])
            && (ms[i].meta.agentVisible && k < |repaired| ==> p < |out| && out[p] == repaired[k])
  {
    hide Visible, Hidden, AllMeta;
    var out := Reassemble(ms, repaired);
    var before := Reassemble(ms[..i], repaired);
    ReassembleViews(ms[..i], repaired);
    ViewsCount(before);
    ReassemblePrefix(ms, repaired, i);
    ReassemblePrefix(ms, repaired, i + 1);
    assert ms[..i + 1][..i] == ms[..i] && ms[..i + 1][i] == ms[i];
    assert out[..|before|] == before;
  }

  lemma {:induction false} AllVisible(ms: seq<Message>)
    ensures Hidden(ms) == [] <==> AllMeta(ms, VisibleMeta)
    ensures Hidden(ms) == [] ==> Visible(ms) == ms
  {
    if ms != [] {
      var n := |ms| - 1;
      AllVisible(ms[..n]);
      assert ms == ms[..n] + [ms[n]];
      assert forall i :: 0 <= i < n ==> ms[..n][i] == ms[i];
    }
  }

  /** Of a projection that holds only visible messages, as the agent loop makes it,
      `fix_conversation` gives exactly the repair. */
  lemma FixProjection(ms: seq<Message>)
    requires ms != [] && AllMeta(ms, VisibleMeta)
    ensures FixConversation(ms).kept == FixMessages(ms).kept
  {
    hide FixMessages, Visible, Hidden, AllMeta, FixConversation;
    AllVisible(ms);
    FixConversationWeaves(ms);
    AllVisible(FixConversation(ms).kept);
  }

  // ---- Role alternation ----

  /** All messages agree on user visibility and on being turn context. */
  ghost predicate Uniform(ms: seq<Message>, visible: bool, context: bool) {
    AllMeta(ms, (d: Metadata) => d.userVisible == visible && d.turnContext == context)
  }

  predicate Alternates(ms: seq<Message>) {
    forall i :: 0 <= i < |ms| - 1 ==> EffectiveRoleOf(ms[i]) != EffectiveRoleOf(ms[i + 1])
  }

  lemma UniformApartAlternates(ms: seq<Message>, visible: bool, context: bool)
    requires Uniform(ms, visible, context) && Apart(ms, false)
    ensures Alternates(ms)
  {
    hide EffectiveRoleOf;
    forall i | 0 <= i < |ms| - 1 ensures EffectiveRoleOf(ms[i]) != EffectiveRoleOf(ms[i + 1]) {
      assert !Mergeable(ms[i], ms[i + 1], false);
    }
  }

  lemma SliceAlternates(ms: seq<Message>, a: nat, b: nat)
    requires Alternates(ms) && a <= b <= |ms|
    ensures Alternates(ms[a..b])
  {
    hide EffectiveRoleOf;
    var s := ms[a..b];
    forall i | 0 <= i < |s| - 1 ensures EffectiveRoleOf(s[i]) != EffectiveRoleOf(s[i + 1]) {
      assert s[i] == ms[a + i] && s[i + 1] == ms[(a + i) + 1];
      assert EffectiveRoleOf(ms[a + i]) != EffectiveRoleOf(ms[(a + i) + 1]);
    }
  }

  lemma NoTwoAssistants(ms: seq<Message>, i: nat)
    requires Alternates(ms) && i + 1 < |ms| && ms[i].role == Assistant
    ensures ms[i + 1].role == User
  {
    assert EffectiveRoleOf(ms[i]) != EffectiveRoleOf(ms[i + 1]);
  }

  lemma TrimmedEndsAreUser(ms: seq<Message>)
    requires Alternates(ms)
    ensures Alternates(FixLeadTrail(ms).kept) && EndsAreUser(FixLeadTrail(ms).kept)
  {
    hide Alternates;
    var a := DropLead(ms);
    var r := DropTrail(a);
    assert ms[0..|ms|] == ms && (ms != [] ==> ms[1..] == ms[1..|ms|]);
    SliceAlternates(ms, if a == ms then 0 else 1, |ms|);
    assert a[0..|a|] == a && (a != [] ==> a[..|a| - 1] == a[0..|a| - 1]);
    SliceAlternates(a, 0, |r|);
    if ms != [] && ms[0].role == Assistant && |ms| > 1 { NoTwoAssistants(ms, 0); }
    if a != [] && a[|a| - 1].role == Assistant && |a| > 1 {
      if a[|a| - 2].role == Assistant { NoTwoAssistants(a, |a| - 2); }
    }
  }

  /** If all messages share visibility and turn context, the repaired list is not
      empty, begins and ends with a user message, and no two neighbours have the
      same effective role. */
  lemma UniformRepairAlternates(ms: seq<Message>, visible: bool, context: bool)
    requires Uniform(ms, visible, context)
    ensures var r := FixMessages(ms).kept; r != [] && EndsAreUser(r) && Alternates(r)
  {
    hide BeforeMerge, Merge, DedupeMessages, FixLeadTrail, Alternates, Apart;
    var p := (d: Metadata) => d.userVisible == visible && d.turnContext == context;
    var b := BeforeMerge(ms).kept;
    BeforeMergeKeepsMeta(ms, p);
    var f := Merge(b, false);
    MergeKeepsMeta(b, false, p);
    MergeLeavesApart(b, false);
    UniformApartAlternates(f, visible, context);
    var g := DedupeMessages(f).kept;
    DedupeAlternates(f);
    TrimmedEndsAreUser(g);
    if FixLeadTrail(g).kept == [] { OneAlternates(PLACEHOLDER); }
  }

  lemma DedupeAlternates(f: seq<Message>)
    requires Alternates(f)
    ensures Alternates(DedupeMessages(f).kept)
  {
    hide EffectiveRoleOf, DedupeMessages;
    DedupeKeepsShape(f);
    var g := DedupeMessages(f).kept;
    forall i | 0 <= i < |g| - 1 ensures EffectiveRoleOf(g[i]) != EffectiveRoleOf(g[i + 1]) {
      assert EffectiveRoleOf(f[i]) != EffectiveRoleOf(f[i + 1]);
    }
  }

  lemma OneAlternates(m: Message)
    ensures Alternates([m])
  {}

  // ---- Where the guarantees stop ----

  function Say(role: Role, text: string, visible: bool): Message {
    Message(None, role, [Text(text, Annotations(None, 0))], DEFAULT_METADATA.(userVisible := visible))
  }

  lemma SayIsClean(role: Role, text: string, visible: bool)
    requires text != "" && !EndsInSpace(text)
    ensures var m := Say(role, text, visible);
            TextsMerged(m) && MessageTrimmed(m) && NotEmpty(m) && ResultsFilled(m)
  {
    var m := Say(role, text, visible);
    assert !IsEmptyText(m.content[0]);
  }

  lemma {:induction false} PlainTextSurvives(ms: seq<Message>)
    requires forall i :: 0 <= i < |ms| ==> |ms[i].content| == 1 && ms[i].content[0].Text?
    ensures AllSurvive(Items(ms)) && SignedOf(Items(ms)) == []
    ensures forall i :: 0 <= i < |Items(ms)| ==> Items(ms)[i].block.Text?
  {
    hide SignedOf, Survives;
    if ms == [] {
      NothingSigned();
      assert Items(ms) == [];
    } else {
      var n := |ms| - 1;
      var x := ItemsOf(ms[n].role, ms[n].content);
      PlainTextSurvives(ms[..n]);
      SignedConcat(Items(ms[..n]), x);
      TextIsUnsigned(x);
    }
    TextSurvives(Items(ms));
  }

  lemma TextIsUnsigned(x: seq<Item>)
    requires |x| == 1 && x[0].block.Text?
    ensures SignedOf(x) == []
  {
    assert x[..0] == [];
    assert SignedOf([]) == [];
  }

  lemma TextSurvives(t: seq<Item>)
    requires forall i :: 0 <= i < |t| ==> t[i].block.Text?
    ensures AllSurvive(t)
  {
    hide Awaited;
  }

  lemma PlainBeforeMerge(ms: seq<Message>)
    requires forall i :: 0 <= i < |ms| ==> |ms[i].content| == 1 && ms[i].content[0].Text?
    requires forall i :: 0 <= i < |ms| ==>
               TextsMerged(ms[i]) && MessageTrimmed(ms[i]) && NotEmpty(ms[i]) && ResultsFilled(ms[i])
    ensures BeforeMerge(ms).kept == ms
  {
    hide BeforeMerge, TextsMerged, MessageTrimmed, NotEmpty, ResultsFilled;
    PlainTextSurvives(ms);
    BeforeMergeExact(ms);
  }

  /** Two leading assistant messages that differ in visibility are not merged, and
      only one of them is dropped: the repaired list begins with an assistant. */
  lemma MixedVisibilityBreaksLead()
    ensures var ms := [Say(Assistant, "a", true), Say(Assistant, "b", false), Say(User, "c", true)];
            FixMessages(ms).kept[0].role == Assistant
  {
    hide BeforeMerge, TextsMerged, MessageTrimmed, NotEmpty, ResultsFilled, FixMessages;
    var x, y, z := Say(Assistant, "a", true), Say(Assistant, "b", false), Say(User, "c", true);
    var ms := [x, y, z];
    SayIsClean(Assistant, "a", true);
    SayIsClean(Assistant, "b", false);
    SayIsClean(User, "c", true);
    PlainBeforeMerge(ms);
    FixMessagesIs(ms, ms);
    assert !Mergeable(x, y, false) && !Mergeable(y, z, false);
    ApartLoses(x, y, z);
  }

  lemma ApartLoses(x: Message, y: Message, z: Message)
    requires !Mergeable(x, y, false) && !Mergeable(y, z, false)
    requires x.role == Assistant && y.role == Assistant && z.role == User
    requires forall m :: m in [x, y, z] ==> |m.content| == 1 && m.content[0].Text?
    ensures AfterMerge([x, y, z]).kept == [y, z]
  {
    hide Mergeable, DedupeMessages, Merge, SignedOf, AllSurvive, NoDup, Items, FixLeadTrail;
    var ms := [x, y, z];
    assert x in ms && y in ms && z in ms;
    assert Apart(ms, false);
    MergeExact(ms, false);
    PlainTextSurvives(ms);
    NoDupNothing<Block>();
    DedupeExact(ms);
    LeadTrailKeeps(ms);
    assert ms[1..3] == [y, z];
  }

  /** Merging two assistant messages puts their texts side by side, which a second
      run reports. */
  lemma RepairIsNotAccepted()
    ensures var ms := [Say(User, "q", true), Say(Assistant, "a", true), Say(Assistant, "b", true),
                       Say(User, "r", true)];
            !Accepts(FixMessages(ms).kept)
  {
    hide BeforeMerge, AfterMerge, TextsMerged, MessageTrimmed, NotEmpty, ResultsFilled, FixMessages, WellFormed;
    var q, a, b, r := Say(User, "q", true), Say(Assistant, "a", true), Say(Assistant, "b", true), Say(User, "r", true);
    var ms := [q, a, b, r];
    SayIsClean(User, "q", true);
    SayIsClean(Assistant, "a", true);
    SayIsClean(Assistant, "b", true);
    SayIsClean(User, "r", true);
    PlainBeforeMerge(ms);
    MergedPair(q, a, b, r);
    var out := [q, Absorb(a, b), r];
    assert FixMessages(ms).kept == out by { FixMessagesIs(ms, ms); }
    TextsSideBySide(q, a, b, r);
    AcceptsExactlyWellFormed(out);
  }

  lemma FixMessagesIs(ms: seq<Message>, b: seq<Message>)
    requires BeforeMerge(ms).kept == b
    ensures FixMessages(ms).kept == AfterMerge(b).kept
  {}

  lemma TextsSideBySide(q: Message, a: Message, b: Message, r: Message)
    requires a == Say(Assistant, "a", true) && b == Say(Assistant, "b", true)
    ensures !WellFormed([q, Absorb(a, b), r])
  {
    var out := [q, Absorb(a, b), r];
    var c := out[1].content;
    assert SameAudience(c[0], c[0 + 1]);
    assert !TextsMerged(out[1]);
  }

  lemma MergedPair(q: Message, a: Message, b: Message, r: Message)
    requires q == Say(User, "q", true) && a == Say(Assistant, "a", true)
    requires b == Say(Assistant, "b", true) && r == Say(User, "r", true)
    ensures AfterMerge([q, a, b, r]).kept == [q, Absorb(a, b), r]
  {
    hide DedupeMessages, Merge, SignedOf, Mergeable, Absorb;
    var ms := [q, a, b, r];
    var out := [q, Absorb(a, b), r];
    SpeakerChanges(q, a, b, r);
    PairMerges(q, a, b, r);
    assert SignedDistinct(out) by {
      MergeKeepsItems(ms, false);
      PlainTextSurvives(ms);
      NoDupNothing<Block>();
    }
    DedupeExact(out);
  }

  lemma SpeakerChanges(q: Message, a: Message, b: Message, r: Message)
    requires q == Say(User, "q", true) && a == Say(Assistant, "a", true)
    requires b == Say(Assistant, "b", true) && r == Say(User, "r", true)
    ensures !Mergeable(q, a, false) && Mergeable(a, b, false) && !Mergeable(Absorb(a, b), r, false)
  {}

  lemma PairMerges(q: Message, a: Message, b: Message, r: Message)
    requires !Mergeable(q, a, false) && Mergeable(a, b, false) && !Mergeable(Absorb(a, b), r, false)
    ensures Merge([q, a, b, r], false) == [q, Absorb(a, b), r]
  {
    hide Mergeable, Absorb, Merge;
    MergeNothing();
    MergeSnoc([], q, false);
    assert [] + [q] == [q];
    MergeSnoc([q], a, false);
    assert [q] + [a] == [q, a];
    MergeSnoc([q, a], b, false);
    assert [q, a] + [b] == [q, a, b] && [q, a][..1] == [q];
    MergeSnoc([q, a, b], r, false);
    assert [q, a, b] + [r] == [q, a, b, r];
    assert [q] + [Absorb(a, b)] + [r] == [q, Absorb(a, b), r];
  }

  lemma MergeNothing()
    ensures Merge([], false) == []
  {}
}
