/** Prompt-cache breakpoints on an OpenAI-style chat payload (cache_semantics.rs). */
module CacheBreakpoints {
  import opened Common
  import opened Text

  /** One element of a content array; `marked`: it carries `cache_control`. */
  datatype Block =
    | TextBlock(text: Option<string>, marked: bool)
    | ImageBlock(data: nat, marked: bool)
    | OtherBlock(data: nat, marked: bool)
    | NotAnObject(data: nat)

  datatype Content = NoContent | Str(text: string) | Blocks(blocks: seq<Block>)

  datatype Msg = Msg(role: Option<string>, content: Content, toolCalls: nat, reasoning: bool)

  /** A tool entry with a `function` object, or without. */
  datatype Tool = FunctionTool(data: nat, marked: bool) | BareTool(data: nat)

  const LOOKBACK_BLOCKS: nat := 20

  predicate CacheableBlock(b: Block) {
    match b
    case TextBlock(t, _) => t.Some? && !IsBlank(t.value)
    case ImageBlock(_, _) => true
    case _ => false
  }

  /** `has_cacheable_content`. */
  predicate Cacheable(m: Msg) {
    match m.content
    case NoContent => false
    case Str(t) => !IsBlank(t)
    case Blocks(bs) => bs != [] && CacheableBlock(bs[|bs| - 1])
  }

  function MarkBlock(b: Block): Block {
    match b
    case TextBlock(t, _) => TextBlock(t, true)
    case ImageBlock(d, _) => ImageBlock(d, true)
    case _ => b
  }

  /** `mark_last_content_block`. */
  function Mark(m: Msg): Msg {
    if !Cacheable(m) then m
    else match m.content
      case Str(t) => m.(content := Blocks([TextBlock(Some(t), true)]))
      case Blocks(bs) => m.(content := Blocks(bs[..|bs| - 1] + [MarkBlock(bs[|bs| - 1])]))
      case NoContent => m
  }

  function BlockCount(m: Msg): nat {
    (match m.content case NoContent => 0 case Str(_) => 1 case Blocks(bs) => |bs|)
    + m.toolCalls + if m.reasoning then 1 else 0
  }

  /** Content blocks up to and including message `i`. */
  function Offset(ms: seq<Msg>, i: nat): nat
    requires i < |ms|
  {
    BlockCount(ms[i]) + if i == 0 then 0 else Offset(ms, i - 1)
  }

  method CumulativeBlockOffsets(messages: seq<Msg>) returns (offsets: seq<nat>)
    ensures |offsets| == |messages| && forall i :: 0 <= i < |messages| ==> offsets[i] == Offset(messages, i)
  {
    hide BlockCount;
    offsets := [];
    var total: nat := 0;
    var i := 0;
    while i < |messages|
      invariant 0 <= i <= |messages| && |offsets| == i
      invariant total == if i == 0 then 0 else Offset(messages, i - 1)
      invariant forall k :: 0 <= k < i ==> offsets[k] == Offset(messages, k)
    {
      total := total + BlockCount(messages[i]);
      assert total == Offset(messages, i);
      offsets := offsets + [total];
      i := i + 1;
    }
  }

  // ---- Where the anchors are, said declaratively ----

  /** The tail anchor: the last cacheable message. */
  ghost predicate IsPrimary(ms: seq<Msg>, p: nat) {
    p < |ms| && Cacheable(ms[p]) && forall i :: p < i < |ms| ==> !Cacheable(ms[i])
  }

  /** A message far enough behind the tail anchor to hold the trailing one. */
  predicate IsBehind(ms: seq<Msg>, p: nat, s: nat) {
    s < p < |ms| && Cacheable(ms[s]) && Offset(ms, s) + LOOKBACK_BLOCKS <= Offset(ms, p)
  }

  /** The trailing anchor: the nearest such message. */
  ghost predicate IsSecondary(ms: seq<Msg>, p: nat, s: nat) {
    IsBehind(ms, p, s) && forall i :: s < i < p ==> !IsBehind(ms, p, i)
  }

  predicate IsSystem(m: Msg) { m.role == Some("system") }

  ghost predicate IsFirstSystem(ms: seq<Msg>, s: nat) {
    s < |ms| && IsSystem(ms[s]) && forall i :: 0 <= i < s ==> !IsSystem(ms[i])
  }

  ghost predicate IsAnchor(ms: seq<Msg>, i: nat) {
    IsPrimary(ms, i) || (exists p: nat :: IsPrimary(ms, p) && IsSecondary(ms, p, i)) || IsFirstSystem(ms, i)
  }

  lemma {:induction false} OffsetsGrow(ms: seq<Msg>, i: nat, j: nat)
    requires i <= j < |ms|
    ensures BlockCount(ms[i]) <= Offset(ms, i) <= Offset(ms, j)
  {
    if i < j { OffsetsGrow(ms, i, j - 1); }
  }

  /** The saturating subtraction never saturates where it matters: a cacheable
      message has a block, so nothing lies at offset zero. */
  lemma TargetIsExact(ms: seq<Msg>, p: nat, s: nat)
    requires s < p < |ms| && Cacheable(ms[s])
    ensures Offset(ms, s) <= Target(ms, p) <==> Offset(ms, s) + LOOKBACK_BLOCKS <= Offset(ms, p)
  {
    OffsetsGrow(ms, s, p);
  }

  /** Each message at an anchor is marked, every other one is as it was. */
  ghost function Placed(ms: seq<Msg>): (r: seq<Msg>)
    ensures |r| == |ms|
    ensures forall i :: 0 <= i < |ms| ==> r[i] == if IsAnchor(ms, i) then Mark(ms[i]) else ms[i]
  {
    seq(|ms|, i requires 0 <= i < |ms| => if IsAnchor(ms, i) then Mark(ms[i]) else ms[i])
  }

  function MarkLastTool(ts: seq<Tool>): seq<Tool> {
    if ts == [] then ts
    else match ts[|ts| - 1]
      case FunctionTool(d, _) => ts[..|ts| - 1] + [FunctionTool(d, true)]
      case BareTool(_) => ts
  }

  lemma MarkTwice(m: Msg)
    ensures Mark(Mark(m)) == Mark(m) && Cacheable(Mark(m)) == Cacheable(m)
  {
    if Cacheable(m) {
      match m.content
      case Str(t) =>
        var bs := [TextBlock(Some(t), true)];
        assert bs[..0] + [MarkBlock(bs[0])] == bs;
      case Blocks(bs) =>
        var cs := bs[..|bs| - 1] + [MarkBlock(bs[|bs| - 1])];
        assert cs[..|cs| - 1] + [MarkBlock(cs[|cs| - 1])] == cs;
    }
  }

  /** A payload whose messages and tools are edited in place. */
  class ChatPayload {
    var messages: Option<seq<Msg>>
    var tools: Option<seq<Tool>>

    /** The last cacheable message before `n` that is within `target`. */
    static method FindAnchor(ms: seq<Msg>, offsets: seq<nat>, n: nat, target: Option<nat>) returns (r: Option<nat>)
      requires n <= |ms| == |offsets|
      ensures r.Some? ==> r.value < n && Cacheable(ms[r.value]) && (target.Some? ==> offsets[r.value] <= target.value)
      ensures forall i :: (if r.Some? then r.value else -1) < i < n ==>
                !(Cacheable(ms[i]) && (target.Some? ==> offsets[i] <= target.value))
    {
      var i := n;
      while i > 0
        invariant 0 <= i <= n
        invariant forall k :: i <= k < n ==> !(Cacheable(ms[k]) && (target.Some? ==> offsets[k] <= target.value))
      {
        i := i - 1;
        if (target.None? || offsets[i] <= target.value) && Cacheable(ms[i]) { return Some(i); }
      }
      return None;
    }

    static method FindSystem(ms: seq<Msg>) returns (r: Option<nat>)
      ensures r.Some? ==> IsFirstSystem(ms, r.value)
      ensures r.None? ==> forall i :: 0 <= i < |ms| ==> !IsSystem(ms[i])
    {
      var i := 0;
      while i < |ms|
        invariant 0 <= i <= |ms|
        invariant forall k :: 0 <= k < i ==> !IsSystem(ms[k])
      {
        if IsSystem(ms[i]) { return Some(i); }
        i := i + 1;
      }
      return None;
    }

    /** The tail anchor and the trailing one, searched backwards. */
    static method FindAnchors(ms: seq<Msg>) returns (primary: Option<nat>, secondary: Option<nat>)
      ensures AreAnchors(ms, primary, secondary)
    {
      hide Cacheable, Offset, Mark, BlockCount;
      var offsets := CumulativeBlockOffsets(ms);
      primary := FindAnchor(ms, offsets, |ms|, None);
      secondary := None;
      if primary.Some? {
        var p := primary.value;
        var target := if offsets[p] < LOOKBACK_BLOCKS then 0 else offsets[p] - LOOKBACK_BLOCKS;
        secondary := FindAnchor(ms, offsets, p, Some(target));
      }
    }

    method ApplyBreakpoints()
      modifies this
      ensures messages == if old(messages).Some? then Some(Placed(old(messages).value)) else None
      ensures tools == if old(tools).Some? then Some(MarkLastTool(old(tools).value)) else None
    {
      if messages.Some? {
        hide *;
        var ms := messages.value;
        var primary, secondary := FindAnchors(ms);
        var system := FindSystem(ms);
        AnchorsFound(ms, primary, secondary, system);
        MarkedInTurn(ms, primary, secondary, system);
        messages := Some(MarkAt(MarkAt(MarkAt(ms, primary), secondary), system));
      }
      if tools.Some? {
        tools := Some(MarkLastTool(tools.value));
      }
    }
  }

  function Target(ms: seq<Msg>, p: nat): nat
    requires p < |ms|
  {
    if Offset(ms, p) < LOOKBACK_BLOCKS then 0 else Offset(ms, p) - LOOKBACK_BLOCKS
  }

  /** What the two backward searches return. */
  ghost predicate AreAnchors(ms: seq<Msg>, primary: Option<nat>, secondary: Option<nat>) {
    match primary
    case None => secondary.None? && forall i :: 0 <= i < |ms| ==> !Cacheable(ms[i])
    case Some(p) =>
      && IsPrimary(ms, p)
      && (secondary.Some? ==> secondary.value < p && Cacheable(ms[secondary.value])
                              && Offset(ms, secondary.value) <= Target(ms, p))
      && forall i :: (if secondary.Some? then secondary.value else -1) < i < p ==>
           !(Cacheable(ms[i]) && Offset(ms, i) <= Target(ms, p))
  }

  ghost predicate ExactlyAnchors(ms: seq<Msg>, primary: Option<nat>, secondary: Option<nat>, system: Option<nat>) {
    forall i :: 0 <= i < |ms| ==>
      (IsAnchor(ms, i) <==> primary == Some(i) || secondary == Some(i) || system == Some(i))
  }

  function MarkAt(ms: seq<Msg>, at: Option<nat>): seq<Msg> {
    if at.Some? && at.value < |ms| then ms[at.value := Mark(ms[at.value])] else ms
  }

  /** Marking the anchors one after the other marks each of them, once or twice alike. */
  lemma MarkedInTurn(ms: seq<Msg>, primary: Option<nat>, secondary: Option<nat>, system: Option<nat>)
    requires ExactlyAnchors(ms, primary, secondary, system)
    ensures MarkAt(MarkAt(MarkAt(ms, primary), secondary), system) == Placed(ms)
  {
    hide Mark, IsAnchor;
    var out := MarkAt(MarkAt(MarkAt(ms, primary), secondary), system);
    forall i | 0 <= i < |ms| ensures out[i] == Placed(ms)[i] {
      MarkTwice(ms[i]);
    }
  }

  /** The searches find exactly the anchors. */
  lemma AnchorsFound(ms: seq<Msg>, primary: Option<nat>, secondary: Option<nat>, system: Option<nat>)
    requires AreAnchors(ms, primary, secondary)
    requires system.Some? ==> IsFirstSystem(ms, system.value)
    requires system.None? ==> forall i :: 0 <= i < |ms| ==> !IsSystem(ms[i])
    ensures ExactlyAnchors(ms, primary, secondary, system)
  {
    hide Cacheable, Offset, BlockCount, Mark;
    forall i | 0 <= i < |ms|
      ensures IsAnchor(ms, i) <==> primary == Some(i) || secondary == Some(i) || system == Some(i)
    {
      if primary.Some? {
        var p := primary.value;
        assert forall q: nat :: IsPrimary(ms, q) ==> q == p;
        forall k | 0 <= k < p && Cacheable(ms[k])
          ensures IsBehind(ms, p, k) <==> Offset(ms, k) <= Target(ms, p)
        {
          TargetIsExact(ms, p, k);
        }
        assert IsSecondary(ms, p, i) <==> secondary == Some(i);
      }
    }
  }

  // ---- What placement adds, and what it leaves alone ----

  /** A message as blocks without marks: a string is one text block. */
  function Plain(b: Block): Block {
    match b
    case TextBlock(t, _) => TextBlock(t, false)
    case ImageBlock(d, _) => ImageBlock(d, false)
    case OtherBlock(d, _) => OtherBlock(d, false)
    case NotAnObject(d) => b
  }

  function View(m: Msg): seq<Block> {
    match m.content
    case NoContent => []
    case Str(t) => [TextBlock(Some(t), false)]
    case Blocks(bs) => seq(|bs|, i requires 0 <= i < |bs| => Plain(bs[i]))
  }

  predicate IsMarked(b: Block) { !b.NotAnObject? && b.marked }

  predicate Unmarked(m: Msg) {
    m.content.Blocks? ==> forall i :: 0 <= i < |m.content.blocks| ==> !IsMarked(m.content.blocks[i])
  }

  /** Marks on blocks: `i` is the message, `k` the block. */
  predicate HasMark(ms: seq<Msg>, i: nat, k: nat) {
    i < |ms| && ms[i].content.Blocks? && k < |ms[i].content.blocks| && IsMarked(ms[i].content.blocks[k])
  }

  /** Placement changes no block except for its mark. */
  lemma PlacementKeepsContent(ms: seq<Msg>, i: nat)
    requires i < |ms|
    ensures View(Placed(ms)[i]) == View(ms[i])
    ensures var r := Placed(ms)[i];
            r.role == ms[i].role && r.toolCalls == ms[i].toolCalls && r.reasoning == ms[i].reasoning
  {
    hide IsAnchor;
    if Cacheable(ms[i]) {
      match ms[i].content
      case Str(t) => assert View(Mark(ms[i])) == [TextBlock(Some(t), false)];
      case Blocks(bs) => assert View(Mark(ms[i])) == View(ms[i]);
    }
  }

  // ---- Which messages are anchors, on the blocks themselves ----

  /** The last block can hold a mark: text that is not blank, or an image. */
  predicate CanHold(m: Msg) {
    View(m) != [] && match View(m)[|View(m)| - 1]
      case TextBlock(t, _) => t.Some? && exists i :: 0 <= i < |t.value| && !IsWhitespace(t.value[i])
      case ImageBlock(_, _) => true
      case OtherBlock(_, _) => false
      case NotAnObject(_) => false
  }

  lemma HoldsExact(m: Msg)
    ensures Cacheable(m) <==> CanHold(m)
  {}

  /** Blocks, tool calls and reasoning entries of a whole list. */
  function TotalBlocks(ms: seq<Msg>): nat {
    if ms == [] then 0 else TotalBlocks(ms[..|ms| - 1]) + |View(ms[|ms| - 1])|
  }

  function TotalCalls(ms: seq<Msg>): nat {
    if ms == [] then 0 else TotalCalls(ms[..|ms| - 1]) + ms[|ms| - 1].toolCalls
  }

  function TotalReasoning(ms: seq<Msg>): nat {
    if ms == [] then 0 else TotalReasoning(ms[..|ms| - 1]) + if ms[|ms| - 1].reasoning then 1 else 0
  }

  /** An offset counts every block, every tool call and every reasoning entry once. */
  lemma {:induction false} OffsetExact(ms: seq<Msg>, i: nat)
    requires i < |ms|
    ensures Offset(ms, i) == TotalBlocks(ms[..i + 1]) + TotalCalls(ms[..i + 1]) + TotalReasoning(ms[..i + 1])
  {
    hide View;
    var here := ms[..i + 1];
    assert here[..i] == ms[..i];
    CountExact(ms[i]);
    if i > 0 {
      OffsetExact(ms, i - 1);
      assert ms[..i - 1 + 1] == ms[..i];
    } else {
      assert ms[..0] == [];
    }
  }

  lemma CountExact(m: Msg)
    ensures BlockCount(m) == |View(m)| + m.toolCalls + if m.reasoning then 1 else 0
  {}

  /** Message `s` can hold a mark and lies at least twenty blocks before message `p`. */
  predicate FarBack(ms: seq<Msg>, p: nat, s: nat) {
    s < p < |ms| && CanHold(ms[s]) && Offset(ms, p) - Offset(ms, s) >= 20
  }

  lemma FarBackExact(ms: seq<Msg>, p: nat, s: nat)
    ensures IsBehind(ms, p, s) <==> FarBack(ms, p, s)
  {
    hide CanHold, Cacheable;
    if s < |ms| { HoldsExact(ms[s]); }
  }

  /** The anchors: the last message that can hold a mark, the last before it that can
      and lies at least twenty blocks back, and the first system message. */
  lemma AnchorExact(ms: seq<Msg>, i: nat, p: nat)
    requires i < |ms|
    ensures IsPrimary(ms, i) <==> CanHold(ms[i]) && forall j :: i < j < |ms| ==> !CanHold(ms[j])
    ensures IsSecondary(ms, p, i) <==> FarBack(ms, p, i) && forall j :: i < j < p ==> !FarBack(ms, p, j)
    ensures IsFirstSystem(ms, i) <==>
              ms[i].role == Some("system") && forall j :: 0 <= j < i ==> ms[j].role != Some("system")
  {
    hide CanHold, Cacheable, IsBehind, FarBack;
    forall j | 0 <= j < |ms| ensures Cacheable(ms[j]) <==> CanHold(ms[j]) { HoldsExact(ms[j]); }
    FarBackExact(ms, p, i);
    forall j: nat ensures IsBehind(ms, p, j) <==> FarBack(ms, p, j) { FarBackExact(ms, p, j); }
  }

  /** After placement the last block of every anchor that can hold a mark is marked. */
  lemma AnchorsAreMarked(ms: seq<Msg>, i: nat)
    requires i < |ms| && IsAnchor(ms, i) && CanHold(ms[i])
    ensures var c := Placed(ms)[i].content; c.Blocks? && c.blocks != [] && HasMark(Placed(ms), i, |c.blocks| - 1)
  {
    hide IsAnchor;
    HoldsExact(ms[i]);
  }

  /** In a payload without marks, every mark sits on the last block of an anchor,
      and that block is non-blank text or an image. */
  lemma MarksSitOnAnchors(ms: seq<Msg>, i: nat, k: nat)
    requires (forall j :: 0 <= j < |ms| ==> Unmarked(ms[j])) && HasMark(Placed(ms), i, k)
    ensures IsAnchor(ms, i) && k == |Placed(ms)[i].content.blocks| - 1
    ensures CacheableBlock(Placed(ms)[i].content.blocks[k])
  {
    hide IsAnchor;
    assert Unmarked(ms[i]);
    MarkAddsLast(ms[i], k);
  }

  lemma MarkAddsLast(m: Msg, k: nat)
    requires Unmarked(m)
    ensures var r := Mark(m);
            r.content.Blocks? && k < |r.content.blocks| && IsMarked(r.content.blocks[k]) ==>
              k == |r.content.blocks| - 1 && CacheableBlock(r.content.blocks[k])
  {
    var r := Mark(m);
    if r.content.Blocks? && k < |r.content.blocks| - 1 {
      assert r.content.blocks[k] == m.content.blocks[k];
    }
  }

  /** There are at most three anchors, hence with the tool at most four marks. */
  lemma AtMostThreeAnchors(ms: seq<Msg>, a: nat, b: nat, c: nat, d: nat)
    requires IsAnchor(ms, a) && IsAnchor(ms, b) && IsAnchor(ms, c) && IsAnchor(ms, d)
    ensures a == b || a == c || a == d || b == c || b == d || c == d
  {
    forall p: nat, q: nat | IsPrimary(ms, p) && IsPrimary(ms, q) ensures p == q {}
    forall p: nat, s: nat, t: nat | IsSecondary(ms, p, s) && IsSecondary(ms, p, t) ensures s == t {}
    forall p: nat, q: nat | IsFirstSystem(ms, p) && IsFirstSystem(ms, q) ensures p == q {}
  }

  ghost function Anchors(ms: seq<Msg>): set<nat> { set i | 0 <= i < |ms| && IsAnchor(ms, i) }

  lemma Pick(s: set<nat>) returns (x: nat)
    requires |s| > 0
    ensures x in s && |s - {x}| == |s| - 1
  {
    x :| x in s;
  }

  lemma AtMostThree(ms: seq<Msg>)
    ensures |Anchors(ms)| <= 3
  {
    hide IsAnchor;
    var s := Anchors(ms);
    if |s| > 3 {
      var a := Pick(s);
      var b := Pick(s - {a});
      var c := Pick(s - {a} - {b});
      var d := Pick(s - {a} - {b} - {c});
      AtMostThreeAnchors(ms, a, b, c, d);
    }
  }

  function BlockLength(m: Msg): nat { if m.content.Blocks? then |m.content.blocks| else 0 }

  /** Every marked place: message and block. */
  function MarkedPlaces(ms: seq<Msg>): set<(nat, nat)> {
    set i: nat, k: nat | i < |ms| && k < BlockLength(ms[i]) && HasMark(ms, i, k) :: (i, k)
  }

  function MarkedTools(ts: seq<Tool>): set<nat> {
    set i: nat | i < |ts| && ts[i].FunctionTool? && ts[i].marked
  }

  lemma ImageIsNoLarger(places: set<(nat, nat)>, anchors: set<nat>)
    requires forall x :: x in places ==> x.0 in anchors
    requires forall x, y :: x in places && y in places && x.0 == y.0 ==> x == y
    ensures |places| <= |anchors|
    decreases places
  {
    if places != {} {
      var x :| x in places;
      ImageIsNoLarger(places - {x}, anchors - {x.0});
    }
  }

  /** On a payload without marks, placement adds at most four. */
  lemma AtMostFourMarks(ms: seq<Msg>, ts: seq<Tool>)
    requires forall j :: 0 <= j < |ms| ==> Unmarked(ms[j])
    requires MarkedTools(ts) == {}
    ensures |MarkedPlaces(Placed(ms))| + |MarkedTools(MarkLastTool(ts))| <= 4
  {
    hide IsAnchor, MarkLastTool;
    var r := Placed(ms);
    var places := MarkedPlaces(r);
    forall x | x in places ensures x.0 in Anchors(ms) && x.1 == BlockLength(r[x.0]) - 1 {
      MarksSitOnAnchors(ms, x.0, x.1);
    }
    ImageIsNoLarger(places, Anchors(ms));
    AtMostThree(ms);
    var tools := MarkedTools(MarkLastTool(ts));
    forall i | i in tools ensures i == |ts| - 1 {
      LastToolOnly(ts, i);
    }
    AtMostOne(tools, |ts| - 1);
  }

  lemma LastToolOnly(ts: seq<Tool>, i: nat)
    requires MarkedTools(ts) == {} && i in MarkedTools(MarkLastTool(ts))
    ensures i == |ts| - 1
  {
    assert |MarkLastTool(ts)| == |ts|;
    OnlyLastToolMarked(ts, i);
    assert i !in MarkedTools(ts);
  }

  lemma AtMostOne(s: set<nat>, n: int)
    requires forall i :: i in s ==> i == n
    ensures |s| <= 1
  {
    if s != {} {
      var i :| i in s;
      assert s == {i};
    }
  }

  /** Only the last tool is ever marked, and nothing else about the tools changes. */
  lemma OnlyLastToolMarked(ts: seq<Tool>, i: nat)
    requires i < |ts|
    ensures |MarkLastTool(ts)| == |ts|
    ensures MarkLastTool(ts)[i] == if i == |ts| - 1 && ts[i].FunctionTool? then ts[i].(marked := true) else ts[i]
  {}
}
