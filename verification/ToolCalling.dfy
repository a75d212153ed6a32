/** `fix_tool_calling`: misplaced blocks are removed, and so are responses nobody
    is waiting for and requests nobody answers (conversation.rs). */
module ToolCalling {
  import opened Common
  import opened Messages

  // ---- The two passes ----

  /** Blocks that may not stand in a message of this role at all. */
  predicate Misplaced(x: Item) {
    match x.role
    case User =>
      || x.block.ToolRequest? || x.block.ToolConfirmationRequest?
      || x.block.Thinking? || x.block.RedactedThinking?
    case Assistant => x.block.ToolResponse?
  }

  predicate Keeps(x: Item, pending: set<string>) {
    !Misplaced(x) && (x.block.ToolResponse? ==> x.block.id in pending)
  }

  function NextPending(x: Item, pending: set<string>): set<string> {
    if Misplaced(x) then pending
    else if x.block.ToolRequest? then pending + {x.block.id}
    else if x.block.ToolResponse? then pending - {x.block.id}
    else pending
  }

  function RemovalIssue(x: Item): string {
    match x.block
    case ToolRequest(id, _, _) => "Removed tool request '" + id + "' from user message"
    case ToolConfirmationRequest(id) => "Removed tool confirmation request '" + id + "' from user message"
    case ToolResponse(id, _) =>
      if x.role == Assistant then "Removed tool response '" + id + "' from assistant message"
      else "Removed orphaned tool response '" + id + "'"
    case _ => "Removed thinking content from user message"
  }

  datatype Cleaned<T> = Cleaned(kept: seq<T>, pending: set<string>, issues: seq<string>)

  /** The first pass over the blocks of one message. */
  function CleanBlocks(role: Role, bs: seq<Block>, pending: set<string>): Cleaned<Block> {
    if bs == [] then Cleaned([], pending, [])
    else
      var c := CleanBlocks(role, bs[..|bs| - 1], pending);
      var x := Item(role, bs[|bs| - 1]);
      if Keeps(x, c.pending) then Cleaned(c.kept + [x.block], NextPending(x, c.pending), c.issues)
      else Cleaned(c.kept, NextPending(x, c.pending), c.issues + [RemovalIssue(x)])
  }

  function CleanMessages(ms: seq<Message>): Cleaned<Message> {
    if ms == [] then Cleaned([], {}, [])
    else
      var c := CleanMessages(ms[..|ms| - 1]);
      var m := ms[|ms| - 1];
      var d := CleanBlocks(m.role, m.content, c.pending);
      Cleaned(c.kept + [m.(content := d.kept)], d.pending, c.issues + d.issues)
  }

  predicate Orphaned(role: Role, b: Block, pending: set<string>) {
    role == Assistant && b.ToolRequest? && b.id in pending
  }

  datatype Fixed<T> = Fixed(kept: seq<T>, issues: seq<string>)

  /** The second pass: requests still pending are removed from assistant messages. */
  function DropPending(role: Role, bs: seq<Block>, pending: set<string>): Fixed<Block> {
    if bs == [] then Fixed([], [])
    else
      var c := DropPending(role, bs[..|bs| - 1], pending);
      var b := bs[|bs| - 1];
      if Orphaned(role, b, pending)
      then Fixed(c.kept, c.issues + ["Removed orphaned tool request '" + b.id + "'"])
      else Fixed(c.kept + [b], c.issues)
  }

  function DropOrphans(ms: seq<Message>, pending: set<string>): Fixed<Message> {
    if ms == [] then Fixed([], [])
    else
      var c := DropOrphans(ms[..|ms| - 1], pending);
      var m := ms[|ms| - 1];
      var d := DropPending(m.role, m.content, pending);
      Fixed(c.kept + [m.(content := d.kept)], c.issues + d.issues)
  }

  const EMPTY_ISSUE := "Removed empty message"

  function RemoveEmpty(ms: seq<Message>): Fixed<Message> {
    if ms == [] then Fixed([], [])
    else
      var c := RemoveEmpty(ms[..|ms| - 1]);
      var m := ms[|ms| - 1];
      if AllEmptyText(m.content) then Fixed(c.kept, c.issues + [EMPTY_ISSUE])
      else Fixed(c.kept + [m], c.issues)
  }

  function FixToolCalling(ms: seq<Message>): Fixed<Message> {
    var a := CleanMessages(ms);
    var b := DropOrphans(a.kept, a.pending);
    var c := RemoveEmpty(b.kept);
    Fixed(c.kept, a.issues + b.issues + c.issues)
  }

  // ---- The passes as loops that remove by index ----

  /** Removing the given indices, last first. */
  function RemoveAll<T>(s: seq<T>, idxs: seq<nat>): seq<T>
    requires forall i, j :: 0 <= i < j < |idxs| ==> idxs[i] < idxs[j]
    requires forall i :: 0 <= i < |idxs| ==> idxs[i] < |s|
    decreases |idxs|
  {
    if idxs == [] then s
    else
      var k := idxs[|idxs| - 1];
      RemoveAll(s[..k] + s[k + 1..], idxs[..|idxs| - 1])
  }

  lemma {:induction false} RemoveAllSnoc<T>(s: seq<T>, x: T, idxs: seq<nat>)
    requires forall i, j :: 0 <= i < j < |idxs| ==> idxs[i] < idxs[j]
    requires forall i :: 0 <= i < |idxs| ==> idxs[i] < |s|
    ensures RemoveAll(s + [x], idxs) == RemoveAll(s, idxs) + [x]
    ensures RemoveAll(s + [x], idxs + [|s|]) == RemoveAll(s, idxs)
    decreases |idxs|
  {
    assert (idxs + [|s|])[..|idxs|] == idxs;
    assert (s + [x])[..|s|] + (s + [x])[|s| + 1..] == s;
    if idxs != [] {
      var k := idxs[|idxs| - 1];
      assert (s + [x])[..k] + (s + [x])[k + 1..] == (s[..k] + s[k + 1..]) + [x];
      RemoveAllSnoc(s[..k] + s[k + 1..], x, idxs[..|idxs| - 1]);
    }
  }

  method RemoveIndices(content: seq<Block>, idxs: seq<nat>) returns (r: seq<Block>)
    requires forall i, j :: 0 <= i < j < |idxs| ==> idxs[i] < idxs[j]
    requires forall i :: 0 <= i < |idxs| ==> idxs[i] < |content|
    ensures r == RemoveAll(content, idxs)
  {
    r := content;
    var n := |idxs|;
    assert idxs[..n] == idxs;
    while n > 0
      invariant 0 <= n <= |idxs|
      invariant forall i :: 0 <= i < n ==> idxs[i] < |r|
      invariant RemoveAll(r, idxs[..n]) == RemoveAll(content, idxs)
    {
      var k := idxs[n - 1];
      assert idxs[..n][..n - 1] == idxs[..n - 1];
      r := r[..k] + r[k + 1..];
      n := n - 1;
    }
  }

  lemma CleanStep(role: Role, bs: seq<Block>, i: nat, pending: set<string>)
    requires i < |bs|
    ensures var c := CleanBlocks(role, bs[..i], pending);
            var x := Item(role, bs[i]);
            CleanBlocks(role, bs[..i + 1], pending)
            == if Keeps(x, c.pending) then Cleaned(c.kept + [x.block], NextPending(x, c.pending), c.issues)
               else Cleaned(c.kept, NextPending(x, c.pending), c.issues + [RemovalIssue(x)])
  {
    assert bs[..i + 1][..i] == bs[..i];
  }

  method CleanOne(m: Message, pending0: set<string>)
    returns (content: seq<Block>, pending: set<string>, issues: seq<string>)
    ensures Cleaned(content, pending, issues) == CleanBlocks(m.role, m.content, pending0)
  {
    hide CleanBlocks, RemovalIssue, RemoveAll;
    var toRemove: seq<nat> := [];
    pending, issues := pending0, [];
    var i := 0;
    NothingRemoved(m.role, pending0, m.content);
    while i < |m.content|
      invariant 0 <= i <= |m.content|
      invariant forall a, b :: 0 <= a < b < |toRemove| ==> toRemove[a] < toRemove[b]
      invariant forall a :: 0 <= a < |toRemove| ==> toRemove[a] < i
      invariant Cleaned(RemoveAll(m.content[..i], toRemove), pending, issues)
             == CleanBlocks(m.role, m.content[..i], pending0)
    {
      var b := m.content[i];
      var x := Item(m.role, b);
      assert m.content[..i + 1] == m.content[..i] + [b];
      RemoveAllSnoc(m.content[..i], b, toRemove);
      CleanStep(m.role, m.content, i, pending0);
      ghost var before := pending;
      var remove := false;
      match m.role {
        case User =>
          if b.ToolResponse? {
            if b.id in pending { pending := pending - {b.id}; } else { remove := true; }
          } else if b.ToolRequest? || b.ToolConfirmationRequest? || b.Thinking? || b.RedactedThinking? {
            remove := true;
          }
        case Assistant =>
          if b.ToolResponse? {
            remove := true;
          } else if b.ToolRequest? {
            pending := pending + {b.id};
          }
      }
      assert pending == NextPending(x, before) && remove == !Keeps(x, before);
      if remove {
        toRemove := toRemove + [i];
        issues := issues + [RemovalIssue(x)];
      }
      i := i + 1;
    }
    assert m.content[..i] == m.content;
    content := RemoveIndices(m.content, toRemove);
  }

  lemma NothingRemoved(role: Role, pending: set<string>, bs: seq<Block>)
    ensures CleanBlocks(role, bs[..0], pending) == Cleaned([], pending, [])
    ensures RemoveAll(bs[..0], []) == []
  {}

  lemma DropStep(role: Role, bs: seq<Block>, i: nat, pending: set<string>)
    requires i < |bs|
    ensures var c := DropPending(role, bs[..i], pending);
            DropPending(role, bs[..i + 1], pending)
            == if Orphaned(role, bs[i], pending)
               then Fixed(c.kept, c.issues + ["Removed orphaned tool request '" + bs[i].id + "'"])
               else Fixed(c.kept + [bs[i]], c.issues)
  {
    assert bs[..i + 1][..i] == bs[..i];
  }

  lemma NothingDropped(role: Role, pending: set<string>, bs: seq<Block>)
    ensures DropPending(role, bs[..0], pending) == Fixed([], [])
    ensures RemoveAll(bs[..0], []) == []
  {}

  method DropOne(m: Message, pending: set<string>) returns (content: seq<Block>, issues: seq<string>)
    ensures Fixed(content, issues) == DropPending(m.role, m.content, pending)
  {
    hide DropPending, RemoveAll;
    var toRemove: seq<nat> := [];
    issues := [];
    var i := 0;
    NothingDropped(m.role, pending, m.content);
    while i < |m.content|
      invariant 0 <= i <= |m.content|
      invariant forall a, b :: 0 <= a < b < |toRemove| ==> toRemove[a] < toRemove[b]
      invariant forall a :: 0 <= a < |toRemove| ==> toRemove[a] < i
      invariant Fixed(RemoveAll(m.content[..i], toRemove), issues) == DropPending(m.role, m.content[..i], pending)
    {
      var b := m.content[i];
      assert m.content[..i + 1] == m.content[..i] + [b];
      RemoveAllSnoc(m.content[..i], b, toRemove);
      DropStep(m.role, m.content, i, pending);
      if m.role == Assistant && b.ToolRequest? && b.id in pending {
        toRemove := toRemove + [i];
        issues := issues + ["Removed orphaned tool request '" + b.id + "'"];
      }
      i := i + 1;
    }
    assert m.content[..i] == m.content;
    content := RemoveIndices(m.content, toRemove);
  }

  method FixToolCallingLoop(messages: seq<Message>) returns (r: Fixed<Message>)
    ensures r == FixToolCalling(messages)
  {
    hide CleanMessages, DropOrphans, RemoveEmpty;
    var ms, pending, issues := CleanAll(messages);
    var out, more := DropAll(ms, pending);
    var c := RemoveEmpty(out);
    r := Fixed(c.kept, issues + more + c.issues);
  }

  method CleanAll(messages: seq<Message>) returns (ms: seq<Message>, pending: set<string>, issues: seq<string>)
    ensures Cleaned(ms, pending, issues) == CleanMessages(messages)
  {
    hide CleanBlocks;
    ms, issues, pending := [], [], {};
    var i := 0;
    while i < |messages|
      invariant 0 <= i <= |messages|
      invariant Cleaned(ms, pending, issues) == CleanMessages(messages[..i])
    {
      assert messages[..i + 1][..i] == messages[..i];
      var content, p, extra := CleanOne(messages[i], pending);
      ms, pending, issues := ms + [messages[i].(content := content)], p, issues + extra;
      i := i + 1;
    }
    assert messages[..i] == messages;
  }

  method DropAll(ms: seq<Message>, pending: set<string>) returns (out: seq<Message>, issues: seq<string>)
    ensures Fixed(out, issues) == DropOrphans(ms, pending)
  {
    hide DropPending;
    out, issues := [], [];
    var i := 0;
    while i < |ms|
      invariant 0 <= i <= |ms|
      invariant Fixed(out, issues) == DropOrphans(ms[..i], pending)
    {
      assert ms[..i + 1][..i] == ms[..i];
      var content, extra := DropOne(ms[i], pending);
      out, issues := out + [ms[i].(content := content)], issues + extra;
      i := i + 1;
    }
    assert ms[..i] == ms;
  }

  // ---- The passes over the flat list of items ----

  datatype Ledger = Ledger(kept: seq<Item>, pending: set<string>)

  function Feed(l: Ledger, x: Item): Ledger {
    Ledger(if Keeps(x, l.pending) then l.kept + [x] else l.kept, NextPending(x, l.pending))
  }

  function FeedAll(l: Ledger, t: seq<Item>): Ledger {
    if t == [] then l else Feed(FeedAll(l, t[..|t| - 1]), t[|t| - 1])
  }

  lemma {:induction false} FeedAllConcat(l: Ledger, t: seq<Item>, u: seq<Item>)
    ensures FeedAll(l, t + u) == FeedAll(FeedAll(l, t), u)
  {
    if u == [] {
      assert t + u == t;
    } else {
      assert (t + u)[..|t + u| - 1] == t + u[..|u| - 1];
      FeedAllConcat(l, t, u[..|u| - 1]);
    }
  }

  lemma {:induction false} CleanBlocksFeeds(role: Role, bs: seq<Block>, l: Ledger)
    ensures var c := CleanBlocks(role, bs, l.pending);
            FeedAll(l, ItemsOf(role, bs)) == Ledger(l.kept + ItemsOf(role, c.kept), c.pending)
  {
    if bs == [] {
      assert l.kept + [] == l.kept;
    } else {
      var n := |bs| - 1;
      var x := Item(role, bs[n]);
      assert ItemsOf(role, bs)[..n] == ItemsOf(role, bs[..n]);
      CleanBlocksFeeds(role, bs[..n], l);
      var c := CleanBlocks(role, bs[..n], l.pending);
      ItemsOfConcat(role, c.kept, [bs[n]]);
      assert ItemsOf(role, [bs[n]]) == [x];
      assert l.kept + (ItemsOf(role, c.kept) + [x]) == (l.kept + ItemsOf(role, c.kept)) + [x];
    }
  }

  const START := Ledger([], {})

  lemma {:induction false} CleanMessagesFeeds(ms: seq<Message>)
    ensures var c := CleanMessages(ms);
            FeedAll(START, Items(ms)) == Ledger(Items(c.kept), c.pending)
  {
    hide CleanBlocks, Feed;
    if ms != [] {
      var n := |ms| - 1;
      var m := ms[n];
      CleanMessagesFeeds(ms[..n]);
      var c := CleanMessages(ms[..n]);
      FeedAllConcat(START, Items(ms[..n]), ItemsOf(m.role, m.content));
      CleanBlocksFeeds(m.role, m.content, Ledger(Items(c.kept), c.pending));
      var d := CleanBlocks(m.role, m.content, c.pending);
      ItemsSnoc(c.kept, m.(content := d.kept));
    }
  }

  function WithoutPending(t: seq<Item>, pending: set<string>): seq<Item> {
    if t == [] then []
    else
      var x := t[|t| - 1];
      WithoutPending(t[..|t| - 1], pending) + if Orphaned(x.role, x.block, pending) then [] else [x]
  }

  lemma {:induction false} WithoutPendingConcat(t: seq<Item>, u: seq<Item>, pending: set<string>)
    ensures WithoutPending(t + u, pending) == WithoutPending(t, pending) + WithoutPending(u, pending)
  {
    if u == [] {
      assert t + u == t;
    } else {
      assert (t + u)[..|t + u| - 1] == t + u[..|u| - 1];
      WithoutPendingConcat(t, u[..|u| - 1], pending);
    }
  }

  lemma {:induction false} DropPendingItems(role: Role, bs: seq<Block>, pending: set<string>)
    ensures ItemsOf(role, DropPending(role, bs, pending).kept) == WithoutPending(ItemsOf(role, bs), pending)
  {
    if bs != [] {
      var n := |bs| - 1;
      assert ItemsOf(role, bs)[..n] == ItemsOf(role, bs[..n]);
      DropPendingItems(role, bs[..n], pending);
    }
  }

  lemma {:induction false} DropOrphansItems(ms: seq<Message>, pending: set<string>)
    ensures Items(DropOrphans(ms, pending).kept) == WithoutPending(Items(ms), pending)
  {
    if ms != [] {
      var n := |ms| - 1;
      var m := ms[n];
      DropOrphansItems(ms[..n], pending);
      DropPendingItems(m.role, m.content, pending);
      WithoutPendingConcat(Items(ms[..n]), ItemsOf(m.role, m.content), pending);
      ItemsSnoc(DropOrphans(ms[..n], pending).kept, m.(content := DropPending(m.role, m.content, pending).kept));
    }
  }

  /** Everything but empty text. */
  function Solid(t: seq<Item>): seq<Item> {
    if t == [] then []
    else (if IsEmptyText(t[0].block) then [] else [t[0]]) + Solid(t[1..])
  }

  lemma {:induction false} SolidConcat(t: seq<Item>, u: seq<Item>)
    ensures Solid(t + u) == Solid(t) + Solid(u)
  {
    if t == [] {
      assert t + u == u;
    } else {
      assert (t + u)[0] == t[0] && (t + u)[1..] == t[1..] + u;
      SolidConcat(t[1..], u);
    }
  }

  lemma {:induction false} EmptyIsNotSolid(role: Role, bs: seq<Block>)
    requires AllEmptyText(bs)
    ensures Solid(ItemsOf(role, bs)) == []
  {
    if bs != [] {
      assert ItemsOf(role, bs)[1..] == ItemsOf(role, bs[1..]);
      EmptyIsNotSolid(role, bs[1..]);
    }
  }

  lemma {:induction false} RemoveEmptyKeepsSolid(ms: seq<Message>)
    ensures Solid(Items(RemoveEmpty(ms).kept)) == Solid(Items(ms))
  {
    if ms != [] {
      var n := |ms| - 1;
      var m := ms[n];
      RemoveEmptyKeepsSolid(ms[..n]);
      SolidConcat(Items(ms[..n]), ItemsOf(m.role, m.content));
      if AllEmptyText(m.content) {
        EmptyIsNotSolid(m.role, m.content);
      } else {
        ItemsSnoc(RemoveEmpty(ms[..n]).kept, m);
        SolidConcat(Items(RemoveEmpty(ms[..n]).kept), ItemsOf(m.role, m.content));
      }
    }
  }

  // ---- Who survives, said declaratively ----

  predicate IsRequest(x: Item, id: string) { x.role == Assistant && x.block.ToolRequest? && x.block.id == id }

  predicate IsResponse(x: Item, id: string) { x.role == User && x.block.ToolResponse? && x.block.id == id }

  /** No response to `id` stands in `t[from..to]`. */
  predicate Quiet(t: seq<Item>, from: nat, to: nat, id: string) {
    forall k :: from <= k < to && k < |t| ==> !IsResponse(t[k], id)
  }

  /** At position `n`, `id` has been requested and not answered since. */
  ghost predicate Awaited(t: seq<Item>, n: nat, id: string) {
    exists i :: 0 <= i < n && i < |t| && IsRequest(t[i], id) && Quiet(t, i + 1, n, id)
  }

  /** Item `j` stays: it is well placed; if it is a response it is awaited where
      it stands; if it is a request its id is not still awaited at the end. */
  ghost predicate Survives(t: seq<Item>, j: nat)
    requires j < |t|
  {
    && !Misplaced(t[j])
    && (t[j].block.ToolResponse? ==> Awaited(t, j, t[j].block.id))
    && (t[j].block.ToolRequest? ==> !Awaited(t, |t|, t[j].block.id))
  }

  ghost function Survivors(t: seq<Item>, n: nat): seq<Item>
    requires n <= |t|
  {
    if n == 0 then [] else Survivors(t, n - 1) + if Survives(t, n - 1) then [t[n - 1]] else []
  }

  /** The pending set is exactly the set of awaited ids. */
  lemma {:induction false} PendingIsAwaited(t: seq<Item>, n: nat, id: string)
    requires n <= |t|
    ensures id in FeedAll(START, t[..n]).pending <==> Awaited(t, n, id)
  {
    if n > 0 {
      var x := t[n - 1];
      assert t[..n][..n - 1] == t[..n - 1];
      PendingIsAwaited(t, n - 1, id);
      AwaitedStep(t, n, id);
    }
  }

  lemma AwaitedStep(t: seq<Item>, n: nat, id: string)
    requires 0 < n <= |t|
    ensures Awaited(t, n, id) <==>
            IsRequest(t[n - 1], id) || (!IsResponse(t[n - 1], id) && Awaited(t, n - 1, id))
  {
    var x := t[n - 1];
    if IsRequest(x, id) {
      assert Quiet(t, (n - 1) + 1, n, id);
    } else if !IsResponse(x, id) {
      assert forall from: nat :: from < n ==> (Quiet(t, from, n, id) <==> Quiet(t, from, n - 1, id));
      if Awaited(t, n - 1, id) {
        var i :| 0 <= i < n - 1 && i < |t| && IsRequest(t[i], id) && Quiet(t, i + 1, n - 1, id);
        assert Quiet(t, i + 1, n, id);
      }
    }
  }

  /** The two passes keep exactly the survivors, in order. */
  lemma {:induction false} PassesKeepSurvivors(t: seq<Item>, n: nat, pending: set<string>)
    requires n <= |t| && pending == FeedAll(START, t).pending
    ensures WithoutPending(FeedAll(START, t[..n]).kept, pending) == Survivors(t, n)
  {
    hide WithoutPending, Awaited, Keeps, Survives;
    if n == 0 {
      NothingPending(pending);
    } else {
      var x := t[n - 1];
      assert t[..n][..n - 1] == t[..n - 1];
      PassesKeepSurvivors(t, n - 1, pending);
      var l := FeedAll(START, t[..n - 1]);
      WithoutPendingConcat(l.kept, [x], pending);
      OnePending(x, pending);
      KeptIsSurvivor(t, n - 1, pending);
      assert WithoutPending(l.kept, pending) + [] == WithoutPending(l.kept, pending);
    }
  }

  lemma NothingPending(pending: set<string>)
    ensures WithoutPending([], pending) == []
  {}

  lemma OnePending(x: Item, pending: set<string>)
    ensures WithoutPending([x], pending) == if Orphaned(x.role, x.block, pending) then [] else [x]
  {
    assert [x][..0] == [];
    NothingPending(pending);
  }

  /** The first pass keeps item `j` and the second does not drop it exactly if it survives. */
  lemma KeptIsSurvivor(t: seq<Item>, j: nat, pending: set<string>)
    requires j < |t| && pending == FeedAll(START, t).pending
    ensures Survives(t, j) <==>
            Keeps(t[j], FeedAll(START, t[..j]).pending) && !Orphaned(t[j].role, t[j].block, pending)
  {
    hide Awaited, FeedAll;
    var x := t[j];
    assert t[..|t|] == t;
    if x.block.ToolResponse? { PendingIsAwaited(t, j, x.block.id); }
    if x.block.ToolRequest? { PendingIsAwaited(t, |t|, x.block.id); }
  }

  /** `fix_tool_calling` keeps exactly the surviving items, in order, and beyond
      that removes only empty text. */
  lemma FixToolCallingIsExact(ms: seq<Message>)
    ensures var t := Items(ms);
            Solid(Items(FixToolCalling(ms).kept)) == Solid(Survivors(t, |t|))
  {
    hide Feed, Solid, Survives;
    var t := Items(ms);
    var a := CleanMessages(ms);
    CleanMessagesFeeds(ms);
    DropOrphansItems(a.kept, a.pending);
    RemoveEmptyKeepsSolid(DropOrphans(a.kept, a.pending).kept);
    assert t[..|t|] == t;
    PassesKeepSurvivors(t, |t|, a.pending);
  }

  // ---- What that gives a provider ----

  predicate WellPlaced(t: seq<Item>) { forall i :: 0 <= i < |t| ==> !Misplaced(t[i]) }

  predicate HasResponse(t: seq<Item>, id: string) { exists j :: 0 <= j < |t| && IsResponse(t[j], id) }

  predicate HasRequest(t: seq<Item>, id: string) { exists j :: 0 <= j < |t| && IsRequest(t[j], id) }

  /** Every request is answered later. */
  predicate RequestsAnswered(t: seq<Item>) {
    forall i :: 0 <= i < |t| && t[i].block.ToolRequest? ==> HasResponse(t[i + 1..], t[i].block.id)
  }

  /** Every response has its request earlier. */
  predicate ResponsesRequested(t: seq<Item>) {
    forall j :: 0 <= j < |t| && t[j].block.ToolResponse? ==> HasRequest(t[..j], t[j].block.id)
  }

  /** No id is requested twice, and none is answered twice. */
  predicate NoRepeats(t: seq<Item>) {
    forall i, j :: 0 <= i < j < |t| ==>
      && !(t[i].block.ToolRequest? && t[j].block.ToolRequest? && t[i].block.id == t[j].block.id)
      && !(t[i].block.ToolResponse? && t[j].block.ToolResponse? && t[i].block.id == t[j].block.id)
  }

  /** The request ids of assistant messages are distinct. */
  ghost predicate DistinctRequests(t: seq<Item>) {
    forall i, j, id :: 0 <= i < j < |t| && IsRequest(t[i], id) ==> !IsRequest(t[j], id)
  }

  ghost function Rank(t: seq<Item>, n: nat): nat
    requires n <= |t|
  {
    |Survivors(t, n)|
  }

  /** Where a survivor ends up. */
  lemma {:induction false} SurvivorPosition(t: seq<Item>, j: nat, n: nat)
    requires j < n <= |t| && Survives(t, j)
    ensures Rank(t, j) < |Survivors(t, n)| && Survivors(t, n)[Rank(t, j)] == t[j]
  {
    hide Survives;
    if j < n - 1 {
      SurvivorPosition(t, j, n - 1);
    }
  }

  lemma {:induction false} RankGrows(t: seq<Item>, i: nat, j: nat)
    requires i < j <= |t|
    ensures Rank(t, i) <= Rank(t, j)
    ensures Survives(t, i) ==> Rank(t, i) < Rank(t, j)
  {
    hide Survives;
    if i < j - 1 { RankGrows(t, i, j - 1); }
  }

  /** Every item of the survivors comes from somewhere. */
  lemma {:induction false} SurvivorSource(t: seq<Item>, n: nat, k: nat) returns (j: nat)
    requires n <= |t| && k < |Survivors(t, n)|
    ensures j < n && Survives(t, j) && Rank(t, j) == k && Survivors(t, n)[k] == t[j]
  {
    hide Survives;
    if k == |Survivors(t, n - 1)| {
      j := n - 1;
    } else {
      j := SurvivorSource(t, n - 1, k);
    }
  }

  /** An id that is requested and not awaited at the end is answered by a survivor. */
  lemma {:induction false} AnswerSurvives(t: seq<Item>, i: nat, n: nat) returns (j: nat)
    requires i < n <= |t| && t[i].role == Assistant && t[i].block.ToolRequest?
    requires !Awaited(t, n, t[i].block.id)
    ensures i < j < n && IsResponse(t[j], t[i].block.id) && Awaited(t, j, t[i].block.id)
    decreases n
  {
    var id := t[i].block.id;
    assert IsRequest(t[i], id);
    AwaitedStep(t, n, id);
    if IsResponse(t[n - 1], id) && Awaited(t, n - 1, id) {
      j := n - 1;
    } else {
      j := AnswerSurvives(t, i, n - 1);
    }
  }

  lemma SurvivorsAnswered(t: seq<Item>)
    ensures var s := Survivors(t, |t|); WellPlaced(s) && RequestsAnswered(s)
  {
    var n := |t|;
    var s := Survivors(t, n);
    forall k | 0 <= k < |s| ensures !Misplaced(s[k]) {
      var j := SurvivorSource(t, n, k);
    }
    forall k | 0 <= k < |s| && s[k].block.ToolRequest? ensures HasResponse(s[k + 1..], s[k].block.id) {
      var i := SurvivorSource(t, n, k);
      var j := AnswerSurvives(t, i, n);
      assert Survives(t, j);
      SurvivorPosition(t, j, n);
      RankGrows(t, i, j);
      assert s[k + 1..][Rank(t, j) - (k + 1)] == t[j];
    }
  }

  lemma RequestOfSurvivor(t: seq<Item>, j: nat) returns (i: nat)
    requires DistinctRequests(t) && j < |t| && Survives(t, j) && t[j].block.ToolResponse?
    ensures i < j && IsRequest(t[i], t[j].block.id) && Survives(t, i)
  {
    var id := t[j].block.id;
    i :| 0 <= i < j && IsRequest(t[i], id) && Quiet(t, i + 1, j, id);
    assert IsResponse(t[j], id);
    forall k | 0 <= k < |t| && IsRequest(t[k], id) ensures !Quiet(t, k + 1, |t|, id) {
      assert k == i;
    }
  }

  /** Two surviving answers to one id stand behind two requests for it. */
  lemma TwoAnswersTwoRequests(t: seq<Item>, i: nat, j: nat) returns (a: nat, b: nat)
    requires i < j < |t| && Survives(t, i) && Survives(t, j)
    requires t[i].block.ToolResponse? && t[j].block.ToolResponse? && t[i].block.id == t[j].block.id
    ensures a < i < b < j && IsRequest(t[a], t[i].block.id) && IsRequest(t[b], t[i].block.id)
  {
    var id := t[i].block.id;
    a :| 0 <= a < i && IsRequest(t[a], id) && Quiet(t, a + 1, i, id);
    b :| 0 <= b < j && IsRequest(t[b], id) && Quiet(t, b + 1, j, id);
    assert IsResponse(t[i], id);
  }

  lemma SurvivorsRequested(t: seq<Item>)
    requires DistinctRequests(t)
    ensures ResponsesRequested(Survivors(t, |t|))
  {
    hide Survives, Quiet, DistinctRequests;
    var n := |t|;
    var s := Survivors(t, n);
    forall k | 0 <= k < |s| && s[k].block.ToolResponse? ensures HasRequest(s[..k], s[k].block.id) {
      var j := SurvivorSource(t, n, k);
      var i := RequestOfSurvivor(t, j);
      SurvivorPosition(t, i, n);
      RankGrows(t, i, j);
      assert s[..k][Rank(t, i)] == t[i];
    }
  }

  lemma RequestsDiffer(t: seq<Item>, i: nat, j: nat)
    requires DistinctRequests(t) && i < j < |t| && Survives(t, i) && Survives(t, j)
    requires t[i].block.ToolRequest? && t[j].block.ToolRequest?
    ensures t[i].block.id != t[j].block.id
  {
    hide Awaited;
    assert IsRequest(t[i], t[i].block.id);
    assert !IsRequest(t[j], t[i].block.id);
  }

  lemma ResponsesDiffer(t: seq<Item>, i: nat, j: nat)
    requires DistinctRequests(t) && i < j < |t| && Survives(t, i) && Survives(t, j)
    requires t[i].block.ToolResponse? && t[j].block.ToolResponse?
    ensures t[i].block.id != t[j].block.id
  {
    hide Awaited;
    if t[i].block.id == t[j].block.id {
      var c, d := TwoAnswersTwoRequests(t, i, j);
    }
  }

  lemma SurvivorsDoNotRepeat(t: seq<Item>)
    requires DistinctRequests(t)
    ensures NoRepeats(Survivors(t, |t|))
  {
    hide Survives, Survivors, DistinctRequests;
    var n := |t|;
    var s := Survivors(t, n);
    forall a, b | 0 <= a < b < |s|
      ensures !(s[a].block.ToolRequest? && s[b].block.ToolRequest? && s[a].block.id == s[b].block.id)
      ensures !(s[a].block.ToolResponse? && s[b].block.ToolResponse? && s[a].block.id == s[b].block.id)
    {
      var i := SurvivorSource(t, n, a);
      var j := SurvivorSource(t, n, b);
      assert i < j by {
        if j < i { RankGrows(t, j, i); }
      }
      if t[i].block.ToolRequest? && t[j].block.ToolRequest? { RequestsDiffer(t, i, j); }
      if t[i].block.ToolResponse? && t[j].block.ToolResponse? { ResponsesDiffer(t, i, j); }
    }
  }

  /** With distinct request ids, requests and responses correspond one to one,
      the request first. */
  lemma SurvivorsPaired(t: seq<Item>)
    requires DistinctRequests(t)
    ensures var s := Survivors(t, |t|);
            WellPlaced(s) && RequestsAnswered(s) && ResponsesRequested(s) && NoRepeats(s)
  {
    SurvivorsAnswered(t);
    SurvivorsRequested(t);
    SurvivorsDoNotRepeat(t);
  }

  // ---- The same, of the repaired conversation ----

  /** Where the `k`-th solid item stands. */
  function SolidPos(t: seq<Item>, k: nat): (j: nat)
    requires k < |Solid(t)|
    ensures j < |t| && t[j] == Solid(t)[k] && !IsEmptyText(t[j].block)
  {
    if IsEmptyText(t[0].block) then 1 + SolidPos(t[1..], k)
    else if k == 0 then 0
    else 1 + SolidPos(t[1..], k - 1)
  }

  lemma {:induction false} SolidPosGrows(t: seq<Item>, a: nat, b: nat)
    requires a < b < |Solid(t)|
    ensures SolidPos(t, a) < SolidPos(t, b)
  {
    if IsEmptyText(t[0].block) {
      SolidPosGrows(t[1..], a, b);
    } else if a > 0 {
      SolidPosGrows(t[1..], a - 1, b - 1);
    }
  }

  lemma {:induction false} SolidRank(t: seq<Item>, j: nat) returns (k: nat)
    requires j < |t| && !IsEmptyText(t[j].block)
    ensures k < |Solid(t)| && SolidPos(t, k) == j
  {
    if j == 0 {
      k := 0;
    } else {
      var i := SolidRank(t[1..], j - 1);
      k := if IsEmptyText(t[0].block) then i else i + 1;
    }
  }

  /** A later solid item is later among the solid items. */
  lemma LaterSolid(t: seq<Item>, a: nat, j: nat) returns (b: nat)
    requires a < |Solid(t)| && SolidPos(t, a) < j < |t| && !IsEmptyText(t[j].block)
    ensures a < b < |Solid(t)| && Solid(t)[b] == t[j]
  {
    b := SolidRank(t, j);
    if b < a { SolidPosGrows(t, b, a); }
  }

  lemma EarlierSolid(t: seq<Item>, a: nat, j: nat) returns (b: nat)
    requires a < |Solid(t)| && j < SolidPos(t, a) && !IsEmptyText(t[j].block)
    ensures b < a && Solid(t)[b] == t[j]
  {
    b := SolidRank(t, j);
    if a < b { SolidPosGrows(t, a, b); }
  }

  /** Dropping empty text does not disturb the pairing of calls and answers. */
  lemma SolidAnswered(t: seq<Item>)
    requires WellPlaced(t) && RequestsAnswered(t)
    ensures WellPlaced(Solid(t)) && RequestsAnswered(Solid(t))
  {
    hide Solid;
    var s := Solid(t);
    forall a | 0 <= a < |s| ensures !Misplaced(s[a]) {
      assert !Misplaced(t[SolidPos(t, a)]);
    }
    forall a | 0 <= a < |s| && s[a].block.ToolRequest? ensures HasResponse(s[a + 1..], s[a].block.id) {
      var i := SolidPos(t, a);
      assert HasResponse(t[i + 1..], t[i].block.id);
      var k :| 0 <= k < |t[i + 1..]| && IsResponse(t[i + 1..][k], t[i].block.id);
      var b := LaterSolid(t, a, i + 1 + k);
      assert s[a + 1..][b - a - 1] == s[b];
    }
  }

  lemma SolidPaired(t: seq<Item>)
    requires ResponsesRequested(t) && NoRepeats(t)
    ensures ResponsesRequested(Solid(t)) && NoRepeats(Solid(t))
  {
    hide Solid;
    var s := Solid(t);
    forall a | 0 <= a < |s| && s[a].block.ToolResponse? ensures HasRequest(s[..a], s[a].block.id) {
      var i := SolidPos(t, a);
      assert HasRequest(t[..i], t[i].block.id);
      var k :| 0 <= k < |t[..i]| && IsRequest(t[..i][k], t[i].block.id);
      var b := EarlierSolid(t, a, k);
      assert s[..a][b] == s[b];
    }
    forall a, b | 0 <= a < b < |s|
      ensures !(s[a].block.ToolRequest? && s[b].block.ToolRequest? && s[a].block.id == s[b].block.id)
      ensures !(s[a].block.ToolResponse? && s[b].block.ToolResponse? && s[a].block.id == s[b].block.id)
    {
      SolidPosGrows(t, a, b);
      var i, j := SolidPos(t, a), SolidPos(t, b);
      assert s[a] == t[i] && s[b] == t[j];
    }
  }

  /** After the repair, requests stand only in assistant messages, responses only
      in user messages, and every request is answered later. */
  lemma RepairedCallsAnswered(ms: seq<Message>)
    ensures var s := Solid(Items(FixToolCalling(ms).kept)); WellPlaced(s) && RequestsAnswered(s)
  {
    hide Solid, Survivors, FixToolCalling;
    FixToolCallingIsExact(ms);
    var t := Items(ms);
    SurvivorsAnswered(t);
    SolidAnswered(Survivors(t, |t|));
  }

  /** If moreover the request ids were distinct, calls and answers correspond one
      to one, the call first. */
  lemma RepairedCallsPaired(ms: seq<Message>)
    requires DistinctRequests(Items(ms))
    ensures var s := Solid(Items(FixToolCalling(ms).kept)); ResponsesRequested(s) && NoRepeats(s)
  {
    hide Solid, Survivors, FixToolCalling;
    FixToolCallingIsExact(ms);
    var t := Items(ms);
    SurvivorsPaired(t);
    SolidPaired(Survivors(t, |t|));
  }

  // ---- Repeated ids ----

  /** In general a surviving response has a surviving request before it exactly
      when its id is not awaited again at the end. */
  lemma ResponseKeepsItsRequest(t: seq<Item>, j: nat)
    requires j < |t| && Survives(t, j) && t[j].block.ToolResponse?
    ensures (exists i :: 0 <= i < j && IsRequest(t[i], t[j].block.id) && Survives(t, i))
       <==> !Awaited(t, |t|, t[j].block.id)
  {
    var id := t[j].block.id;
    var i :| 0 <= i < j && IsRequest(t[i], id) && Quiet(t, i + 1, j, id);
    if !Awaited(t, |t|, id) {
      assert Survives(t, i);
    } else {
      forall k | 0 <= k < j && IsRequest(t[k], id) ensures !Survives(t, k) {
        assert t[k].block.id == id;
      }
    }
  }

  /** A message with one block. */
  function Single(role: Role, b: Block): Message { Message(None, role, [b], DEFAULT_METADATA) }

  lemma CleanSingle(ms: seq<Message>, role: Role, b: Block)
    ensures var c := CleanMessages(ms);
            var x := Item(role, b);
            var d := CleanMessages(ms + [Single(role, b)]);
            && d.pending == NextPending(x, c.pending)
            && d.kept == c.kept + [Single(role, b).(content := if Keeps(x, c.pending) then [b] else [])]
  {
    hide Keeps, NextPending, RemovalIssue;
    var m := Single(role, b);
    assert (ms + [m])[..|ms|] == ms;
    var c := CleanMessages(ms);
    assert [b][..0] == [];
    assert CleanBlocks(role, [], c.pending) == Cleaned([], c.pending, []);
    assert CleanBlocks(role, [b], c.pending).kept == if Keeps(Item(role, b), c.pending) then [b] else [];
  }

  lemma DropSingle(ms: seq<Message>, pending: set<string>, role: Role, b: Block)
    ensures DropOrphans(ms + [Single(role, b)], pending).kept
         == DropOrphans(ms, pending).kept
            + [Single(role, b).(content := if Orphaned(role, b, pending) then [] else [b])]
  {
    hide Orphaned;
    assert (ms + [Single(role, b)])[..|ms|] == ms;
    assert [b][..0] == [];
    assert DropPending(role, [], pending) == Fixed([], []);
    assert DropPending(role, [b], pending).kept == if Orphaned(role, b, pending) then [] else [b];
  }

  /** A repeated id can orphan a response: the second request takes the first
      one with it, and the answer stays. */
  lemma RepeatedIdOrphansResponse()
    ensures var q := Single(Assistant, ToolRequest("a", Call("t", 0), false));
            var r := Single(User, ToolResponse("a", Ok([])));
            FixToolCalling([q, r, q]).kept == [r]
  {
    hide CleanMessages, DropOrphans, RemoveEmpty;
    var req, res := ToolRequest("a", Call("t", 0), false), ToolResponse("a", Ok([]));
    var q, r := Single(Assistant, req), Single(User, res);
    NothingAtAll();
    CleanSingle([], Assistant, req);
    assert [] + [q] == [q] && q.(content := [req]) == q;
    CleanSingle([q], User, res);
    assert [q] + [r] == [q, r] && r.(content := [res]) == r;
    CleanSingle([q, r], Assistant, req);
    assert [q, r] + [q] == [q, r, q];
    assert CleanMessages([q, r, q]).kept == [q, r, q] && CleanMessages([q, r, q]).pending == {"a"};
    DropSingle([], {"a"}, Assistant, req);
    DropSingle([q], {"a"}, User, res);
    DropSingle([q, r], {"a"}, Assistant, req);
    var e := q.(content := []);
    assert DropOrphans([q, r, q], {"a"}).kept == [e, r, e];
    OnlyTheMiddle(e, r);
  }

  lemma NothingAtAll()
    ensures CleanMessages([]) == Cleaned([], {}, []) && DropOrphans([], {"a"}) == Fixed([], [])
  {}

  lemma OnlyTheMiddle(e: Message, r: Message)
    requires e.content == [] && |r.content| == 1 && !IsEmptyText(r.content[0])
    ensures RemoveEmpty([e, r, e]).kept == [r]
  {
    assert [e, r, e][..2] == [e, r] && [e, r][..1] == [e] && [e][..0] == [];
    assert !AllEmptyText(r.content);
    assert RemoveEmpty([e]).kept == [];
    assert RemoveEmpty([e, r]).kept == [r];
  }
}
