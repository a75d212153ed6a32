/** The tools operation: which requests are pending, and what each gets as an
    answer (tool.rs). */
module AgentTools {
  import opened Messages
  import opened AgentTurn

  // ---- The tools operation ----

  /** Around one call: the flag was already seen set; it won the race against the
      call; otherwise what the tool returned. */
  datatype CallChoice = CallChoice(seen: bool, interrupted: bool, result: ToolResult)

  predicate IsPending(r: Block, answered: set<string>) { r.ToolRequest? && !r.external && r.id !in answered }

  /** The requests of the turn that are ours to answer and have no answer yet. */
  function Pending(turn: seq<Message>): seq<Block> {
    var answered := AnswersOf(turn);
    Filter(RequestsOf(turn), b => IsPending(b, answered))
  }

  predicate IsAvailable(r: Block, names: set<string>) {
    r.ToolRequest? && (r.call.BadCall? || r.call.name in names)
  }

  function Available(rs: seq<Block>, names: set<string>): seq<Block> {
    Filter(rs, b => IsAvailable(b, names))
  }

  /** Whether the loop has noticed the cancellation before call `n`. */
  predicate Noticed(calls: seq<CallChoice>, n: nat) {
    exists k :: 0 <= k < n && k < |calls| && (calls[k].seen || calls[k].interrupted)
  }

  /** Whether request `i` reaches its tool. */
  predicate IsDispatched(rs: seq<Block>, calls: seq<CallChoice>, i: nat)
    requires i < |rs| && |rs| <= |calls| && rs[i].ToolRequest?
  {
    rs[i].call.Call? && !Noticed(calls, i) && !calls[i].seen
  }

  function Reply(r: Block, c: CallChoice, noticed: bool): Block
    requires r.ToolRequest?
  {
    ToolResponse(r.id,
      if noticed || c.seen then INTERRUPTED_RESULT
      else match r.call
        case BadCall(error) => Failed(error)
        case Call(_, _) => if c.interrupted then INTERRUPTED_RESULT else c.result)
  }

  function CallReplies(rs: seq<Block>, calls: seq<CallChoice>): (r: seq<Block>)
    requires |rs| <= |calls| && forall i :: 0 <= i < |rs| ==> rs[i].ToolRequest?
    ensures |r| == |rs| && forall i :: 0 <= i < |r| ==> r[i] == Reply(rs[i], calls[i], Noticed(calls, i))
  {
    seq(|rs|, i requires 0 <= i < |rs| => Reply(rs[i], calls[i], Noticed(calls, i)))
  }

  lemma NoticedNext(calls: seq<CallChoice>, i: nat)
    requires i < |calls|
    ensures Noticed(calls, i + 1) <==> Noticed(calls, i) || calls[i].seen || calls[i].interrupted
  {
    if calls[i].seen || calls[i].interrupted { assert 0 <= i < i + 1; }
  }

  /** One pending request: interrupted if the flag is seen before its call or wins
      the race against it. */
  method AnswerOne(r: Block, c: CallChoice, noticed: bool) returns (result: ToolResult, cancelled: bool)
    requires r.ToolRequest? && (c.interrupted ==> r.call.Call?)
    ensures ToolResponse(r.id, result) == Reply(r, c, noticed)
    ensures cancelled == (noticed || c.seen || c.interrupted)
  {
    cancelled := noticed;
    if cancelled || c.seen { return INTERRUPTED_RESULT, true; }
    match r.call {
      case BadCall(error) => result := Failed(error);
      case Call(_, _) =>
        if c.interrupted { return INTERRUPTED_RESULT, true; }
        result := c.result;
    }
  }

  /** Answer the pending requests in order; once cancelled, the rest are interrupted. */
  method DispatchAll(rs: seq<Block>, calls: seq<CallChoice>) returns (content: seq<Block>)
    requires |rs| <= |calls| && forall i :: 0 <= i < |rs| ==> rs[i].ToolRequest?
    requires forall i :: 0 <= i < |rs| && calls[i].interrupted ==> rs[i].call.Call?
    ensures content == CallReplies(rs, calls)
  {
    hide Noticed, Reply;
    content := [];
    var cancelled := false;
    NothingNoticed(calls);
    var i := 0;
    while i < |rs|
      invariant 0 <= i <= |rs| && |content| == i
      invariant cancelled == Noticed(calls, i)
      invariant forall k :: 0 <= k < i ==> content[k] == Reply(rs[k], calls[k], Noticed(calls, k))
    {
      var result: ToolResult;
      result, cancelled := AnswerOne(rs[i], calls[i], cancelled);
      NoticedNext(calls, i);
      content := content + [ToolResponse(rs[i].id, result)];
      i := i + 1;
    }
  }

  lemma NothingNoticed(calls: seq<CallChoice>)
    ensures !Noticed(calls, 0)
  {}

  predicate DistinctIds(rs: seq<Block>) {
    forall i, j :: 0 <= i < j < |rs| && rs[i].ToolRequest? && rs[j].ToolRequest? ==> rs[i].id != rs[j].id
  }

  lemma {:induction false} FilterKeepsDistinct(rs: seq<Block>, p: Block -> bool)
    requires DistinctIds(rs)
    ensures DistinctIds(Filter(rs, p))
  {
    if rs != [] {
      var n := |rs| - 1;
      FilterKeepsDistinct(rs[..n], p);
      forall i | 0 <= i < |Filter(rs[..n], p)| && rs[n].ToolRequest? && Filter(rs[..n], p)[i].ToolRequest?
        ensures Filter(rs[..n], p)[i].id != rs[n].id
      {
        var k :| 0 <= k < n && rs[..n][k] == Filter(rs[..n], p)[i];
        assert rs[k] == rs[..n][k];
      }
    }
  }

  lemma {:induction false} FilterConcat(a: seq<Block>, b: seq<Block>, p: Block -> bool)
    ensures Filter(a + b, p) == Filter(a, p) + Filter(b, p)
  {
    if b == [] {
      assert a + b == a;
    } else {
      assert (a + b)[..|a + b| - 1] == a + b[..|b| - 1];
      FilterConcat(a, b[..|b| - 1], p);
    }
  }

  lemma {:induction false} FilterTwice(rs: seq<Block>, p: Block -> bool, q: Block -> bool)
    requires forall b :: p(b) ==> q(b)
    ensures Filter(Filter(rs, q), p) == Filter(rs, p)
  {
    hide Filter;
    if rs == [] {
      FilterNothing(p);
      FilterNothing(q);
    } else {
      var n := |rs| - 1;
      var init, b := rs[..n], rs[n];
      assert rs == init + [b];
      FilterTwice(init, p, q);
      FilterConcat(init, [b], p);
      FilterConcat(init, [b], q);
      FilterOne(b, p);
      FilterOne(b, q);
      if q(b) {
        FilterConcat(Filter(init, q), [b], p);
      } else {
        assert Filter(init, q) + [] == Filter(init, q) && Filter(init, p) + [] == Filter(init, p);
      }
    }
  }

  lemma FilterNothing(p: Block -> bool)
    ensures Filter([], p) == []
  {}

  lemma FilterOne(b: Block, p: Block -> bool)
    ensures Filter([b], p) == if p(b) then [b] else []
  {
    assert [b][..0] == [];
    assert Filter([], p) == [];
  }

  function Interrupts(rs: seq<Block>): (r: seq<Block>)
    requires forall i :: 0 <= i < |rs| ==> rs[i].ToolRequest?
    ensures |r| == |rs| && forall i :: 0 <= i < |r| ==> r[i] == ToolResponse(rs[i].id, INTERRUPTED_RESULT)
  {
    seq(|rs|, i requires 0 <= i < |rs| => ToolResponse(rs[i].id, INTERRUPTED_RESULT))
  }
}
