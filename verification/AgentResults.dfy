/** What a step of the agent loop hands back: every tool call gets its own tool's
    result, and every way an inference can end has its own messages (operation.rs,
    tool.rs, inference.rs, machine.rs). */
module AgentResults {
  import opened Common
  import opened Messages
  import opened MessageMerge
  import opened AgentTurn
  import opened AgentTools
  import opened AgentInference
  import opened AgentMachine

  // ---- The turn and what it owes ----

  /** A message of the user's that is shown and carries no tool response. */
  predicate Starts(m: Message) {
    m.role == User && m.meta.userVisible && forall i :: 0 <= i < |m.content| ==> !m.content[i].ToolResponse?
  }

  lemma StartsExact(m: Message)
    ensures Starts(m) <==> IsKickoff(m)
  {}

  /** The turn begins at the last message that starts one. */
  lemma KickoffExact(ms: seq<Message>, k: nat)
    ensures Kickoff(ms) == Some(k) <==>
            k < |ms| && Starts(ms[k]) && forall i :: k < i < |ms| ==> !Starts(ms[i])
    ensures Kickoff(ms) == None <==> forall i :: 0 <= i < |ms| ==> !Starts(ms[i])
    ensures Kickoff(ms) == Some(k) ==> ms == ms[..k] + Turn(ms)
  {
    hide Starts, IsKickoff, Kickoff;
    forall i | 0 <= i < |ms| ensures Starts(ms[i]) <==> IsKickoff(ms[i]) { StartsExact(ms[i]); }
  }

  predicate AnsweredIn(id: string, bs: seq<Block>) {
    exists k :: 0 <= k < |bs| && bs[k].ToolResponse? && bs[k].id == id
  }

  lemma {:induction false} AnswersExact(bs: seq<Block>, id: string)
    ensures id in Answers(bs) <==> AnsweredIn(id, bs)
  {
    if bs != [] {
      var n := |bs| - 1;
      AnswersExact(bs[..n], id);
      if k :| 0 <= k < n && bs[..n][k].ToolResponse? && bs[..n][k].id == id { assert bs[k].id == id; }
      if k :| 0 <= k < |bs| && bs[k].ToolResponse? && bs[k].id == id {
        if k < n { assert bs[..n][k].id == id; }
      }
    }
  }

  lemma {:induction false} AnswersConcat(a: seq<Block>, b: seq<Block>)
    ensures Answers(a + b) == Answers(a) + Answers(b)
  {
    if b == [] {
      assert a + b == a;
    } else {
      assert (a + b)[..|a + b| - 1] == a + b[..|b| - 1];
      AnswersConcat(a, b[..|b| - 1]);
    }
  }

  lemma {:induction false} RequestsAreFiltered(bs: seq<Block>)
    ensures Requests(bs) == Filter(bs, (b: Block) => b.ToolRequest?)
  {
    if bs != [] { RequestsAreFiltered(bs[..|bs| - 1]); }
  }

  /** The requests and the answered ids of a conversation, read off its blocks. */
  lemma {:induction false} ViewsExact(ms: seq<Message>)
    ensures RequestsOf(ms) == Filter(Contents(ms), (b: Block) => b.ToolRequest?)
    ensures forall id :: id in AnswersOf(ms) <==> AnsweredIn(id, Contents(ms))
  {
    hide AnsweredIn, Requests, Answers;
    ViewsAreContents(ms);
    RequestsAreFiltered(Contents(ms));
    forall id ensures id in AnswersOf(ms) <==> AnsweredIn(id, Contents(ms)) { AnswersExact(Contents(ms), id); }
  }

  lemma {:induction false} ViewsAreContents(ms: seq<Message>)
    ensures RequestsOf(ms) == Requests(Contents(ms)) && AnswersOf(ms) == Answers(Contents(ms))
  {
    if ms != [] {
      var n := |ms| - 1;
      ViewsAreContents(ms[..n]);
      RequestsConcat(Contents(ms[..n]), ms[n].content);
      AnswersConcat(Contents(ms[..n]), ms[n].content);
    }
  }

  /** Block `b` of a turn with the blocks `bs` is a call for us to answer. */
  ghost predicate Owed(b: Block, bs: seq<Block>) { b.ToolRequest? && !b.external && !AnsweredIn(b.id, bs) }

  /** A call we can answer: its tool is there, or it could not even be read. */
  predicate Ready(b: Block, names: set<string>) {
    b.ToolRequest? && match b.call case BadCall(_) => true case Call(name, _) => name in names
  }

  lemma {:induction false} FilterSame(bs: seq<Block>, p: Block -> bool, q: Block -> bool)
    requires forall b :: p(b) <==> q(b)
    ensures Filter(bs, p) == Filter(bs, q)
  {
    if bs != [] { FilterSame(bs[..|bs| - 1], p, q); }
  }

  /** What is pending, and what of it a round takes up, as one pass over the blocks
      of the turn. */
  lemma PendingExact(turn: seq<Message>, names: set<string>)
    ensures Pending(turn) == Filter(Contents(turn), b => Owed(b, Contents(turn)))
    ensures Available(Pending(turn), names)
         == Filter(Contents(turn), b => Owed(b, Contents(turn)) && Ready(b, names))
  {
    hide AnsweredIn, Contents, RequestsOf, AnswersOf, Filter;
    var bs, answered := Contents(turn), AnswersOf(turn);
    var owed, both := b => Owed(b, bs), b => Owed(b, bs) && Ready(b, names);
    var p, a := (b: Block) => IsPending(b, answered), (b: Block) => IsAvailable(b, names);
    ViewsExact(turn);
    FilterTwice(bs, p, (b: Block) => b.ToolRequest?);
    FilterSame(bs, p, owed);
    assert Pending(turn) == Filter(bs, owed);
    FilterSame(Filter(bs, owed), a, b => Ready(b, names));
    FilterWithin(bs, owed, b => Ready(b, names), both);
  }

  /** Filtering twice is filtering by both. */
  lemma {:induction false} FilterWithin(bs: seq<Block>, q: Block -> bool, p: Block -> bool, both: Block -> bool)
    requires forall b :: both(b) <==> q(b) && p(b)
    ensures Filter(Filter(bs, q), p) == Filter(bs, both)
  {
    hide Filter;
    FilterTwice(bs, both, q);
    FilterAgrees(Filter(bs, q), p, both);
  }

  lemma {:induction false} FilterAgrees(bs: seq<Block>, p: Block -> bool, q: Block -> bool)
    requires forall b :: b in bs ==> (p(b) <==> q(b))
    ensures Filter(bs, p) == Filter(bs, q)
  {
    if bs != [] {
      assert forall b :: b in bs[..|bs| - 1] ==> b in bs;
      assert bs[|bs| - 1] in bs;
      FilterAgrees(bs[..|bs| - 1], p, q);
    }
  }

  // ---- One round of tools ----

  const INTERRUPTED := Ok([ResultText("Tool call was interrupted before completing")])

  /** The cancellation was not noticed before call `k` began. */
  predicate Clear(calls: seq<CallChoice>, k: nat)
    requires k < |calls|
  {
    !calls[k].seen && forall j :: 0 <= j < k ==> !calls[j].seen && !calls[j].interrupted
  }

  /** What call `k` is told: its tool's result if it ran to its end, its own error if
      it could not be read, and that it was interrupted otherwise. */
  function ResultOf(r: Block, calls: seq<CallChoice>, k: nat): ToolResult
    requires k < |calls| && r.ToolRequest?
  {
    if !Clear(calls, k) then INTERRUPTED
    else match r.call
      case BadCall(error) => Failed(error)
      case Call(_, _) => if calls[k].interrupted then INTERRUPTED else calls[k].result
  }

  /** A dispatched call that is not interrupted is answered with what its tool
      returned; a call that cannot be read with its error; and from the call at which
      the cancellation is noticed on, every call is interrupted. */
  lemma RepliesExact(rs: seq<Block>, calls: seq<CallChoice>, k: nat)
    requires k < |rs| <= |calls| && forall i :: 0 <= i < |rs| ==> rs[i].ToolRequest?
    ensures |CallReplies(rs, calls)| == |rs|
    ensures CallReplies(rs, calls)[k] == ToolResponse(rs[k].id, ResultOf(rs[k], calls, k))
    ensures IsDispatched(rs, calls, k) <==> rs[k].call.Call? && Clear(calls, k)
    ensures IsDispatched(rs, calls, k) && !calls[k].interrupted ==>
              CallReplies(rs, calls)[k] == ToolResponse(rs[k].id, calls[k].result)
    ensures forall j :: 0 <= j < k && (calls[j].seen || calls[j].interrupted) ==>
              CallReplies(rs, calls)[k] == ToolResponse(rs[k].id, INTERRUPTED)
  {}

  /** A message of ours that answers calls. */
  function FromUs(content: seq<Block>): Message {
    Message(None, User, content, Metadata(true, true, false, None, false, 0))
  }

  /** The answers of a round to the calls `rs`. */
  function Results(rs: seq<Block>, calls: seq<CallChoice>): seq<Block>
    requires |rs| <= |calls| && forall i :: 0 <= i < |rs| ==> rs[i].ToolRequest?
  {
    seq(|rs|, i requires 0 <= i < |rs| => ToolResponse(rs[i].id, ResultOf(rs[i], calls, i)))
  }

  lemma RepliesAreResults(rs: seq<Block>, calls: seq<CallChoice>)
    requires |rs| <= |calls| && forall i :: 0 <= i < |rs| ==> rs[i].ToolRequest?
    ensures CallReplies(rs, calls) == Results(rs, calls)
  {
    hide ResultOf, IsDispatched;
    forall k | 0 <= k < |rs| ensures CallReplies(rs, calls)[k] == Results(rs, calls)[k] {
      RepliesExact(rs, calls, k);
    }
  }

  /** The calls the turn owes an answer, and those of them that have their tool. */
  ghost function Debts(conv: seq<Message>): (r: seq<Block>)
    requires Kickoff(conv).Some?
    ensures forall i :: 0 <= i < |r| ==> r[i].ToolRequest?
  {
    var bs := Contents(Turn(conv));
    Filter(bs, b => Owed(b, bs))
  }

  ghost function Payable(conv: seq<Message>, names: set<string>): (r: seq<Block>)
    requires Kickoff(conv).Some?
    ensures forall i :: 0 <= i < |r| ==> r[i].ToolRequest?
  {
    var bs := Contents(Turn(conv));
    Filter(bs, b => Owed(b, bs) && Ready(b, names))
  }

  lemma DebtsExact(conv: seq<Message>, names: set<string>)
    requires Kickoff(conv).Some?
    ensures Pending(Turn(conv)) == Debts(conv) && Available(Pending(Turn(conv)), names) == Payable(conv, names)
  {
    hide Filter, Contents, Turn, Pending, Available;
    PendingExact(Turn(conv), names);
  }

  /** Without a turn the tools operation fails, and with nothing owed it does not apply. */
  lemma IdleRound(conv: seq<Message>, c: Choice)
    ensures Kickoff(conv).None? ==> RunTools(conv, c) == Err
    ensures Kickoff(conv).Some? && Debts(conv) == [] ==> RunTools(conv, c) == NotApplicable
  {
    hide Debts, Pending, Turn;
    if Kickoff(conv).Some? { DebtsExact(conv, {}); }
  }

  /** Cancelled while the tools are looked up, all that is owed is interrupted. */
  lemma InterruptedRound(conv: seq<Message>, c: Choice)
    requires Kickoff(conv).Some? && Debts(conv) != [] && c.selectCancelled
    ensures var owed := Debts(conv);
            RunTools(conv, c) == Did([FromUs(seq(|owed|, i requires 0 <= i < |owed| =>
                                   ToolResponse(owed[i].id, INTERRUPTED)))], false)
  {
    hide Debts, Pending, Turn;
    DebtsExact(conv, {});
    var owed := Debts(conv);
    assert Interrupts(owed) == seq(|owed|, i requires 0 <= i < |owed| => ToolResponse(owed[i].id, INTERRUPTED));
  }

  /** Otherwise the calls whose tools are there, and no others, are answered, in one
      message and in order. */
  lemma ToolRoundExact(conv: seq<Message>, c: Choice)
    requires Kickoff(conv).Some? && Debts(conv) != [] && !c.selectCancelled
    ensures c.available.None? ==> RunTools(conv, c) == Err
    ensures c.available.Some? ==>
            var rs := Payable(conv, c.available.value);
            && (rs == [] ==> RunTools(conv, c) == NotApplicable)
            && (rs != [] && |rs| <= |c.calls| ==> RunTools(conv, c) == Did([FromUs(Results(rs, c.calls))], false))
  {
    hide Debts, Payable, Pending, Available, Turn, CallReplies, Results;
    DebtsExact(conv, {});
    if c.available.Some? {
      var rs := Payable(conv, c.available.value);
      DebtsExact(conv, c.available.value);
      if |rs| <= |c.calls| { RepliesAreResults(rs, c.calls); }
    }
  }

  // ---- Which operation a step is ----

  /** What operation `kind` does while the flag is clear; an inference that does not
      apply is passed over. */
  function Runs(kind: Kind, conv: seq<Message>, c: Choice): OpResult {
    match kind
    case Tools => RunTools(conv, c)
    case Inference => if Applies(conv) then Infer(conv, c) else NotApplicable
  }

  /** The answer to calls cut short that an inference gives in place of a turn of its
      own once the flag is set. */
  ghost predicate ClosesTurn(kind: Kind, conv: seq<Message>, c: Choice, ms: seq<Message>) {
    && kind == Inference && c.end && Kickoff(conv).Some?
    && |ms| == 1 && CancellationResponse(Turn(conv), []) == Some(ms[0])
    && (c.start || (Applies(conv) && Infer(conv, c) == NotApplicable))
  }

  /** Operation `i` is passed over and the step goes on. */
  predicate Passes(kind: Kind, conv: seq<Message>, c: Choice) {
    if c.start && kind == Inference && c.end then
      Kickoff(conv).Some? && CancellationResponse(Turn(conv), []) == None
    else c.start || (Runs(kind, conv, c) == NotApplicable
                     && (kind == Inference && Applies(conv) ==> !c.gatherCancelled && !c.gatherFails))
  }

  lemma InferApplies(conv: seq<Message>, c: Choice)
    ensures Applies(conv) ==> Infer(conv, c).Did?
  {
    hide Gather, CancellationResponse, IsEmptyAnswer, Turn;
  }

  lemma PassesOver(steps: seq<Kind>, choices: seq<Choice>, conv: seq<Message>, i: nat)
    requires i < |steps| == |choices| && Passes(steps[i], conv, choices[i])
    ensures StepFrom(steps, choices, conv, i) == StepFrom(steps, choices, conv, i + 1)
  {
    hide RunTools, Infer, Applies, CancellationResponse, Kickoff;
    InferApplies(conv, choices[i]);
  }

  lemma {:induction false} AllPassOver(steps: seq<Kind>, choices: seq<Choice>, conv: seq<Message>, i: nat)
    requires i <= |steps| == |choices|
    requires forall j :: 0 <= j < i ==> Passes(steps[j], conv, choices[j])
    ensures StepFrom(steps, choices, conv, 0) == StepFrom(steps, choices, conv, i)
  {
    hide Passes, StepFrom;
    if i > 0 {
      AllPassOver(steps, choices, conv, i - 1);
      PassesOver(steps, choices, conv, i - 1);
    }
  }

  /** The step is the first operation that does not pass: what it appends is what that
      operation made, or the answer to the calls that the cancellation cut short, and
      it yields to the client if the operation does or if the flag was seen. If all
      pass there is no step. */
  lemma StepIsFirstOperation(steps: seq<Kind>, choices: seq<Choice>, conv: seq<Message>, i: nat)
    requires i <= |steps| == |choices|
    requires forall j :: 0 <= j < i ==> Passes(steps[j], conv, choices[j])
    requires i < |steps| ==> !Passes(steps[i], conv, choices[i])
    ensures var o := StepFrom(steps, choices, conv, 0);
            && (i == |steps| ==> o == NoStep)
            && (i < |steps| ==>
                  var kind, c := steps[i], choices[i];
                  && (o == NoStep <==> !c.start && kind == Inference && Applies(conv) && c.gatherCancelled)
                  && (o.Applied? ==>
                        || (!c.start && Runs(kind, conv, c).Did? && o.messages == Runs(kind, conv, c).messages
                            && o.toClient == (Runs(kind, conv, c).toClient || c.end))
                        || (ClosesTurn(kind, conv, c, o.messages) && o.toClient)))
  {
    hide RunTools, Infer, Applies, CancellationResponse, Kickoff;
    AllPassOver(steps, choices, conv, i);
    if i < |steps| { InferApplies(conv, choices[i]); }
  }

  /** With the flag clear and the tools of every operation listed, the step is exactly
      the result of the first operation that applies. */
  lemma FirstApplicable(steps: seq<Kind>, choices: seq<Choice>, conv: seq<Message>, i: nat)
    requires i < |steps| == |choices|
    requires forall j :: 0 <= j < |choices| ==>
      !choices[j].start && !choices[j].end && !choices[j].gatherCancelled && !choices[j].gatherFails
    requires forall j :: 0 <= j < i ==> Runs(steps[j], conv, choices[j]) == NotApplicable
    ensures match Runs(steps[i], conv, choices[i])
            case NotApplicable => true
            case Did(ms, toClient) => StepFrom(steps, choices, conv, 0) == Applied(ms, toClient)
            case Err => StepFrom(steps, choices, conv, 0) == StepFailed
  {
    hide RunTools, Infer, Applies, Runs;
    forall j | 0 <= j < i ensures Passes(steps[j], conv, choices[j]) {}
    AllPassOver(steps, choices, conv, i);
    RunsExact(conv, choices[i]);
  }

  lemma RunsExact(conv: seq<Message>, c: Choice)
    ensures Runs(Tools, conv, c) == RunTools(conv, c)
    ensures Runs(Inference, conv, c) == if Applies(conv) then Infer(conv, c) else NotApplicable
  {}

  /** A round of tools, lifted to the step: the message it appends answers exactly the
      calls that were taken up, each with its own result. */
  lemma StepAnswersCalls(steps: seq<Kind>, r: Round, i: nat)
    requires i < |steps| == |r.choices| && Reaches(steps, r, i) && steps[i] == Tools && !r.choices[i].start
    requires Kickoff(r.conv).Some? && !r.choices[i].selectCancelled && r.choices[i].available.Some?
    requires var rs := Payable(r.conv, r.choices[i].available.value); 0 < |rs| <= |r.choices[i].calls|
    ensures var c := r.choices[i];
            var rs := Payable(r.conv, c.available.value);
            OutcomeOf(steps, r) == Applied([FromUs(Results(rs, c.calls))], c.end)
  {
    hide Payable, RunTools, Results, Debts;
    var c := r.choices[i];
    PayableIsOwed(r.conv, c.available.value);
    ToolRoundExact(r.conv, c);
  }

  lemma PayableIsOwed(conv: seq<Message>, names: set<string>)
    requires Kickoff(conv).Some? && Payable(conv, names) != []
    ensures Debts(conv) != []
  {
    var b := Payable(conv, names)[0];
    assert b in Debts(conv);
  }

  /** Over a run: whatever round dispatches an id and lets its tool finish, the next
      conversation ends in a message with that tool's own result for it. */
  lemma RunAnswersWithResult(steps: seq<Kind>, rounds: seq<Round>, j: nat, i: nat, k: nat)
    requires IsRun(steps, rounds) && j + 1 < |rounds|
    requires i < |steps| && Reaches(steps, rounds[j], i) && steps[i] == Tools
    requires var c := rounds[j].choices[i];
             && !c.start && !c.selectCancelled && c.available.Some? && Kickoff(rounds[j].conv).Some?
             && var rs := Payable(rounds[j].conv, c.available.value);
                && k < |rs| <= |c.calls| && rs[k].call.Call? && Clear(c.calls, k) && !c.calls[k].interrupted
    ensures var c := rounds[j].choices[i];
            var rs := Payable(rounds[j].conv, c.available.value);
            var next := rounds[j + 1].conv;
            && |next| == |rounds[j].conv| + 1 && next[..|next| - 1] == rounds[j].conv
            && |next[|next| - 1].content| == |rs|
            && next[|next| - 1].content[k] == ToolResponse(rs[k].id, c.calls[k].result)
  {
    hide Payable, Coherent, StepFrom;
    assert Follows(steps, rounds[j], rounds[j + 1]);
    StepAnswersCalls(steps, rounds[j], i);
  }
}
