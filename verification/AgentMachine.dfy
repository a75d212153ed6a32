/** The agent loop as a state machine: first-applicable-step scheduling, a cancel
    flag that may be set at any moment, and the duty to answer tool calls
    (machine.rs, operation.rs, tool.rs, inference.rs). What the outside world
    decides in a step (when it sees the flag, which tools exist, what they
    return, what the provider streams) is the step's choice. */
module AgentMachine {
  import opened Common
  import opened Messages
  import opened StreamMerge
  import opened AgentTurn
  import opened AgentTools
  import opened AgentInference

  // ---- One pass over the pipeline ----

  datatype Kind = Tools | Inference

  datatype Ending = Ended | Broken(error: nat) | Cancelled

  /** The provider's part: the stream could not be opened, or it delivered these
      chunks and then ended, broke off, or lost to the cancellation. */
  datatype Provider = NoStream(error: nat) | Streamed(chunks: seq<Message>, ending: Ending)

  /** `start` and `end`: the flag as the machine sees it before and after this
      operation. The rest applies to one kind of operation or the other. */
  datatype Choice = Choice(
    start: bool,
    end: bool,
    selectCancelled: bool,
    available: Option<set<string>>,
    calls: seq<CallChoice>,
    gatherCancelled: bool,
    gatherFails: bool,
    provider: Provider,
    inference: nat,
    lateCancel: bool)

  datatype OpResult = NotApplicable | Did(messages: seq<Message>, toClient: bool) | Err

  function RunTools(conv: seq<Message>, c: Choice): OpResult {
    if Kickoff(conv).None? then Err
    else
      var pending := Pending(Turn(conv));
      if pending == [] then NotApplicable
      else if c.selectCancelled then Did([UserMessage(Interrupts(pending))], false)
      else match c.available
        case None => Err
        case Some(names) =>
          var rs := Available(pending, names);
          if rs == [] then NotApplicable
          else if |c.calls| < |rs| then Err
          else Did([UserMessage(CallReplies(rs, c.calls))], false)
  }

  // ---- The inference operation ----

  /** The message made of a provider error. */
  function ErrorMessage(kind: nat): Message { Message(None, Assistant, [ErrorBlock(kind)], DEFAULT_METADATA) }

  /** Nothing in the answer says anything, and no limit explains why. */
  predicate IsEmptyAnswer(ms: seq<Message>) {
    && (forall i :: 0 <= i < |ms| ==> !ms[i].meta.outputTokenLimitReached)
    && (forall i :: 0 <= i < |ms| ==> IsEmptyResponse(ms[i]))
  }

  function Infer(conv: seq<Message>, c: Choice): OpResult {
    if Kickoff(conv).None? then Err
    else if !Applies(conv) then NotApplicable
    else match c.provider
    case NoStream(error) => Did([ErrorMessage(error)], false)
    case Streamed(chunks, ending) =>
      var acc := Gather(chunks, c.inference).messages;
      if ending.Broken? then Did(acc + [ErrorMessage(ending.error)], false)
      else
        var cancelled := ending == Cancelled;
        var response := if cancelled || c.lateCancel then CancellationResponse(Turn(conv), acc) else None;
        var out := if response.Some? then acc + [response.value] else acc;
        if !cancelled && IsEmptyAnswer(out) then Did([EMPTY_RESPONSE], true) else Did(out, false)
  }

  /** What an operation makes of its result once the flag is seen set. */
  function OnCancel(kind: Kind, conv: seq<Message>, r: OpResult): OpResult {
    if kind == Tools || r != NotApplicable then r
    else if Kickoff(conv).None? then Err
    else match CancellationResponse(Turn(conv), [])
      case None => NotApplicable
      case Some(m) => Did([m], false)
  }

  datatype Outcome = NoStep | Applied(messages: seq<Message>, toClient: bool) | StepFailed

  /** `StateMachine::step` from operation `i` on. */
  function StepFrom(steps: seq<Kind>, choices: seq<Choice>, conv: seq<Message>, i: nat): Outcome
    requires i <= |steps| == |choices|
    decreases |steps| - i
  {
    if i == |steps| then NoStep
    else
      var c := choices[i];
      if !c.start && steps[i] == Inference && !Applies(conv) then StepFrom(steps, choices, conv, i + 1)
      else if !c.start && steps[i] == Inference && c.gatherCancelled then NoStep
      else if !c.start && steps[i] == Inference && c.gatherFails then StepFailed
      else
        var ran := if c.start then NotApplicable else if steps[i] == Tools then RunTools(conv, c) else Infer(conv, c);
        var r := if c.end then OnCancel(steps[i], conv, ran) else ran;
        match r
        case NotApplicable => StepFrom(steps, choices, conv, i + 1)
        case Did(ms, toClient) => Applied(ms, toClient || c.end)
        case Err => StepFailed
  }

  method Step(steps: seq<Kind>, choices: seq<Choice>, conv: seq<Message>) returns (outcome: Outcome)
    requires |steps| == |choices|
    ensures outcome == StepFrom(steps, choices, conv, 0)
  {
    hide RunTools, Infer, Applies, OnCancel;
    var i := 0;
    while i < |steps|
      invariant 0 <= i <= |steps|
      invariant StepFrom(steps, choices, conv, 0) == StepFrom(steps, choices, conv, i)
    {
      var c := choices[i];
      var result := NotApplicable;
      if !c.start {
        match steps[i] {
          case Tools => result := RunTools(conv, c);
          case Inference =>
            if !Applies(conv) {
              i := i + 1;
              continue;
            }
            if c.gatherCancelled { return NoStep; }
            if c.gatherFails { return StepFailed; }
            result := Infer(conv, c);
        }
      }
      if c.end { result := OnCancel(steps[i], conv, result); }
      match result {
        case NotApplicable =>
        case Did(ms, toClient) => return Applied(ms, toClient || c.end);
        case Err => return StepFailed;
      }
      i := i + 1;
    }
    return NoStep;
  }

  lemma AppliesHasTurn(conv: seq<Message>)
    ensures Applies(conv) ==> Kickoff(conv).Some?
  {}

  // ---- Runs ----

  /** One round of `run`: the conversation loaded, the flag when the step begins
      and when its effects have been applied, and the choices in between. */
  datatype Round = Round(conv: seq<Message>, before: bool, choices: seq<Choice>, after: bool)

  /** The flag never goes back, and providers speak as the assistant. */
  predicate Coherent(r: Round) {
    && (forall i :: 0 <= i < |r.choices| ==>
          && (r.before ==> r.choices[i].start)
          && (r.choices[i].start ==> r.choices[i].end)
          && (r.choices[i].end ==> r.after))
    && (forall i, j :: 0 <= i < j < |r.choices| && r.choices[i].end ==> r.choices[j].start)
    && (r.before ==> r.after)
    && (forall i :: 0 <= i < |r.choices| ==> FromAssistant(r.choices[i].provider))
  }

  predicate AllAssistant(ms: seq<Message>) { forall i :: 0 <= i < |ms| ==> ms[i].role == Assistant }

  predicate FromAssistant(p: Provider) { p.Streamed? ==> AllAssistant(p.chunks) }

  function OutcomeOf(steps: seq<Kind>, r: Round): Outcome
    requires |steps| == |r.choices|
  {
    StepFrom(steps, r.choices, r.conv, 0)
  }

  /** `run`: as long as a step is applied and does not yield, its messages are
      appended and the next round begins. */
  ghost predicate IsRun(steps: seq<Kind>, rounds: seq<Round>) {
    && (forall i :: 0 <= i < |rounds| ==> |rounds[i].choices| == |steps| && Coherent(rounds[i]))
    && (forall i, j :: 0 <= i && j == i + 1 && j < |rounds| ==> Follows(steps, rounds[i], rounds[j]))
  }

  predicate Follows(steps: seq<Kind>, r: Round, next: Round)
    requires |steps| == |r.choices|
  {
    var o := OutcomeOf(steps, r);
    o.Applied? && !o.toClient && next.conv == r.conv + o.messages && next.before == r.after
  }

  // ---- Cancellation ----

  /** What a step does when the flag was set before it began. */
  ghost predicate CleanStop(steps: seq<Kind>, conv: seq<Message>, o: Outcome) {
    match o
    case StepFailed => Kickoff(conv).None?
    case NoStep => Inference in steps ==> Kickoff(conv).Some? && AllAnswered(Turn(conv))
    case Applied(ms, toClient) =>
      && toClient && Kickoff(conv).Some? && |ms| == 1
      && NoKickoff(ms) && AllAnswered(Turn(conv + ms))
      && Answers(ms[0].content) !! AnswersOf(Turn(conv))
      && |ms[0].content| == |Answers(ms[0].content)|
  }

  lemma CancelledInference(conv: seq<Message>)
    requires Kickoff(conv).Some?
    ensures var r := CancellationResponse(Turn(conv), []);
            match r
            case None => AllAnswered(Turn(conv))
            case Some(m) =>
              && NoKickoff([m]) && AllAnswered(Turn(conv + [m]))
              && Answers(m.content) !! AnswersOf(Turn(conv))
              && |m.content| == |Answers(m.content)|
  {
    hide AllAnswered;
    var t := Turn(conv);
    CancellationAnswersAll(t, []);
    assert t + [] == t;
    var r := CancellationResponse(t, []);
    if r.Some? { TurnGrows(conv, [r.value]); }
  }

  lemma {:induction false} CancelledStepStops(steps: seq<Kind>, choices: seq<Choice>, conv: seq<Message>, i: nat)
    requires i <= |steps| == |choices|
    requires forall k :: 0 <= k < |choices| ==> choices[k].start && choices[k].end
    requires Inference in steps[..i] ==> Kickoff(conv).Some? && AllAnswered(Turn(conv))
    ensures CleanStop(steps, conv, StepFrom(steps, choices, conv, i))
    decreases |steps| - i
  {
    hide CancellationResponse, AllAnswered;
    if i == |steps| {
      assert steps[..i] == steps;
    } else {
      assert steps[..i + 1] == steps[..i] + [steps[i]];
      if steps[i] == Tools {
        CancelledStepStops(steps, choices, conv, i + 1);
      } else if Kickoff(conv).Some? {
        CancelledInference(conv);
        if CancellationResponse(Turn(conv), []).None? {
          CancelledStepStops(steps, choices, conv, i + 1);
        }
      }
    }
  }

  /** If the flag is set before a step begins, that step is the last: the run stops
      with every tool request of the turn answered, each missing answer added
      exactly once. */
  lemma CancelBeforeStepStopsCleanly(steps: seq<Kind>, rounds: seq<Round>, i: nat)
    requires IsRun(steps, rounds) && i < |rounds| && rounds[i].before
    ensures i == |rounds| - 1
    ensures CleanStop(steps, rounds[i].conv, OutcomeOf(steps, rounds[i]))
  {
    hide AllAnswered;
    var r := rounds[i];
    assert Coherent(r);
    assert forall k :: 0 <= k < |r.choices| ==> r.choices[k].start && r.choices[k].end;
    assert steps[..0] == [];
    assert i + 1 < |rounds| ==> Follows(steps, rounds[i], rounds[i + 1]);
    CancelledStepStops(steps, r.choices, r.conv, 0);
  }

  /** At most two steps are applied once the flag is set: the one under way, if it
      did not see it any more, and the one that stops. */
  lemma AtMostTwoStepsAfterCancel(steps: seq<Kind>, rounds: seq<Round>, i: nat)
    requires IsRun(steps, rounds) && i < |rounds| && rounds[i].after
    ensures |rounds| <= i + 2
  {
    if i + 1 < |rounds| {
      assert Follows(steps, rounds[i], rounds[i + 1]);
      CancelBeforeStepStopsCleanly(steps, rounds, i + 1);
    }
  }

  // ---- Nothing is dispatched twice ----

  /** The requests of round `r` that reach a tool. */
  ghost predicate Dispatches(steps: seq<Kind>, r: Round, i: nat, id: string)
    requires |steps| == |r.choices|
  {
    && i < |steps| && steps[i] == Tools && !r.choices[i].start && Kickoff(r.conv).Some?
    && !r.choices[i].selectCancelled && r.choices[i].available.Some?
    && var rs := Available(Pending(Turn(r.conv)), r.choices[i].available.value);
       var calls := r.choices[i].calls;
       |rs| <= |calls| && exists k :: 0 <= k < |rs| && rs[k].id == id && IsDispatched(rs, calls, k)
  }

  /** A dispatched request stands in the turn, is not external, and has no answer. */
  lemma DispatchedIsUnanswered(steps: seq<Kind>, r: Round, i: nat, id: string)
    requires |steps| == |r.choices| && Dispatches(steps, r, i, id)
    ensures id !in AnswersOf(Turn(r.conv))
    ensures exists b :: b in RequestsOf(Turn(r.conv)) && b.id == id && !b.external
  {
    var pending := Pending(Turn(r.conv));
    var rs := Available(pending, r.choices[i].available.value);
    var k :| 0 <= k < |rs| && rs[k].id == id && IsDispatched(rs, r.choices[i].calls, k);
    var b := rs[k];
    assert b in pending;
    assert IsPending(b, AnswersOf(Turn(r.conv)));
    assert b in RequestsOf(Turn(r.conv));
  }

  lemma {:induction false} CallRepliesAnswer(rs: seq<Block>, calls: seq<CallChoice>, k: nat)
    requires |rs| <= |calls| && (forall i :: 0 <= i < |rs| ==> rs[i].ToolRequest?) && k < |rs|
    ensures rs[k].id in Answers(CallReplies(rs, calls))
    decreases |rs|
  {
    var n := |rs| - 1;
    assert CallReplies(rs, calls)[..n] == CallReplies(rs[..n], calls);
    if k < n { CallRepliesAnswer(rs[..n], calls, k); }
  }

  /** If operation `i` dispatches, and the step gets that far, the step is its
      answer: one message with a response to every dispatched id. */
  lemma DispatchIsAnswered(steps: seq<Kind>, r: Round, i: nat, id: string)
    requires |steps| == |r.choices| && Dispatches(steps, r, i, id)
    ensures var o := StepFrom(steps, r.choices, r.conv, i);
            o.Applied? && |o.messages| == 1 && id in Answers(o.messages[0].content)
  {
    hide Pending, Available, Turn, RunTools, Applies;
    var c := r.choices[i];
    PendingAreRequests(r.conv, c.available.value);
    var rs := Available(Pending(Turn(r.conv)), c.available.value);
    var k :| 0 <= k < |rs| && rs[k].id == id && IsDispatched(rs, c.calls, k);
    RunToolsReplies(r.conv, c, k);
  }

  lemma RunToolsReplies(conv: seq<Message>, c: Choice, k: nat)
    requires Kickoff(conv).Some? && !c.selectCancelled && c.available.Some?
    requires k < |Available(Pending(Turn(conv)), c.available.value)| <= |c.calls|
    ensures var r := RunTools(conv, c);
            && r.Did? && |r.messages| == 1
            && Available(Pending(Turn(conv)), c.available.value)[k].ToolRequest?
            && Available(Pending(Turn(conv)), c.available.value)[k].id in Answers(r.messages[0].content)
  {
    hide IsPending, IsAvailable, Turn;
    var pending := Pending(Turn(conv));
    var rs := Available(pending, c.available.value);
    assert rs[k] in pending;
    PendingAreRequests(conv, c.available.value);
    CallRepliesAnswer(rs, c.calls, k);
  }

  lemma PendingAreRequests(conv: seq<Message>, names: set<string>)
    requires Kickoff(conv).Some?
    ensures forall b :: b in Available(Pending(Turn(conv)), names) ==> b.ToolRequest?
  {}

  /** The step reaches operation `i`. */
  predicate Reaches(steps: seq<Kind>, r: Round, i: nat)
    requires i <= |steps| == |r.choices|
  {
    OutcomeOf(steps, r) == StepFrom(steps, r.choices, r.conv, i)
  }

  // ---- What steps append ----

  lemma {:induction false} GatheredAreAssistant(chunks: seq<Message>, inference: nat)
    requires AllAssistant(chunks)
    ensures AllAssistant(Gather(chunks, inference).messages)
  {
    hide RetainNew, Pushed, ThoughtBefore, IsThinking;
    if chunks != [] {
      var n := |chunks| - 1;
      GatheredAreAssistant(chunks[..n], inference);
      var a := Gather(chunks[..n], inference);
      var k := RetainNew(chunks[n].content, a.ids);
      var meta := if chunks[n].meta.inference.None?
                  then chunks[n].meta.(inference := Some(inference)) else chunks[n].meta;
      PushedIsAssistant(a.messages, DropRepeats(a.messages, chunks[n].(content := k.content, meta := meta)));
    }
  }

  lemma PushedIsAssistant(ms: seq<Message>, m: Message)
    requires AllAssistant(ms) && m.role == Assistant
    ensures AllAssistant(Pushed(ms, m))
  {
    hide ExtendContent, NoteFits, IsNote;
  }

  lemma AssistantsStartNoTurn(ms: seq<Message>)
    requires AllAssistant(ms)
    ensures NoKickoff(ms)
  {}

  lemma RepliesStartNoTurn(bs: seq<Block>)
    requires bs != [] && bs[0].ToolResponse?
    ensures NoKickoff([UserMessage(bs)])
  {}

  lemma ToolsStartNoTurn(conv: seq<Message>, c: Choice)
    requires RunTools(conv, c).Did?
    ensures NoKickoff(RunTools(conv, c).messages)
  {
    hide IsPending, IsAvailable, Filter, Turn;
    var pending := Pending(Turn(conv));
    if c.selectCancelled {
      RepliesStartNoTurn(Interrupts(pending));
    } else {
      var rs := Available(pending, c.available.value);
      PendingAreRequests(conv, c.available.value);
      RepliesStartNoTurn(CallReplies(rs, c.calls));
    }
  }

  lemma CancellationStartsNoTurn(turn: seq<Message>, pending: seq<Message>)
    ensures CancellationResponse(turn, pending).Some? ==> NoKickoff([CancellationResponse(turn, pending).value])
  {
    hide AllAnswered;
    CancellationAnswersAll(turn, pending);
  }

  lemma InferStartsNoTurn(conv: seq<Message>, c: Choice)
    requires Infer(conv, c).Did? && FromAssistant(c.provider)
    ensures NoKickoff(Infer(conv, c).messages)
  {
    hide IsKickoff, CancellationResponse, Gather, IsEmptyAnswer;
    match c.provider
    case NoStream(e) => AssistantsStartNoTurn([ErrorMessage(e)]);
    case Streamed(chunks, ending) =>
      GatheredAreAssistant(chunks, c.inference);
      var acc := Gather(chunks, c.inference).messages;
      AssistantsStartNoTurn(acc);
      if ending.Broken? { AssistantsStartNoTurn([ErrorMessage(ending.error)]); }
      CancellationStartsNoTurn(Turn(conv), acc);
      AssistantsStartNoTurn([EMPTY_RESPONSE]);
  }

  lemma {:induction false} StepsStartNoTurn(steps: seq<Kind>, choices: seq<Choice>, conv: seq<Message>, i: nat)
    requires i <= |steps| == |choices|
    requires forall k :: 0 <= k < |choices| ==> FromAssistant(choices[k].provider)
    ensures var o := StepFrom(steps, choices, conv, i);
            o.Applied? ==> NoKickoff(o.messages) && Kickoff(conv).Some?
    decreases |steps| - i
  {
    hide NoKickoff, Applies, RunTools, Infer, CancellationResponse, FromAssistant;
    if i < |steps| {
      StepsStartNoTurn(steps, choices, conv, i + 1);
      var c := choices[i];
      AppliesHasTurn(conv);
      if RunTools(conv, c).Did? {
        ToolsStartNoTurn(conv, c);
        ToolsHaveTurn(conv, c);
      }
      if Kickoff(conv).Some? {
        CancellationStartsNoTurn(Turn(conv), []);
        if Infer(conv, c).Did? { InferStartsNoTurn(conv, c); }
      }
    }
  }

  lemma ToolsHaveTurn(conv: seq<Message>, c: Choice)
    requires RunTools(conv, c).Did?
    ensures Kickoff(conv).Some?
  {}

  /** Within a run the turn only grows, and answers stay. */
  lemma {:induction false} TurnOnlyGrows(steps: seq<Kind>, rounds: seq<Round>, i: nat, j: nat)
    requires IsRun(steps, rounds) && i < j < |rounds|
    ensures Kickoff(rounds[i].conv).Some? && Kickoff(rounds[j].conv) == Kickoff(rounds[i].conv)
    ensures OutcomeOf(steps, rounds[i]).Applied?
    ensures AnswersOf(Turn(rounds[i].conv)) + AnswersOf(OutcomeOf(steps, rounds[i]).messages)
         <= AnswersOf(Turn(rounds[j].conv))
    decreases j
  {
    hide StepFrom, NoKickoff, Kickoff, AnswersOf, FromAssistant, Turn;
    var r := rounds[j - 1];
    var o := OutcomeOf(steps, r);
    assert Coherent(r);
    StepsStartNoTurn(steps, r.choices, r.conv, 0);
    assert Follows(steps, r, rounds[j]);
    TurnGrows(r.conv, o.messages);
    ConcatViews(Turn(r.conv), o.messages);
    if i < j - 1 { TurnOnlyGrows(steps, rounds, i, j - 1); }
  }

  /** No id is dispatched in two rounds of a run. */
  lemma NeverDispatchedTwice(steps: seq<Kind>, rounds: seq<Round>, i: nat, j: nat, a: nat, b: nat, id: string)
    requires IsRun(steps, rounds) && i < j < |rounds|
    requires Dispatches(steps, rounds[i], a, id) && Reaches(steps, rounds[i], a)
    ensures !Dispatches(steps, rounds[j], b, id)
  {
    hide Dispatches, StepFrom, AnswersOf, Turn;
    TurnOnlyGrows(steps, rounds, i, j);
    DispatchIsAnswered(steps, rounds[i], a, id);
    var o := OutcomeOf(steps, rounds[i]);
    assert o.messages == [o.messages[0]];
    OneMessageViews(o.messages[0]);
    if Dispatches(steps, rounds[j], b, id) {
      DispatchedIsUnanswered(steps, rounds[j], b, id);
      assert false;
    }
  }

  /** One pass over the pending requests dispatches no id twice if the pending
      ids are distinct. */
  lemma DispatchedOncePerRound(conv: seq<Message>, names: set<string>, k: nat, m: nat)
    requires Kickoff(conv).Some? && DistinctIds(Pending(Turn(conv)))
    requires k < m < |Available(Pending(Turn(conv)), names)|
    ensures var rs := Available(Pending(Turn(conv)), names);
            rs[k].ToolRequest? && rs[m].ToolRequest? && rs[k].id != rs[m].id
  {
    hide Pending, DistinctIds, IsAvailable;
    var rs := Available(Pending(Turn(conv)), names);
    PendingAreRequests(conv, names);
    assert rs[k] in rs && rs[m] in rs;
    FilterKeepsDistinct(Pending(Turn(conv)), b => IsAvailable(b, names));
    assert DistinctIds(rs);
    IdsDiffer(rs, k, m);
  }

  lemma IdsDiffer(rs: seq<Block>, k: nat, m: nat)
    requires DistinctIds(rs) && k < m < |rs| && rs[k].ToolRequest? && rs[m].ToolRequest?
    ensures rs[k].id != rs[m].id
  {}

  // ---- Cancellation inside an inference ----

  /** When the stream loses to the cancellation, what the step appends answers
      every request of the turn, the streamed ones included. */
  lemma CancelledStreamAnswersAll(conv: seq<Message>, c: Choice)
    requires Applies(conv) && c.provider.Streamed? && c.provider.ending == Cancelled
    requires FromAssistant(c.provider)
    ensures Infer(conv, c).Did? && Kickoff(conv + Infer(conv, c).messages).Some?
    ensures AllAnswered(Turn(conv + Infer(conv, c).messages))
  {
    hide IsKickoff, CancellationResponse, Gather, IsEmptyAnswer, AllAnswered, FromAssistant, Applies;
    AppliesHasTurn(conv);
    var acc := Gather(c.provider.chunks, c.inference).messages;
    var t := Turn(conv);
    var out := Infer(conv, c).messages;
    InferStartsNoTurn(conv, c);
    TurnGrows(conv, out);
    CancellationAnswersAll(t, acc);
    var r := CancellationResponse(t, acc);
    if r.Some? { assert t + acc + [r.value] == t + (acc + [r.value]); }
  }
}
