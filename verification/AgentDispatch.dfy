/** No id is dispatched twice: when that holds of a whole run, and a run in which it
    does not (tool.rs, inference.rs, machine.rs). */
module AgentDispatch {
  import opened Common
  import opened Messages
  import opened AgentTurn
  import opened AgentTools
  import opened AgentInference
  import opened AgentMachine

  // ---- What one step appends asks for no id twice ----

  lemma {:induction false} ResponsesAskNothing(bs: seq<Block>)
    requires forall i :: 0 <= i < |bs| ==> !bs[i].ToolRequest?
    ensures Requests(bs) == []
  {
    if bs != [] { ResponsesAskNothing(bs[..|bs| - 1]); }
  }

  lemma QuietMessage(m: Message)
    requires forall i :: 0 <= i < |m.content| ==> !m.content[i].ToolRequest?
    ensures RequestsOf([m]) == []
  {
    hide Requests, RequestsOf;
    OneMessageViews(m);
    ResponsesAskNothing(m.content);
  }

  lemma ToolsAskNothing(conv: seq<Message>, c: Choice)
    requires RunTools(conv, c).Did?
    ensures RequestsOf(RunTools(conv, c).messages) == []
  {
    hide RequestsOf, Pending, Available, Turn, Noticed;
    var m := RunTools(conv, c).messages[0];
    PendingToolRequests(Turn(conv));
    if !c.selectCancelled { PendingAreRequests(conv, c.available.value); }
    QuietMessage(m);
  }

  lemma PendingToolRequests(turn: seq<Message>)
    ensures forall i :: 0 <= i < |Pending(turn)| ==> Pending(turn)[i].ToolRequest?
  {}

  lemma CancellationAsksNothing(turn: seq<Message>, acc: seq<Message>)
    ensures CancellationResponse(turn, acc).Some? ==> RequestsOf([CancellationResponse(turn, acc).value]) == []
  {
    hide RequestsOf, Missing, AnswersOf;
    if CancellationResponse(turn, acc).Some? { QuietMessage(CancellationResponse(turn, acc).value); }
  }

  lemma AskedOnce(rs: seq<Block>, ids: set<string>)
    requires AsksOnce(rs, ids)
    ensures DistinctIds(rs)
  {}

  lemma AsksNothingMore(acc: seq<Message>, m: Message)
    requires DistinctIds(RequestsOf(acc)) && RequestsOf([m]) == []
    ensures DistinctIds(RequestsOf(acc + [m]))
  {
    hide RequestsOf, DistinctIds;
    ConcatViews(acc, [m]);
    assert RequestsOf(acc) + [] == RequestsOf(acc);
  }

  lemma NothingDistinct()
    ensures DistinctIds([])
  {}

  lemma InferAsksOnce(conv: seq<Message>, c: Choice)
    requires Infer(conv, c).Did?
    ensures DistinctIds(RequestsOf(Infer(conv, c).messages))
  {
    hide RequestsOf, DistinctIds, CancellationResponse, Gather, IsEmptyAnswer, AsksOnce, Applies, Turn;
    NothingDistinct();
    match c.provider
    case NoStream(e) => QuietMessage(ErrorMessage(e));
    case Streamed(chunks, ending) =>
      var a := Gather(chunks, c.inference);
      GatheredRequestsDistinct(chunks, c.inference);
      AskedOnce(RequestsOf(a.messages), a.ids);
      QuietMessage(EMPTY_RESPONSE);
      CancellationAsksNothing(Turn(conv), a.messages);
      if ending.Broken? {
        QuietMessage(ErrorMessage(ending.error));
        AsksNothingMore(a.messages, ErrorMessage(ending.error));
      }
      var r := CancellationResponse(Turn(conv), a.messages);
      if r.Some? { AsksNothingMore(a.messages, r.value); }
  }

  lemma {:induction false} StepsAskOnce(steps: seq<Kind>, choices: seq<Choice>, conv: seq<Message>, i: nat)
    requires i <= |steps| == |choices|
    ensures var o := StepFrom(steps, choices, conv, i); o.Applied? ==> DistinctIds(RequestsOf(o.messages))
    decreases |steps| - i
  {
    hide Applies, RunTools, Infer, CancellationResponse, RequestsOf, DistinctIds;
    if i < |steps| {
      StepsAskOnce(steps, choices, conv, i + 1);
      var c := choices[i];
      NothingDistinct();
      if RunTools(conv, c).Did? { ToolsAskNothing(conv, c); }
      if Infer(conv, c).Did? { InferAsksOnce(conv, c); }
      if Kickoff(conv).Some? { CancellationAsksNothing(Turn(conv), []); }
    }
  }

  // ---- Pending ids stay distinct unless a pending one is asked for again ----

  /** Among `more` is a request that stays pending and repeats a pending id. */
  ghost predicate Repeats(turn: seq<Message>, more: seq<Message>) {
    exists a, b :: a in Pending(turn) && b in RequestsOf(more)
                   && IsPending(b, AnswersOf(turn + more)) && a.ToolRequest? && a.id == b.id
  }

  lemma DistinctConcat(x: seq<Block>, y: seq<Block>)
    requires DistinctIds(x) && DistinctIds(y)
    requires forall i :: 0 <= i < |x| ==> x[i].ToolRequest?
    requires forall i :: 0 <= i < |y| ==> y[i].ToolRequest?
    ensures DistinctIds(x + y) <==> forall i, j :: 0 <= i < |x| && 0 <= j < |y| ==> x[i].id != y[j].id
  {
    var s := x + y;
    if DistinctIds(s) {
      forall i, j | 0 <= i < |x| && 0 <= j < |y| ensures x[i].id != y[j].id {
        assert s[i] == x[i] && s[|x| + j] == y[j];
      }
    }
  }

  /** What is pending after `more`: what was and still is, and what is new. */
  lemma PendingAfter(turn: seq<Message>, more: seq<Message>)
    ensures var p := (b: Block) => IsPending(b, AnswersOf(turn + more));
            Pending(turn + more) == Filter(Pending(turn), p) + Filter(RequestsOf(more), p)
  {
    hide RequestsOf, AnswersOf;
    ConcatViews(turn, more);
    var answered, all := AnswersOf(turn), AnswersOf(turn + more);
    var p, q := (b: Block) => IsPending(b, all), (b: Block) => IsPending(b, answered);
    FilterConcat(RequestsOf(turn), RequestsOf(more), p);
    FilterTwice(RequestsOf(turn), p, q);
  }

  lemma PendingDistinctExactly(turn: seq<Message>, more: seq<Message>)
    requires DistinctIds(Pending(turn)) && DistinctIds(RequestsOf(more))
    ensures DistinctIds(Pending(turn + more)) <==> !Repeats(turn, more)
  {
    hide RequestsOf, AnswersOf, Pending, DistinctIds;
    var answered := AnswersOf(turn + more);
    var p := (b: Block) => IsPending(b, answered);
    var x, y := Filter(Pending(turn), p), Filter(RequestsOf(more), p);
    PendingAfter(turn, more);
    FilterKeepsDistinct(Pending(turn), p);
    FilterKeepsDistinct(RequestsOf(more), p);
    DistinctConcat(x, y);
    if Repeats(turn, more) {
      var a, b :| a in Pending(turn) && b in RequestsOf(more)
                  && IsPending(b, answered) && a.ToolRequest? && a.id == b.id;
      StillPending(turn, more, a);
      assert a in x && b in y;
    }
    if i, j :| 0 <= i < |x| && 0 <= j < |y| && x[i].id == y[j].id {
      assert x[i] in Pending(turn) && y[j] in RequestsOf(more) && IsPending(y[j], answered);
    }
  }

  lemma StillPending(turn: seq<Message>, more: seq<Message>, a: Block)
    requires a in Pending(turn) && a.ToolRequest? && a.id !in AnswersOf(turn + more)
    ensures IsPending(a, AnswersOf(turn + more))
  {
    hide RequestsOf, AnswersOf;
  }

  ghost predicate PendingDistinct(conv: seq<Message>) {
    Kickoff(conv).Some? ==> DistinctIds(Pending(Turn(conv)))
  }

  /** Round `r` asks again for an id that is pending. */
  ghost predicate AsksAgain(steps: seq<Kind>, r: Round)
    requires |steps| == |r.choices|
  {
    var o := OutcomeOf(steps, r);
    o.Applied? && Kickoff(r.conv).Some? && Repeats(Turn(r.conv), o.messages)
  }

  lemma StepKeepsDistinct(steps: seq<Kind>, r: Round, next: Round)
    requires |steps| == |r.choices| && Coherent(r) && Follows(steps, r, next) && PendingDistinct(r.conv)
    ensures PendingDistinct(next.conv) <==> !AsksAgain(steps, r)
  {
    hide StepFrom, NoKickoff, Kickoff, FromAssistant, Turn, Repeats, DistinctIds, Pending;
    var o := OutcomeOf(steps, r);
    StepsStartNoTurn(steps, r.choices, r.conv, 0);
    StepsAskOnce(steps, r.choices, r.conv, 0);
    TurnGrows(r.conv, o.messages);
    PendingDistinctExactly(Turn(r.conv), o.messages);
  }

  /** Over a whole run the pending ids are distinct in every round if and only if
      they are in the first one and no round asks again for a pending id. */
  lemma {:induction false} RunKeepsPendingDistinct(steps: seq<Kind>, rounds: seq<Round>, j: nat)
    requires IsRun(steps, rounds) && j < |rounds|
    ensures (forall i :: 0 <= i <= j ==> PendingDistinct(rounds[i].conv))
       <==> PendingDistinct(rounds[0].conv) && forall i :: 0 <= i < j ==> !AsksAgain(steps, rounds[i])
    decreases j
  {
    hide PendingDistinct, AsksAgain, Coherent;
    if j > 0 {
      RunKeepsPendingDistinct(steps, rounds, j - 1);
      assert Follows(steps, rounds[j - 1], rounds[j]);
      if PendingDistinct(rounds[j - 1].conv) { StepKeepsDistinct(steps, rounds[j - 1], rounds[j]); }
    }
  }

  /** So in a run that begins with distinct pending ids and never asks again for a
      pending one, no round dispatches an id twice. */
  lemma RunDispatchesOnce(steps: seq<Kind>, rounds: seq<Round>, j: nat, names: set<string>, k: nat, m: nat)
    requires IsRun(steps, rounds) && j < |rounds| && Kickoff(rounds[j].conv).Some?
    requires PendingDistinct(rounds[0].conv) && forall i :: 0 <= i < j ==> !AsksAgain(steps, rounds[i])
    requires k < m < |Available(Pending(Turn(rounds[j].conv)), names)|
    ensures var rs := Available(Pending(Turn(rounds[j].conv)), names);
            rs[k].ToolRequest? && rs[m].ToolRequest? && rs[k].id != rs[m].id
  {
    hide IsRun, AsksAgain;
    RunKeepsPendingDistinct(steps, rounds, j);
    assert PendingDistinct(rounds[j].conv);
    DispatchedOncePerRound(rounds[j].conv, names, k, m);
  }

  /** A turn that owes no answer is never asked again. */
  lemma NothingPendingNothingRepeated(turn: seq<Message>, more: seq<Message>)
    requires Pending(turn) == []
    ensures !Repeats(turn, more)
  {}

  // ---- A run that asks again ----

  const GO := Message(None, User, [Text("go", Annotations(None, 0))], DEFAULT_METADATA)
  const A := ToolRequest("a", Call("ta", 0), false)
  const B := ToolRequest("b", Call("tb", 0), false)
  const DONE := CallChoice(false, false, Ok([]))
  const FIRST := Message(None, Assistant, [A, B], DEFAULT_METADATA)
  const ANSWERED := Message(None, User, [ToolResponse("a", Ok([]))], DEFAULT_METADATA)
  const CHUNK := Message(None, Assistant, [B], DEFAULT_METADATA)
  const AGAIN := Message(None, Assistant, [B], DEFAULT_METADATA.(inference := Some(0)))

  /** Tools under these names, and a provider that asks for `b`. */
  function Free(names: set<string>): Choice {
    Choice(false, false, false, Some(names), [DONE, DONE], false, false, Streamed([CHUNK], Ended), 0, false)
  }

  function RoundOf(conv: seq<Message>, names: set<string>): Round {
    Round(conv, false, [Free(names), Free(names)], false)
  }

  lemma GoStarts()
    ensures Kickoff([GO]) == Some(0) && Turn([GO]) == [GO]
    ensures RequestsOf([GO]) == [] && AnswersOf([GO]) == {}
  {
    hide RequestsOf, AnswersOf;
    OneMessageViews(GO);
    assert GO.content[..0] == [] && Requests([]) == [] && Answers([]) == {};
  }

  /** The turn that `GO` starts, its requests and its answers. */
  lemma TurnOf(more: seq<Message>)
    requires NoKickoff(more)
    ensures var conv := [GO] + more;
            && Kickoff(conv) == Some(0) && Turn(conv) == conv
            && RequestsOf(conv) == RequestsOf(more) && AnswersOf(conv) == AnswersOf(more)
  {
    hide RequestsOf, AnswersOf, Kickoff;
    GoStarts();
    TurnGrows([GO], more);
    ConcatViews([GO], more);
    assert [] + RequestsOf(more) == RequestsOf(more);
  }

  lemma FirstViews()
    ensures RequestsOf([FIRST]) == [A, B] && AnswersOf([FIRST]) == {} && NoKickoff([FIRST])
  {
    hide RequestsOf, AnswersOf;
    OneMessageViews(FIRST);
    var c := FIRST.content;
    assert c[..1] == [A] && [A][..0] == [];
    assert Requests([]) == [] && Answers([]) == {};
    assert Requests([A]) == [A] && Answers([A]) == {};
  }

  lemma AnsweredViews()
    ensures RequestsOf([ANSWERED]) == [] && AnswersOf([ANSWERED]) == {"a"} && NoKickoff([ANSWERED])
  {
    hide RequestsOf, AnswersOf;
    OneMessageViews(ANSWERED);
    var c := ANSWERED.content;
    assert c[..0] == [] && Requests([]) == [] && Answers([]) == {};
    assert c[0].ToolResponse?;
  }

  lemma AgainViews()
    ensures RequestsOf([AGAIN]) == [B] && AnswersOf([AGAIN]) == {} && NoKickoff([AGAIN])
  {
    hide RequestsOf, AnswersOf;
    OneMessageViews(AGAIN);
    assert AGAIN.content[..0] == [] && Requests([]) == [] && Answers([]) == {};
  }

  /** The three conversations of the run, and what is pending in each. */
  lemma ThreeTurns()
    ensures var c0, c1, c2 := [GO, FIRST], [GO, FIRST, ANSWERED], [GO, FIRST, ANSWERED, AGAIN];
            && Kickoff(c0) == Some(0) && Turn(c0) == c0 && Pending(c0) == [A, B]
            && Kickoff(c1) == Some(0) && Turn(c1) == c1 && Pending(c1) == [B]
            && Kickoff(c2) == Some(0) && Turn(c2) == c2 && Pending(c2) == [B, B]
  {
    hide RequestsOf, AnswersOf, Kickoff, Turn, Pending;
    FirstViews();
    AnsweredViews();
    AgainViews();
    TurnOf([FIRST]);
    assert [GO] + [FIRST] == [GO, FIRST];
    var m1 := [FIRST] + [ANSWERED];
    ConcatViews([FIRST], [ANSWERED]);
    TurnOf(m1);
    assert [GO] + m1 == [GO, FIRST, ANSWERED];
    ConcatViews(m1, [AGAIN]);
    TurnOf(m1 + [AGAIN]);
    assert [GO] + (m1 + [AGAIN]) == [GO, FIRST, ANSWERED, AGAIN];
    assert [A, B] + [] == [A, B] && [A, B] + [B] == [A, B, B];
    PendingOf([GO, FIRST], {}, [A, B], [A, B]);
    PendingOf([GO, FIRST, ANSWERED], {"a"}, [A, B], [B]);
    PendingOf([GO, FIRST, ANSWERED, AGAIN], {"a"}, [A, B, B], [B, B]);
  }

  lemma PendingOf(turn: seq<Message>, answered: set<string>, rs: seq<Block>, pending: seq<Block>)
    requires RequestsOf(turn) == rs && AnswersOf(turn) == answered
    requires rs == [A, B] || rs == [A, B, B]
    requires pending == (if "a" in answered then [] else [A]) + rs[1..] && "b" !in answered
    ensures Pending(turn) == pending
  {
    hide RequestsOf, AnswersOf, Filter;
    var p := (b: Block) => IsPending(b, answered);
    FilterTwo(A, B, p);
    FilterTwo(B, B, p);
    FilterOne(A, p);
    FilterConcat([A], [B, B], p);
    assert [A] + [B, B] == [A, B, B];
  }

  lemma FilterTwo(x: Block, y: Block, p: Block -> bool)
    ensures Filter([x, y], p) == (if p(x) then [x] else []) + if p(y) then [y] else []
  {
    hide Filter;
    assert [x, y] == [x] + [y];
    FilterOne(x, p);
    FilterOne(y, p);
    FilterConcat([x], [y], p);
  }

  lemma FirstRound()
    ensures OutcomeOf([Tools, Inference], RoundOf([GO, FIRST], {"ta"})) == Applied([ANSWERED], false)
  {
    hide Kickoff, Turn, Pending, Infer, Applies;
    ThreeTurns();
    var conv, c := [GO, FIRST], Free({"ta"});
    FilterTwo(A, B, b => IsAvailable(b, {"ta"}));
    var rs := Available([A, B], {"ta"});
    assert rs == [A];
    var replies := CallReplies(rs, c.calls);
    assert replies == ANSWERED.content;
    assert RunTools(conv, c) == Did([ANSWERED], false);
  }

  lemma ProviderAsksAgain()
    ensures Gather([CHUNK], 0).messages == [AGAIN]
  {
    assert [CHUNK][..0] == [] && Gather([], 0) == Acc([], {});
    assert [B][..0] == [] && RetainNew([], {}) == Kept([], {});
    assert RetainNew([B], {}) == Kept([B], {"b"});
    var m := AGAIN;
    DroppedNothing(m);
  }

  lemma DroppedNothing(m: Message)
    requires m == AGAIN
    ensures DropRepeats([], m) == m
  {
    var p := (b: Block) => !(IsThinking(b) && ThoughtBefore([], m.role, b));
    FilterOne(B, p);
    assert m.content == [B];
  }

  lemma AnswerIsSeen(conv: seq<Message>)
    requires conv == [GO, FIRST, ANSWERED]
    ensures LastSeen(conv, 0, 3) == Some(ANSWERED)
  {
    hide Filter, AnswersOf;
    var answered := AnswersOf(conv);
    var r := ANSWERED.content[0];
    FilterOne(r, b => Shown(b, true, answered));
    assert ANSWERED.content == [r];
    assert ProviderView(conv, 0, 2) == [r];
  }

  lemma AnswerIsTool()
    ensures EffectiveRoleOf(ANSWERED) == ToolRole && !HasError(ANSWERED)
  {
    assert ANSWERED.content[0].ToolResponse?;
  }

  lemma ProviderIsAsked()
    ensures Applies([GO, FIRST, ANSWERED])
  {
    hide Kickoff, LastSeen, HasError, EffectiveRoleOf, Turn, Pending;
    ThreeTurns();
    AnswerIsSeen([GO, FIRST, ANSWERED]);
    AnswerIsTool();
  }

  /** An answer that ends by itself and is not empty is appended as gathered. */
  lemma InferGathers(conv: seq<Message>, c: Choice, acc: seq<Message>)
    requires Kickoff(conv).Some? && Applies(conv)
    requires c.provider.Streamed? && c.provider.ending == Ended && !c.lateCancel
    requires acc == Gather(c.provider.chunks, c.inference).messages && acc != [] && !IsEmptyResponse(acc[0])
    ensures Infer(conv, c) == Did(acc, false)
  {
    hide Kickoff, Applies, Gather, IsEmptyAnswer, Turn, IsEmptyResponse;
    SomethingSaid(acc);
  }

  lemma SomethingSaid(acc: seq<Message>)
    requires acc != [] && !IsEmptyResponse(acc[0])
    ensures !IsEmptyAnswer(acc)
  {
    hide IsEmptyResponse;
  }

  lemma AgainIsNotEmpty()
    ensures !IsEmptyResponse(AGAIN)
  {
    assert AGAIN.content[0] == B;
  }

  lemma SecondRound()
    ensures OutcomeOf([Tools, Inference], RoundOf([GO, FIRST, ANSWERED], {})) == Applied([AGAIN], false)
  {
    hide Kickoff, Turn, Pending, Applies, Gather;
    ThreeTurns();
    ProviderIsAsked();
    ProviderAsksAgain();
    var conv, c := [GO, FIRST, ANSWERED], Free({});
    FilterOne(B, b => IsAvailable(b, {}));
    assert RunTools(conv, c) == NotApplicable;
    AgainIsNotEmpty();
    InferGathers(conv, c, [AGAIN]);
    var steps, choices := [Tools, Inference], [c, c];
    assert StepFrom(steps, choices, conv, 1) == Applied([AGAIN], false);
  }

  /** The tool of `b` is not available at first; the provider asks for `b` again, and
      when the tool is there, both requests are dispatched in one round. */
  lemma PendingIdAskedAgain() returns (rounds: seq<Round>)
    ensures IsRun([Tools, Inference], rounds) && |rounds| == 3
    ensures PendingDistinct(rounds[0].conv) && AsksAgain([Tools, Inference], rounds[1])
    ensures var r := rounds[2];
            && Kickoff(r.conv).Some? && r.choices[0].available.Some?
            && var rs := Available(Pending(Turn(r.conv)), r.choices[0].available.value);
               && |rs| == 2 <= |r.choices[0].calls| && rs[0] == rs[1] == B
               && IsDispatched(rs, r.choices[0].calls, 0) && IsDispatched(rs, r.choices[0].calls, 1)
  {
    hide IsRun, Kickoff, Turn, Pending, Repeats, IsDispatched, StepFrom, Available, DistinctIds;
    var c0, c1, c2 := [GO, FIRST], [GO, FIRST, ANSWERED], [GO, FIRST, ANSWERED, AGAIN];
    rounds := [RoundOf(c0, {"ta"}), RoundOf(c1, {}), RoundOf(c2, {"tb"})];
    ThreeTurns();
    ThreeRounds(rounds);
    TwoIds();
    SecondRound();
    PendingRepeats();
    BothAvailable();
    BothDispatched();
  }

  lemma ThreeRounds(rounds: seq<Round>)
    requires rounds == [RoundOf([GO, FIRST], {"ta"}), RoundOf([GO, FIRST, ANSWERED], {}),
                        RoundOf([GO, FIRST, ANSWERED, AGAIN], {"tb"})]
    ensures IsRun([Tools, Inference], rounds)
  {
    hide StepFrom;
    FirstRound();
    SecondRound();
    var c0, c1, c2 := [GO, FIRST], [GO, FIRST, ANSWERED], [GO, FIRST, ANSWERED, AGAIN];
    assert c1 == c0 + [ANSWERED] && c2 == c1 + [AGAIN];
    assert Follows([Tools, Inference], rounds[0], rounds[1]);
    assert Follows([Tools, Inference], rounds[1], rounds[2]);
  }

  lemma TwoIds()
    ensures DistinctIds([A, B])
  {}

  lemma BothAvailable()
    ensures Available([B, B], {"tb"}) == [B, B]
  {
    hide Filter;
    FilterTwo(B, B, b => IsAvailable(b, {"tb"}));
  }

  lemma BothDispatched()
    ensures IsDispatched([B, B], [DONE, DONE], 0) && IsDispatched([B, B], [DONE, DONE], 1)
  {}

  lemma PendingRepeats()
    ensures Repeats([GO, FIRST, ANSWERED], [AGAIN])
  {
    hide RequestsOf, AnswersOf, Kickoff, Turn, Pending;
    ThreeTurns();
    AgainViews();
    var c1, c2 := [GO, FIRST, ANSWERED], [GO, FIRST, ANSWERED, AGAIN];
    assert c1 + [AGAIN] == c2;
    PendingMeansPending(c2);
    assert Pending(c2)[0] == B && IsPending(B, AnswersOf(c1 + [AGAIN]));
    assert B in Pending(c1) && B in RequestsOf([AGAIN]) && B.id == B.id;
  }

  lemma PendingMeansPending(turn: seq<Message>)
    ensures forall i :: 0 <= i < |Pending(turn)| ==> IsPending(Pending(turn)[i], AnswersOf(turn))
  {}
}
