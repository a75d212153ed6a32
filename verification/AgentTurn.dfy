/** The current turn, its tool requests and their answers, and the response that
    answers cancelled calls (operation.rs, inference.rs). */
module AgentTurn {
  import opened Common
  import opened Messages

  // ---- The turn ----

  predicate IsKickoff(m: Message) { m.role == User && m.meta.userVisible && !HasToolResponse(m.content) }

  /** Where the current turn begins: the last message that starts one. */
  function Kickoff(ms: seq<Message>): (r: Option<nat>)
    ensures r.Some? ==> r.value < |ms| && IsKickoff(ms[r.value])
    ensures forall i :: (if r.Some? then r.value else -1) < i < |ms| ==> !IsKickoff(ms[i])
  {
    if ms == [] then None
    else if IsKickoff(ms[|ms| - 1]) then Some(|ms| - 1)
    else Kickoff(ms[..|ms| - 1])
  }

  function Turn(ms: seq<Message>): seq<Message>
    requires Kickoff(ms).Some?
  {
    ms[Kickoff(ms).value..]
  }

  predicate NoKickoff(ms: seq<Message>) { forall i :: 0 <= i < |ms| ==> !IsKickoff(ms[i]) }

  /** Appending messages that start no turn extends the turn. */
  lemma {:induction false} TurnGrows(ms: seq<Message>, more: seq<Message>)
    requires Kickoff(ms).Some? && NoKickoff(more)
    ensures Kickoff(ms + more) == Kickoff(ms) && Turn(ms + more) == Turn(ms) + more
  {
    hide IsKickoff;
    if more == [] {
      assert ms + more == ms;
    } else {
      var n := |more| - 1;
      TurnGrows(ms, more[..n]);
      assert (ms + more)[..|ms + more| - 1] == ms + more[..n];
      assert !IsKickoff(more[n]);
      assert Turn(ms) + more == (ms + more)[Kickoff(ms).value..];
    }
  }

  // ---- Requests and responses ----

  function Requests(bs: seq<Block>): (r: seq<Block>)
    ensures forall i :: 0 <= i < |r| ==> r[i].ToolRequest?
  {
    if bs == [] then []
    else Requests(bs[..|bs| - 1]) + if bs[|bs| - 1].ToolRequest? then [bs[|bs| - 1]] else []
  }

  function RequestsOf(ms: seq<Message>): (r: seq<Block>)
    ensures forall i :: 0 <= i < |r| ==> r[i].ToolRequest?
  {
    if ms == [] then [] else RequestsOf(ms[..|ms| - 1]) + Requests(ms[|ms| - 1].content)
  }

  function Answers(bs: seq<Block>): set<string> {
    if bs == [] then {}
    else Answers(bs[..|bs| - 1]) + if bs[|bs| - 1].ToolResponse? then {bs[|bs| - 1].id} else {}
  }

  function AnswersOf(ms: seq<Message>): set<string> {
    if ms == [] then {} else AnswersOf(ms[..|ms| - 1]) + Answers(ms[|ms| - 1].content)
  }

  lemma {:induction false} ConcatViews(a: seq<Message>, b: seq<Message>)
    ensures RequestsOf(a + b) == RequestsOf(a) + RequestsOf(b)
    ensures AnswersOf(a + b) == AnswersOf(a) + AnswersOf(b)
  {
    if b == [] {
      assert a + b == a;
    } else {
      assert (a + b)[..|a + b| - 1] == a + b[..|b| - 1];
      ConcatViews(a, b[..|b| - 1]);
    }
  }

  lemma OneMessageViews(m: Message)
    ensures RequestsOf([m]) == Requests(m.content) && AnswersOf([m]) == Answers(m.content)
  {
    assert [m][..0] == [];
    assert RequestsOf([]) == [] && AnswersOf([]) == {};
  }

  ghost predicate AllAnswered(ms: seq<Message>) {
    forall i :: 0 <= i < |RequestsOf(ms)| ==> RequestsOf(ms)[i].id in AnswersOf(ms)
  }

  // ---- The answer given to cancelled calls ----

  /** The ids that still need an answer: each once, in order of first request. */
  function Missing(reqs: seq<Block>, answered: set<string>): seq<string>
    requires forall i :: 0 <= i < |reqs| ==> reqs[i].ToolRequest?
  {
    if reqs == [] then []
    else
      var n := |reqs| - 1;
      var m := Missing(reqs[..n], answered);
      if reqs[n].id in m || reqs[n].id in answered then m else m + [reqs[n].id]
  }

  lemma {:induction false} MissingExact(reqs: seq<Block>, answered: set<string>)
    requires forall i :: 0 <= i < |reqs| ==> reqs[i].ToolRequest?
    ensures var m := Missing(reqs, answered);
            && NoDup(m)
            && (forall id :: id in m <==> id !in answered && exists i :: 0 <= i < |reqs| && reqs[i].id == id)
  {
    if reqs != [] {
      var n := |reqs| - 1;
      MissingExact(reqs[..n], answered);
      assert reqs == reqs[..n] + [reqs[n]];
      var a, m := Missing(reqs[..n], answered), Missing(reqs, answered);
      forall id ensures id in m <==> id !in answered && exists i :: 0 <= i < |reqs| && reqs[i].id == id {
        if id in a {
          var i :| 0 <= i < n && reqs[..n][i].id == id;
          assert reqs[i].id == id;
        }
        if id !in answered && exists i :: 0 <= i < |reqs| && reqs[i].id == id {
          var i :| 0 <= i < |reqs| && reqs[i].id == id;
          if i < n { assert reqs[..n][i].id == id; }
        }
      }
    }
  }

  const CANCELLED_RESULT := Ok([ResultText("Tool call was cancelled before execution")])
  const INTERRUPTED_RESULT := Ok([ResultText("Tool call was interrupted before completing")])

  function UserMessage(content: seq<Block>): Message { Message(None, User, content, DEFAULT_METADATA) }

  function Replies(ids: seq<string>): (r: seq<Block>)
    ensures |r| == |ids| && forall i :: 0 <= i < |r| ==> r[i] == ToolResponse(ids[i], CANCELLED_RESULT)
  {
    seq(|ids|, i requires 0 <= i < |ids| => ToolResponse(ids[i], CANCELLED_RESULT))
  }

  /** `cancellation_response`. */
  function CancellationResponse(persisted: seq<Message>, pending: seq<Message>): Option<Message> {
    var ids := Missing(RequestsOf(persisted + pending), AnswersOf(persisted + pending));
    if ids == [] then None else Some(UserMessage(Replies(ids)))
  }

  /** One more request is missing an answer exactly if neither it nor an earlier
      one with its id was answered or noted. */
  lemma MissingStep(reqs: seq<Block>, answered: set<string>, i: nat)
    requires i < |reqs| && forall k :: 0 <= k < |reqs| ==> reqs[k].ToolRequest?
    ensures var m := Missing(reqs[..i], answered);
            var id := reqs[i].id;
            Missing(reqs[..i + 1], answered)
            == if id in answered || (exists k :: 0 <= k < i && reqs[k].id == id) then m else m + [id]
  {
    var id := reqs[i].id;
    assert reqs[..i + 1][..i] == reqs[..i];
    MissingExact(reqs[..i], answered);
    assert forall k :: 0 <= k < i ==> reqs[..i][k] == reqs[k];
    if k :| 0 <= k < i && reqs[k].id == id { assert reqs[..i][k].id == id; }
  }

  lemma NothingMissing(reqs: seq<Block>, answered: set<string>)
    ensures Missing(reqs[..0], answered) == [] && Replies([]) == []
  {}

  method CancellationResponseLoop(persisted: seq<Message>, pending: seq<Message>) returns (r: Option<Message>)
    ensures r == CancellationResponse(persisted, pending)
  {
    hide Missing, RequestsOf, AnswersOf;
    var all := persisted + pending;
    var answered := AnswersOf(all);
    var requests := RequestsOf(all);
    ghost var given := answered;
    var requestIds: set<string> := {};
    var content: seq<Block> := [];
    ghost var ids: seq<string> := [];
    var i := 0;
    NothingMissing(requests, given);
    while i < |requests|
      invariant 0 <= i <= |requests|
      invariant ids == Missing(requests[..i], given) && content == Replies(ids)
      invariant forall id :: id in requestIds <==> exists k :: 0 <= k < i && requests[k].id == id
      invariant forall id :: id in answered <==> id in given && id !in requestIds
    {
      var id := requests[i].id;
      MissingStep(requests, given, i);
      if id in requestIds {
        var k :| 0 <= k < i && requests[k].id == id;
      }
      if id !in requestIds {
        requestIds := requestIds + {id};
        if id in answered {
          answered := answered - {id};
        } else {
          content := content + [ToolResponse(id, CANCELLED_RESULT)];
          ids := ids + [id];
        }
      }
      i := i + 1;
    }
    assert requests[..i] == requests;
    if content == [] { r := None; } else { r := Some(UserMessage(content)); }
  }

  lemma {:induction false} RepliesViews(ids: seq<string>)
    ensures Requests(Replies(ids)) == [] && Answers(Replies(ids)) == set id | id in ids
  {
    if ids != [] {
      var n := |ids| - 1;
      assert Replies(ids)[..n] == Replies(ids[..n]);
      RepliesViews(ids[..n]);
      assert ids == ids[..n] + [ids[n]];
    }
  }

  /** The response answers every request that had no answer, each exactly once,
      and nothing else; there is none exactly when nothing was missing. */
  lemma CancellationAnswersAll(turn: seq<Message>, pending: seq<Message>)
    ensures CancellationResponse(turn, pending) == None <==> AllAnswered(turn + pending)
    ensures CancellationResponse(turn, pending).Some? ==>
              var m := CancellationResponse(turn, pending).value;
              && AllAnswered(turn + pending + [m]) && !IsKickoff(m)
              && Answers(m.content) !! AnswersOf(turn + pending)
              && |m.content| == |Answers(m.content)|
  {
    var all := turn + pending;
    var ids := Missing(RequestsOf(all), AnswersOf(all));
    MissingExact(RequestsOf(all), AnswersOf(all));
    if ids == [] {
      forall i | 0 <= i < |RequestsOf(all)| ensures RequestsOf(all)[i].id in AnswersOf(all) {
        assert RequestsOf(all)[i].id !in ids;
      }
    } else {
      assert ids[0] in ids;
      var m := UserMessage(Replies(ids));
      RepliesViews(ids);
      OneMessageViews(m);
      ConcatViews(all, [m]);
      forall i | 0 <= i < |RequestsOf(all + [m])| ensures RequestsOf(all + [m])[i].id in AnswersOf(all + [m]) {
        assert RequestsOf(all + [m])[i] == RequestsOf(all)[i];
      }
      assert m.content[0].ToolResponse?;
      DistinctCount(ids);
    }
  }

  lemma {:induction false} DistinctCount(ids: seq<string>)
    requires NoDup(ids)
    ensures |set id | id in ids| == |ids|
  {
    if ids != [] {
      var n := |ids| - 1;
      DistinctCount(ids[..n]);
      assert ids == ids[..n] + [ids[n]];
      assert (set id | id in ids) == (set id | id in ids[..n]) + {ids[n]};
      assert ids[n] !in ids[..n];
    }
  }

  /** The blocks that satisfy `p`, in order. */
  function Filter(rs: seq<Block>, p: Block -> bool): (r: seq<Block>)
    ensures forall i :: 0 <= i < |r| ==> p(r[i]) && r[i] in rs
    ensures forall b :: b in rs && p(b) ==> b in r
  {
    if rs == [] then []
    else Filter(rs[..|rs| - 1], p) + if p(rs[|rs| - 1]) then [rs[|rs| - 1]] else []
  }
}
