/** Dropping tool responses from the middle outwards, to fit an oversized history
    into the summariser (summarize.rs). */
module MiddleOut {
  import opened Messages

  /** The positions of messages with a tool response, in order. */
  function ToolIndices(ms: seq<Message>): (r: seq<nat>)
    ensures forall i :: 0 <= i < |r| ==> r[i] < |ms| && HasToolResponse(ms[r[i]].content)
    ensures forall i, j :: 0 <= i < j < |r| ==> r[i] < r[j]
    ensures forall k :: 0 <= k < |ms| && HasToolResponse(ms[k].content) ==> k in r
  {
    hide HasToolResponse;
    if ms == [] then []
    else
      var n := |ms| - 1;
      var r := ToolIndices(ms[..n]);
      assert forall i :: 0 <= i < |r| ==> ms[..n][r[i]] == ms[r[i]];
      assert forall k :: 0 <= k < n ==> ms[..n][k] == ms[k];
      if HasToolResponse(ms[n].content) then r + [n] else r
  }

  /** How many of `n` responses go at `percent`: at least one. */
  function NumToRemove(n: nat, percent: nat): nat {
    var k := n * percent / 100;
    if k < 1 then 1 else k
  }

  function Min(a: nat, b: nat): nat { if a < b then a else b }

  /** The removed ordinals are those from `Low` to before `High`. */
  function Low(n: nat, k: nat): nat { n / 2 - Min(n / 2, (k + 1) / 2) }

  function High(n: nat, k: nat): nat { n / 2 + Min(n - n / 2, k / 2) }

  function Dropped(ms: seq<Message>, percent: nat): set<nat> {
    var tools := ToolIndices(ms);
    if percent == 0 || tools == [] then {}
    else
      var k := NumToRemove(|tools|, percent);
      Run(tools, Low(|tools|, k), High(|tools|, k))
  }

  /** The positions with ordinals from `lo` to before `hi`. */
  function Run(tools: seq<nat>, lo: nat, hi: nat): set<nat> {
    set o | lo <= o < hi && o < |tools| :: tools[o]
  }

  lemma RunWidens(tools: seq<nat>, lo: nat, hi: nat)
    requires lo <= hi
    ensures 0 < lo <= |tools| ==> Run(tools, lo - 1, hi) == Run(tools, lo, hi) + {tools[lo - 1]}
    ensures hi < |tools| ==> Run(tools, lo, hi + 1) == Run(tools, lo, hi) + {tools[hi]}
  {}

  /** The loop that picks positions from the middle outwards. */
  method PickFromMiddle(tools: seq<nat>, count: nat) returns (toRemove: set<nat>)
    ensures toRemove == Run(tools, Low(|tools|, count), High(|tools|, count))
  {
    hide Run;
    var n := |tools|;
    var middle := n / 2;
    toRemove := {};
    EmptyRun(tools, middle);
    var i := 0;
    while i < count
      invariant 0 <= i <= count
      invariant toRemove == Run(tools, Low(n, i), High(n, i))
    {
      var offset := i / 2;
      IntervalStep(n, i);
      RunWidens(tools, Low(n, i), High(n, i));
      if i % 2 == 0 {
        if middle > offset {
          toRemove := toRemove + {tools[middle - offset - 1]};
        }
      } else if middle + offset < n {
        toRemove := toRemove + {tools[middle + offset]};
      }
      i := i + 1;
    }
  }

  lemma EmptyRun(tools: seq<nat>, m: nat)
    ensures Run(tools, m, m) == {}
  {}

  /** The messages whose position is not dropped, in order. */
  function Without(ms: seq<Message>, dropped: set<nat>): seq<Message> {
    if ms == [] then []
    else Without(ms[..|ms| - 1], dropped) + if |ms| - 1 in dropped then [] else [ms[|ms| - 1]]
  }

  method FilterToolResponses(messages: seq<Message>, percent: nat) returns (kept: seq<Message>)
    ensures kept == Without(messages, Dropped(messages, percent))
  {
    hide Run, NumToRemove, Low, High;
    if percent == 0 {
      WithoutNothing(messages);
      return messages;
    }
    var tools := ToolIndices(messages);
    if tools == [] {
      WithoutNothing(messages);
      return messages;
    }
    var toRemove := PickFromMiddle(tools, NumToRemove(|tools|, percent));
    kept := [];
    var j := 0;
    while j < |messages|
      invariant 0 <= j <= |messages|
      invariant kept == Without(messages[..j], toRemove)
    {
      assert messages[..j + 1][..j] == messages[..j];
      if j !in toRemove { kept := kept + [messages[j]]; }
      j := j + 1;
    }
    assert messages[..j] == messages;
  }

  lemma {:induction false} WithoutNothing(ms: seq<Message>)
    ensures Without(ms, {}) == ms
  {
    if ms != [] {
      WithoutNothing(ms[..|ms| - 1]);
      assert ms == ms[..|ms| - 1] + [ms[|ms| - 1]];
    }
  }

  /** One round of the loop widens the interval by one ordinal, on the left in
      even rounds and on the right in odd ones, until that side is used up. */
  lemma IntervalStep(n: nat, i: nat)
    ensures var m := n / 2;
            if i % 2 == 0 then
              High(n, i + 1) == High(n, i)
              && Low(n, i + 1) == (if m > i / 2 then m - i / 2 - 1 else Low(n, i))
              && (m > i / 2 ==> Low(n, i) == m - i / 2)
            else
              Low(n, i + 1) == Low(n, i)
              && High(n, i + 1) == (if m + i / 2 < n then m + i / 2 + 1 else High(n, i))
              && (m + i / 2 < n ==> High(n, i) == m + i / 2)
  {}

  // ---- Properties ----

  /** Only tool-response messages are dropped, and they form one unbroken run of
      the tool-response messages around the middle one. */
  lemma DropsOneRunOfToolResponses(ms: seq<Message>, percent: nat, i: nat, j: nat, k: nat)
    requires i in Dropped(ms, percent) && k in Dropped(ms, percent) && i <= j <= k
    ensures HasToolResponse(ms[i].content)
    ensures j < |ms| && HasToolResponse(ms[j].content) ==> j in Dropped(ms, percent)
  {
    hide NumToRemove, Low, High, HasToolResponse, ToolIndices;
    var tools := ToolIndices(ms);
    var n := |tools|;
    var c := NumToRemove(n, percent);
    var a :| Low(n, c) <= a < High(n, c) && a < n && tools[a] == i;
    var b :| Low(n, c) <= b < High(n, c) && b < n && tools[b] == k;
    if j < |ms| && HasToolResponse(ms[j].content) {
      var o :| 0 <= o < n && tools[o] == j;
      OrdinalsFollowPositions(ms, a, o);
      OrdinalsFollowPositions(ms, o, b);
    }
  }

  lemma OrdinalsFollowPositions(ms: seq<Message>, a: nat, b: nat)
    requires a < |ToolIndices(ms)| && b < |ToolIndices(ms)| && ToolIndices(ms)[a] <= ToolIndices(ms)[b]
    ensures a <= b
  {}

  lemma {:induction false} MulMonotone(n: nat, p: nat, q: nat)
    requires p <= q
    ensures n * p <= n * q
  {
    assert n * q == n * p + n * (q - p);
  }

  lemma DivMonotone(a: nat, b: nat)
    requires a <= b
    ensures a / 100 <= b / 100
  {}

  /** A larger percentage drops everything a smaller one drops. */
  lemma DropsAreNested(ms: seq<Message>, p: nat, q: nat)
    requires p <= q
    ensures Dropped(ms, p) <= Dropped(ms, q)
  {
    var tools := ToolIndices(ms);
    var n := |tools|;
    if p > 0 && tools != [] {
      MulMonotone(n, p, q);
      DivMonotone(n * p, n * q);
      var k, l := NumToRemove(n, p), NumToRemove(n, q);
      assert Low(n, l) <= Low(n, k) && High(n, k) <= High(n, l);
      forall i | i in Dropped(ms, p) ensures i in Dropped(ms, q) {
        var o :| Low(n, k) <= o < High(n, k) && o < n && tools[o] == i;
        assert Low(n, l) <= o < High(n, l);
      }
    }
  }

  lemma FullRemoval(n: nat)
    requires n > 0
    ensures NumToRemove(n, 100) == n
    ensures Low(n, n) == 0 && High(n, n) == if n % 2 == 0 then n else n - 1
  {
    assert n * 100 / 100 == n;
  }

  /** At 100 percent no tool response stays when their number is even; when it is
      odd, exactly the newest one does. */
  lemma FullRemovalLeavesAtMostTheNewest(ms: seq<Message>, i: nat)
    requires i < |ms| && HasToolResponse(ms[i].content)
    ensures var tools := ToolIndices(ms);
            i !in Dropped(ms, 100) <==> |tools| % 2 == 1 && i == tools[|tools| - 1]
  {
    hide HasToolResponse, NumToRemove, Low, High, Run, ToolIndices;
    var tools := ToolIndices(ms);
    assert i in tools;
    FullRemoval(|tools|);
    FullRun(tools, i);
  }

  lemma FullRun(tools: seq<nat>, i: nat)
    requires (forall i, j :: 0 <= i < j < |tools| ==> tools[i] < tools[j]) && i in tools
    ensures var n := |tools|;
            i !in Run(tools, 0, High(n, n)) <==> n % 2 == 1 && i == tools[n - 1]
  {
    hide NumToRemove, Low, High, Run;
    var n := |tools|;
    var o :| 0 <= o < n && tools[o] == i;
    FullRemoval(n);
    RunMember(tools, 0, High(n, n), o);
    if o < n - 1 { assert tools[o] < tools[n - 1]; }
  }

  lemma RunMember(tools: seq<nat>, lo: nat, hi: nat, o: nat)
    requires (forall i, j :: 0 <= i < j < |tools| ==> tools[i] < tools[j]) && o < |tools|
    ensures tools[o] in Run(tools, lo, hi) <==> lo <= o < hi
  {
    assert forall a :: 0 <= a < |tools| && tools[a] == tools[o] ==> a == o;
  }

  lemma {:induction false} RunSize(tools: seq<nat>, lo: nat, hi: nat)
    requires (forall i, j :: 0 <= i < j < |tools| ==> tools[i] < tools[j]) && lo <= hi <= |tools|
    ensures |Run(tools, lo, hi)| == hi - lo
    decreases hi
  {
    hide Run;
    if lo == hi {
      EmptyRun(tools, lo);
    } else {
      RunSize(tools, lo, hi - 1);
      RunWidens(tools, lo, hi - 1);
      RunMember(tools, lo, hi - 1, hi - 1);
    }
  }

  /** Which tool responses go: with `k` the larger of one and that percentage of their
      number, those from half of `k`, rounded up, before the middle one to half of `k`,
      rounded down, from it on, as far as the list reaches. That is `k` of them unless
      `k` is their number and odd, or larger. */
  lemma DroppedExact(ms: seq<Message>, percent: nat)
    ensures percent == 0 || ToolIndices(ms) == [] ==> Dropped(ms, percent) == {}
    ensures percent > 0 && ToolIndices(ms) != [] ==>
              var tools := ToolIndices(ms);
              var n := |tools|;
              var k := if n * percent < 100 then 1 else n * percent / 100;
              && (forall o :: 0 <= o < n ==>
                    (tools[o] in Dropped(ms, percent) <==> n / 2 - (k + 1) / 2 <= o < n / 2 + k / 2))
              && |Dropped(ms, percent)| ==
                 if k < n || (k == n && n % 2 == 0) then k
                 else if n % 2 == 0 || k > n then n else n - 1
  {
    hide Run, ToolIndices;
    var tools := ToolIndices(ms);
    if percent > 0 && tools != [] {
      var n := |tools|;
      var k := NumToRemove(n, percent);
      RunSize(tools, Low(n, k), High(n, k));
      forall o | 0 <= o < n
        ensures tools[o] in Dropped(ms, percent) <==> n / 2 - (k + 1) / 2 <= o < n / 2 + k / 2
      {
        RunMember(tools, Low(n, k), High(n, k), o);
      }
    }
  }

  /** As soon as anything is to be removed, something is. */
  lemma SomethingIsDropped(ms: seq<Message>, percent: nat)
    requires percent > 0 && |ToolIndices(ms)| > 1
    ensures Dropped(ms, percent) != {}
  {
    var tools := ToolIndices(ms);
    var n := |tools|;
    var k := NumToRemove(n, percent);
    var o := n / 2 - 1;
    assert Low(n, k) <= o < High(n, k);
    assert tools[o] in Dropped(ms, percent);
  }

  // ---- The retries ----

  /** What the summariser answers: a summary, "context too long", or another error. */
  datatype Reply = Summary | TooLong | OtherError

  datatype SummaryResult = Summarised(attempt: nat) | NothingToRemove | StillTooLong | GaveUp(attempt: nat) | Exhausted

  /** Attempts before `n` all ran into the context limit. */
  predicate TooLongBefore(replies: seq<Reply>, n: nat) {
    n <= |replies| && forall k :: 0 <= k < n ==> replies[k] == TooLong
  }

  /** The attempt loop of `summarize`: a retry follows exactly the overflow of a
      history from which tool responses can be removed; the error after the loop
      is never reached. */
  method Summarize(messages: seq<Message>, replies: seq<Reply>) returns (r: SummaryResult)
    requires |replies| == |REMOVAL_PERCENTAGES|
    ensures r != Exhausted
    ensures forall a: nat :: r == Summarised(a) ==> a < |replies| && TooLongBefore(replies, a) && replies[a] == Summary
    ensures forall a: nat :: r == GaveUp(a) ==> a < |replies| && TooLongBefore(replies, a) && replies[a] == OtherError
    ensures r == NothingToRemove <==> ToolIndices(messages) == [] && replies[0] == TooLong
    ensures r == StillTooLong <==> ToolIndices(messages) != [] && TooLongBefore(replies, |replies|)
  {
    var hasTools := ToolIndices(messages) != [];
    var attempt := 0;
    while attempt < |REMOVAL_PERCENTAGES|
      invariant 0 <= attempt <= |replies| && TooLongBefore(replies, attempt)
      invariant attempt > 0 ==> hasTools && attempt < |replies|
    {
      match replies[attempt] {
        case Summary => return Summarised(attempt);
        case OtherError => return GaveUp(attempt);
        case TooLong =>
          if !hasTools { return NothingToRemove; }
          if attempt == |REMOVAL_PERCENTAGES| - 1 { return StillTooLong; }
      }
      attempt := attempt + 1;
    }
    return Exhausted;
  }

  const REMOVAL_PERCENTAGES: seq<nat> := [0, 10, 20, 50, 100]

  /** Every retry of the summariser works on a history that drops at least what
      the one before it dropped. */
  lemma RetriesOnlyDropMore(ms: seq<Message>, a: nat, b: nat)
    requires a <= b < |REMOVAL_PERCENTAGES|
    ensures REMOVAL_PERCENTAGES == [0, 10, 20, 50, 100]
    ensures Dropped(ms, REMOVAL_PERCENTAGES[a]) <= Dropped(ms, REMOVAL_PERCENTAGES[b])
  {
    assert REMOVAL_PERCENTAGES[a] <= REMOVAL_PERCENTAGES[b];
    DropsAreNested(ms, REMOVAL_PERCENTAGES[a], REMOVAL_PERCENTAGES[b]);
  }
}
