/** Which parts of a summariser's answer may be taken for the summary JSON
    (structured.rs). Candidates are kept as slices of the answer, so that one can
    say where they stand. */
module SummaryJson {
  import opened Common
  import opened Text

  // ---- The leading object ----

  datatype Brace = Brace(depth: int, inString: bool, escaped: bool)

  const OUTSIDE := Brace(0, false, false)

  function Step(st: Brace, c: char): Brace {
    if st.inString then
      if st.escaped then st.(escaped := false)
      else if c == '\\' then st.(escaped := true)
      else if c == '"' then st.(inString := false)
      else st
    else if c == '"' then st.(inString := true)
    else if c == '{' then st.(depth := st.depth + 1)
    else if c == '}' then st.(depth := st.depth - 1)
    else st
  }

  /** The scanner after the first `n` characters of `t`. */
  function After(t: string, n: nat): Brace
    requires n <= |t|
  {
    if n == 0 then OUTSIDE else Step(After(t, n - 1), t[n - 1])
  }

  /** The first `n` characters are a balanced text: all braces closed, no string open. */
  predicate Balanced(t: string, n: nat) { n <= |t| && After(t, n).depth == 0 && !After(t, n).inString }

  /** `n` is the length of the shortest non-empty balanced prefix, and until there
      the depth never drops to zero. */
  ghost predicate IsLeadingObject(t: string, n: nat) {
    && 1 <= n <= |t| && t[0] == '{' && Balanced(t, n)
    && forall k :: 1 <= k < n ==> After(t, k).depth >= 1
  }

  /** `leading_object`, on a text whose leading white space is gone: the length of
      the object, if it is there and terminated. */
  method LeadingObjectLoop(t: string) returns (r: Option<nat>)
    ensures r == ObjectLength(t)
  {
    if !("{" <= t) { return None; }
    var depth: nat := 0;
    var inString, escaped := false, false;
    var idx := 0;
    while idx < |t|
      invariant 0 <= idx <= |t|
      invariant Brace(depth, inString, escaped) == After(t, idx)
      invariant forall k :: 1 <= k <= idx ==> After(t, k).depth >= 1
    {
      var ch := t[idx];
      idx := idx + 1;
      if inString {
        if escaped { escaped := false; }
        else if ch == '\\' { escaped := true; }
        else if ch == '"' { inString := false; }
        continue;
      }
      if ch == '"' {
        inString := true;
      } else if ch == '{' {
        depth := depth + 1;
      } else if ch == '}' {
        assert idx > 1 && After(t, idx - 1).depth >= 1;
        depth := depth - 1;
        if depth == 0 {
          ObjectIs(t, idx);
          return Some(idx);
        }
      }
    }
    ObjectIsNot(t);
    return None;
  }

  /** The length of the leading object, if there is one. */
  ghost function ObjectLength(t: string): Option<nat> {
    if exists n: nat :: IsLeadingObject(t, n) then
      var n: nat :| IsLeadingObject(t, n);
      Some(n)
    else None
  }

  lemma LeadingObjectUnique(t: string, m: nat, n: nat)
    requires IsLeadingObject(t, m) && IsLeadingObject(t, n)
    ensures m == n
  {}

  lemma ObjectIs(t: string, n: nat)
    requires IsLeadingObject(t, n)
    ensures ObjectLength(t) == Some(n)
  {
    var m: nat :| IsLeadingObject(t, m) && ObjectLength(t) == Some(m);
    LeadingObjectUnique(t, m, n);
  }

  lemma ObjectIsNot(t: string)
    requires forall k :: 1 <= k <= |t| ==> After(t, k).depth >= 1
    ensures ObjectLength(t) == None
  {}

  /** A text that begins with `{` has a leading object exactly when some non-empty
      prefix is balanced; the object is then the shortest such prefix, and it ends
      in the brace that closes the first one. */
  lemma LeadingObjectExact(t: string)
    requires "{" <= t
    ensures ObjectLength(t).Some? <==> exists n: nat :: n >= 1 && Balanced(t, n)
    ensures ObjectLength(t).Some? ==>
              var n := ObjectLength(t).value;
              && 1 <= n <= |t| && t[n - 1] == '}'
              && Balanced(t, n) && forall k :: 1 <= k < n ==> !Balanced(t, k)
  {
    if exists n: nat :: n >= 1 && Balanced(t, n) {
      var n: nat :| n >= 1 && Balanced(t, n);
      var m := FirstZero(t, n);
      ObjectIs(t, m);
    }
    if ObjectLength(t).Some? {
      var n := ObjectLength(t).value;
      assert IsLeadingObject(t, n);
      assert After(t, 1).depth == 1;
      ZeroByBrace(t, n);
    }
  }

  lemma ZeroByBrace(t: string, n: nat)
    requires IsLeadingObject(t, n) && After(t, 1).depth == 1
    ensures t[n - 1] == '}'
  {
    assert n > 1;
    assert After(t, n - 1).depth >= 1;
  }

  /** Before the depth first returns to zero it stays positive, and it returns
      there outside a string. */
  lemma {:induction false} FirstZero(t: string, n: nat) returns (m: nat)
    requires "{" <= t && n >= 1 && Balanced(t, n)
    ensures m <= n && IsLeadingObject(t, m)
  {
    m := 1;
    assert After(t, 1) == Brace(1, false, false);
    while After(t, m).depth != 0
      invariant 1 <= m <= n
      invariant forall k :: 1 <= k < m ==> After(t, k).depth >= 1
      invariant After(t, m).depth >= 0
      invariant After(t, m).depth == 0 ==> !After(t, m).inString
      decreases n - m
    {
      m := m + 1;
    }
  }

  // ---- Slices and terminators ----

  /** The part of the answer from `from` to before `to`. */
  datatype Slice = Slice(from: nat, to: nat)

  const TERMINATOR := "</analysis>"
  const FENCE := "```json"

  predicate At(t: string, pat: string, p: nat) { p + |pat| <= |t| && t[p..p + |pat|] == pat }

  /** `match_indices`: the occurrences from `from` on, left to right, not overlapping. */
  function Matches(t: string, pat: string, from: nat): (r: seq<nat>)
    requires pat != "" && from <= |t|
    ensures forall i :: 0 <= i < |r| ==> from <= r[i] && At(t, pat, r[i])
    decreases |t| - from
  {
    if from + |pat| > |t| then []
    else if At(t, pat, from) then [from] + Matches(t, pat, from + |pat|)
    else Matches(t, pat, from + 1)
  }

  /** No character of `pat` is like its last, so no two occurrences overlap. */
  predicate EndsOnce(pat: string) { pat != "" && forall k :: 0 <= k < |pat| - 1 ==> pat[k] != pat[|pat| - 1] }

  lemma MarkersEndOnce()
    ensures EndsOnce(TERMINATOR) && EndsOnce(FENCE)
  {}

  lemma CharOf(t: string, pat: string, p: nat, k: nat)
    requires At(t, pat, p) && k < |pat|
    ensures t[p + k] == pat[k]
  {
    assert t[p..p + |pat|][k] == t[p + k];
  }

  /** Two occurrences of a marker never overlap. */
  lemma NoOverlap(t: string, pat: string, p: nat, q: nat)
    requires EndsOnce(pat) && At(t, pat, p) && At(t, pat, q) && p < q
    ensures p + |pat| <= q
  {
    hide At;
    if q < p + |pat| {
      CharOf(t, pat, p, |pat| - 1);
      CharOf(t, pat, q, p + |pat| - 1 - q);
    }
  }

  /** For a marker, the matches are all its occurrences. */
  lemma {:induction false} MatchesAreAll(t: string, pat: string, from: nat, p: nat)
    requires EndsOnce(pat) && from <= p && At(t, pat, p)
    ensures p in Matches(t, pat, from)
    decreases |t| - from
  {
    if At(t, pat, from) {
      if from < p {
        NoOverlap(t, pat, from, p);
        MatchesAreAll(t, pat, from + |pat|, p);
      }
    } else {
      MatchesAreAll(t, pat, from + 1, p);
    }
  }

  predicate Increasing(r: seq<nat>) { forall i, j :: 0 <= i < j < |r| ==> r[i] < r[j] }

  lemma IncreasingCons(x: nat, r: seq<nat>)
    requires Increasing(r) && forall i :: 0 <= i < |r| ==> x < r[i]
    ensures Increasing([x] + r)
  {
    var s := [x] + r;
    forall i, j | 0 <= i < j < |s| ensures s[i] < s[j] {
      assert s[j] == r[j - 1];
      if i > 0 { assert s[i] == r[i - 1]; }
    }
  }

  lemma {:induction false} MatchesIncrease(t: string, pat: string, from: nat)
    requires pat != "" && from <= |t|
    ensures Increasing(Matches(t, pat, from))
    decreases |t| - from
  {
    hide Increasing, At;
    if from + |pat| > |t| {
      NothingIncreases();
    } else if At(t, pat, from) {
      MatchesIncrease(t, pat, from + |pat|);
      IncreasingCons(from, Matches(t, pat, from + |pat|));
    } else {
      MatchesIncrease(t, pat, from + 1);
    }
  }

  lemma NothingIncreases()
    ensures Increasing([])
  {}

  /** All occurrences of the terminator that lie within `[a, b)`. */
  function Occurrences(t: string, a: nat, b: nat): set<nat> {
    set p | a <= p < |t| && p + |TERMINATOR| <= b && At(t, TERMINATOR, p)
  }

  function SetOf(r: seq<nat>): set<nat> { set p | p in r }

  lemma SetOfSnoc(r: seq<nat>, x: nat)
    ensures SetOf(r + [x]) == SetOf(r) + {x}
  {}

  lemma {:induction false} CountIsCardinality(r: seq<nat>)
    requires Increasing(r)
    ensures |SetOf(r)| == |r|
  {
    hide SetOf;
    if r == [] {
      NoMembers();
    } else {
      var n := |r| - 1;
      CountIsCardinality(r[..n]);
      assert r == r[..n] + [r[n]];
      SetOfSnoc(r[..n], r[n]);
      NotAMember(r[..n], r[n]);
    }
  }

  lemma NoMembers()
    ensures SetOf([]) == {}
  {}

  lemma NotAMember(r: seq<nat>, x: nat)
    requires forall i :: 0 <= i < |r| ==> r[i] < x
    ensures x !in SetOf(r)
  {}

  lemma SliceAt(t: string, a: nat, b: nat, p: nat)
    requires a <= b <= |t|
    ensures At(t[a..b], TERMINATOR, p) <==> a + p + |TERMINATOR| <= b && At(t, TERMINATOR, a + p)
  {
    if p + |TERMINATOR| <= b - a {
      SubSlice(t, a, b, p, |TERMINATOR|);
    }
  }

  lemma SubSlice(t: string, a: nat, b: nat, p: nat, n: nat)
    requires a <= b <= |t| && p + n <= b - a
    ensures t[a..b][p..p + n] == t[a + p..a + p + n]
  {
    var x, y := t[a..b][p..p + n], t[a + p..a + p + n];
    forall i | 0 <= i < n ensures x[i] == y[i] {
      assert x[i] == t[a..b][p + i] == t[a + (p + i)];
      assert y[i] == t[(a + p) + i];
    }
    assert |x| == |y|;
  }

  /** Counting matches in a slice counts the occurrences that lie in it. */
  lemma SliceCount(t: string, a: nat, b: nat)
    requires a <= b <= |t|
    ensures |Matches(t[a..b], TERMINATOR, 0)| == |Occurrences(t, a, b)|
  {
    hide At, Matches;
    MarkersEndOnce();
    var s := t[a..b];
    var r := Matches(s, TERMINATOR, 0);
    var shifted := Ends(r, a);
    MatchesIncrease(s, TERMINATOR, 0);
    assert Increasing(shifted) by {
      forall i, j | 0 <= i < j < |shifted| ensures shifted[i] < shifted[j] { assert r[i] < r[j]; }
    }
    CountIsCardinality(shifted);
    forall q | q in SetOf(shifted) ensures q in Occurrences(t, a, b) {
      var i :| 0 <= i < |shifted| && shifted[i] == q;
      assert At(s, TERMINATOR, r[i]);
      SliceAt(t, a, b, r[i]);
    }
    forall q | q in Occurrences(t, a, b) ensures q in SetOf(shifted) {
      SliceAt(t, a, b, q - a);
      MatchesAreAll(s, TERMINATOR, 0, q - a);
      var i :| 0 <= i < |r| && r[i] == q - a;
      assert shifted[i] == q;
    }
    SameSize(SetOf(shifted), Occurrences(t, a, b));
  }

  lemma SameSize(x: set<nat>, y: set<nat>)
    requires x <= y && y <= x
    ensures |x| == |y|
  {
    assert x == y;
  }

  lemma SubsetOfEqualSize(x: set<nat>, y: set<nat>)
    requires x <= y && |x| == |y|
    ensures x == y
  {
    if x != y {
      var q :| q in y && q !in x;
      assert x <= y - {q};
      SubsetCardinality(x, y - {q});
    }
  }

  lemma SubsetCardinality(x: set<nat>, y: set<nat>)
    requires x <= y
    ensures |x| <= |y|
    decreases x
  {
    if x != {} {
      var p :| p in x;
      SubsetCardinality(x - {p}, y - {p});
    }
  }

  // ---- The candidates ----

  /** `leading_object` of the part from `from` on. */
  ghost function LeadingObject(t: string, from: nat): Option<Slice>
    requires from <= |t|
  {
    var rest := t[from..];
    var start := from + |rest| - |TrimStart(rest)|;
    match ObjectLength(t[start..])
    case None => None
    case Some(n) => Some(Slice(start, start + n))
  }

  ghost function ObjectsAt(t: string, starts: seq<nat>): seq<Slice>
    requires forall i :: 0 <= i < |starts| ==> starts[i] <= |t|
  {
    if starts == [] then []
    else
      (match LeadingObject(t, starts[0])
       case None => []
       case Some(s) => [s])
      + ObjectsAt(t, starts[1..])
  }

  function Reversed(s: seq<nat>): (r: seq<nat>)
    ensures |r| == |s| && forall i :: 0 <= i < |r| ==> r[i] == s[|s| - 1 - i]
  {
    seq(|s|, i requires 0 <= i < |s| => s[|s| - 1 - i])
  }

  function Ends(ps: seq<nat>, n: nat): (r: seq<nat>)
    ensures |r| == |ps| && forall i :: 0 <= i < |r| ==> r[i] == ps[i] + n
  {
    seq(|ps|, i requires 0 <= i < |ps| => ps[i] + n)
  }

  /** After one terminator: the fenced objects, last fence first, then a leading
      object; each only if it contains every terminator that follows the cut. */
  ghost function CandidatesAfter(t: string, cut: nat): seq<Slice>
    requires cut <= |t|
  {
    var fences := Ends(Reversed(Matches(t, FENCE, cut)), |FENCE|);
    Quoting(t, cut, ObjectsAt(t, fences + [cut]))
  }

  /** The slices that contain as many terminators as the whole tail does. */
  function Quoting(t: string, cut: nat, cs: seq<Slice>): seq<Slice>
    requires cut <= |t|
  {
    if cs == [] then []
    else
      var c := cs[0];
      (if c.from <= c.to <= |t|
          && |Matches(t[c.from..c.to], TERMINATOR, 0)| == |Matches(t[cut..], TERMINATOR, 0)|
       then [c] else [])
      + Quoting(t, cut, cs[1..])
  }

  function Cuts(t: string): (r: seq<nat>)
    ensures forall i :: 0 <= i < |r| ==> r[i] <= |t|
  {
    var ps := Matches(t, TERMINATOR, 0);
    if ps == [] then [0] else Ends(ps, |TERMINATOR|)
  }

  ghost function CandidatesAfterAll(t: string, cuts: seq<nat>): seq<Slice>
    requires forall i :: 0 <= i < |cuts| ==> cuts[i] <= |t|
  {
    if cuts == [] then [] else CandidatesAfter(t, cuts[0]) + CandidatesAfterAll(t, cuts[1..])
  }

  function TextOf(t: string, s: Slice): string {
    if s.from <= s.to <= |t| then t[s.from..s.to] else ""
  }

  /** `dedup`: of neighbours with the same text, only the first stays. */
  function Dedup(t: string, cs: seq<Slice>): seq<Slice>
    decreases |cs|
  {
    if |cs| <= 1 then cs
    else if TextOf(t, cs[0]) == TextOf(t, cs[1]) then Dedup(t, [cs[0]] + cs[2..])
    else [cs[0]] + Dedup(t, cs[1..])
  }

  /** `json_candidates`. */
  ghost function JsonCandidates(t: string): seq<Slice> {
    var afterCuts := CandidatesAfterAll(t, Reversed(Cuts(t)));
    var whole := LeadingObject(t, 0);
    Dedup(t, afterCuts + if whole.Some? then [whole.value] else [])
  }

  method LeadingObjectOf(t: string, from: nat) returns (r: Option<Slice>)
    requires from <= |t|
    ensures r == LeadingObject(t, from)
  {
    var rest := t[from..];
    var start := from + |rest| - |TrimStart(rest)|;
    var n := LeadingObjectLoop(t[start..]);
    match n {
      case None => return None;
      case Some(k) => return Some(Slice(start, start + k));
    }
  }

  lemma ObjectsStep(t: string, starts: seq<nat>, j: nat)
    requires (forall i :: 0 <= i < |starts| ==> starts[i] <= |t|) && j < |starts|
    ensures ObjectsAt(t, starts[j..])
         == (match LeadingObject(t, starts[j]) case None => [] case Some(s) => [s]) + ObjectsAt(t, starts[j + 1..])
  {
    assert starts[j..][1..] == starts[j + 1..];
  }

  method ObjectsAtLoop(t: string, starts: seq<nat>) returns (found: seq<Slice>)
    requires forall i :: 0 <= i < |starts| ==> starts[i] <= |t|
    ensures found == ObjectsAt(t, starts)
  {
    hide LeadingObject, ObjectsAt;
    found := [];
    assert starts[0..] == starts;
    var j := 0;
    while j < |starts|
      invariant 0 <= j <= |starts|
      invariant ObjectsAt(t, starts) == found + ObjectsAt(t, starts[j..])
    {
      var c := LeadingObjectOf(t, starts[j]);
      ObjectsStep(t, starts, j);
      if c.Some? { found := found + [c.value]; }
      j := j + 1;
    }
    NoObjects(t);
  }

  lemma NoObjects(t: string)
    ensures ObjectsAt(t, []) == [] && CandidatesAfterAll(t, []) == []
  {}

  method CandidatesAfterLoop(t: string, cut: nat) returns (r: seq<Slice>)
    requires cut <= |t|
    ensures r == CandidatesAfter(t, cut)
  {
    hide Quoting, ObjectsAt;
    var fences := Ends(Reversed(Matches(t, FENCE, cut)), |FENCE|);
    var found := ObjectsAtLoop(t, fences + [cut]);
    r := Quoting(t, cut, found);
  }

  lemma CandidatesStep(t: string, cuts: seq<nat>, i: nat)
    requires (forall k :: 0 <= k < |cuts| ==> cuts[k] <= |t|) && i < |cuts|
    ensures CandidatesAfterAll(t, cuts[i..]) == CandidatesAfter(t, cuts[i]) + CandidatesAfterAll(t, cuts[i + 1..])
  {
    hide CandidatesAfter;
    assert cuts[i..][1..] == cuts[i + 1..];
  }

  /** The candidates, gathered cut by cut and marker by marker. */
  method JsonCandidatesLoop(t: string) returns (candidates: seq<Slice>)
    ensures candidates == JsonCandidates(t)
  {
    hide LeadingObject, CandidatesAfter, CandidatesAfterAll, Dedup, Cuts;
    var cuts := Reversed(Cuts(t));
    candidates := [];
    assert cuts[0..] == cuts;
    var i := 0;
    while i < |cuts|
      invariant 0 <= i <= |cuts|
      invariant CandidatesAfterAll(t, cuts) == candidates + CandidatesAfterAll(t, cuts[i..])
    {
      var more := CandidatesAfterLoop(t, cuts[i]);
      CandidatesStep(t, cuts, i);
      candidates := candidates + more;
      i := i + 1;
    }
    NoObjects(t);
    assert candidates == CandidatesAfterAll(t, cuts);
    assert candidates + [] == candidates;
    var whole := LeadingObjectOf(t, 0);
    if whole.Some? { candidates := candidates + [whole.value]; }
    candidates := Dedup(t, candidates);
  }

  // ---- What a candidate is ----

  /** A terminated object that stands directly at its marker, white space apart. */
  ghost predicate IsObjectAt(t: string, marker: nat, c: Slice) {
    && marker <= c.from <= c.to <= |t|
    && (forall i :: marker <= i < c.from ==> IsWhitespace(t[i]))
    && IsLeadingObject(t[c.from..], c.to - c.from)
  }

  lemma LeadingObjectStands(t: string, from: nat)
    requires from <= |t| && LeadingObject(t, from).Some?
    ensures IsObjectAt(t, from, LeadingObject(t, from).value)
  {
    var rest := t[from..];
    var start := from + |rest| - |TrimStart(rest)|;
    forall i | from <= i < start ensures IsWhitespace(t[i]) { assert rest[i - from] == t[i]; }
  }

  lemma {:induction false} ObjectsStand(t: string, starts: seq<nat>, c: Slice)
    requires (forall i :: 0 <= i < |starts| ==> starts[i] <= |t|) && c in ObjectsAt(t, starts)
    ensures exists i :: 0 <= i < |starts| && IsObjectAt(t, starts[i], c)
  {
    var head := LeadingObject(t, starts[0]);
    if head.Some? && c == head.value {
      LeadingObjectStands(t, starts[0]);
    } else {
      ObjectsStand(t, starts[1..], c);
      var i :| 0 <= i < |starts[1..]| && IsObjectAt(t, starts[1..][i], c);
      assert starts[i + 1] == starts[1..][i];
    }
  }

  lemma {:induction false} QuotingKeeps(t: string, cut: nat, cs: seq<Slice>, c: Slice)
    requires cut <= |t| && c in Quoting(t, cut, cs)
    ensures c in cs && c.from <= c.to <= |t|
    ensures |Matches(t[c.from..c.to], TERMINATOR, 0)| == |Matches(t[cut..], TERMINATOR, 0)|
  {
    if !(c == cs[0] && c.from <= c.to <= |t|
         && |Matches(t[c.from..c.to], TERMINATOR, 0)| == |Matches(t[cut..], TERMINATOR, 0)|) {
      QuotingKeeps(t, cut, cs[1..], c);
    }
  }

  /** Every terminator of the answer ends before the slice does. */
  ghost predicate AfterLastTerminator(t: string, c: Slice) {
    forall p: nat :: At(t, TERMINATOR, p) ==> p + |TERMINATOR| <= c.to
  }

  /** Where a cut may be: the start, or right behind a terminator. */
  ghost predicate IsCut(t: string, cut: nat) {
    && cut <= |t|
    && (cut == 0 || exists p: nat :: At(t, TERMINATOR, p) && p + |TERMINATOR| == cut)
  }

  /** A candidate that quotes every terminator after the cut ends behind them all. */
  lemma QuotingEndsLate(t: string, cut: nat, c: Slice)
    requires IsCut(t, cut) && cut <= c.from <= c.to <= |t|
    requires |Matches(t[c.from..c.to], TERMINATOR, 0)| == |Matches(t[cut..], TERMINATOR, 0)|
    ensures AfterLastTerminator(t, c)
  {
    MarkersEndOnce();
    assert t[cut..] == t[cut..|t|];
    SliceCount(t, c.from, c.to);
    SliceCount(t, cut, |t|);
    var inner, outer := Occurrences(t, c.from, c.to), Occurrences(t, cut, |t|);
    assert inner <= outer;
    SubsetOfEqualSize(inner, outer);
    forall p: nat | At(t, TERMINATOR, p) ensures p + |TERMINATOR| <= c.to {
      if p >= cut {
        assert p in outer;
      } else {
        var q: nat :| At(t, TERMINATOR, q) && q + |TERMINATOR| == cut;
        if q < p { NoOverlap(t, TERMINATOR, q, p); }
      }
    }
  }

  /** What is known of a candidate found behind a cut. */
  lemma CandidateAfterCut(t: string, cut: nat, c: Slice)
    requires IsCut(t, cut) && c in CandidatesAfter(t, cut)
    ensures AfterLastTerminator(t, c)
    ensures exists marker: nat :: IsObjectAt(t, marker, c) && (marker == cut || IsFenceEnd(t, marker))
  {
    hide Quoting, ObjectsAt, IsObjectAt;
    var ms := Matches(t, FENCE, cut);
    var starts := Ends(Reversed(ms), |FENCE|) + [cut];
    QuotingKeeps(t, cut, ObjectsAt(t, starts), c);
    ObjectsStand(t, starts, c);
    var i :| 0 <= i < |starts| && IsObjectAt(t, starts[i], c);
    StandsBehind(t, starts[i], c);
    QuotingEndsLate(t, cut, c);
    if i < |ms| {
      assert At(t, FENCE, ms[|ms| - 1 - i]);
      assert IsFenceEnd(t, starts[i]);
    }
  }

  lemma StandsBehind(t: string, marker: nat, c: Slice)
    requires IsObjectAt(t, marker, c)
    ensures marker <= c.from <= c.to <= |t|
  {}

  ghost predicate IsFenceEnd(t: string, marker: nat) {
    exists p: nat :: At(t, FENCE, p) && p + |FENCE| == marker
  }

  lemma {:induction false} CandidatesAfterSomeCut(t: string, cuts: seq<nat>, c: Slice)
    requires (forall i :: 0 <= i < |cuts| ==> cuts[i] <= |t|) && c in CandidatesAfterAll(t, cuts)
    ensures exists i :: 0 <= i < |cuts| && c in CandidatesAfter(t, cuts[i])
  {
    if c !in CandidatesAfter(t, cuts[0]) {
      CandidatesAfterSomeCut(t, cuts[1..], c);
      var i :| 0 <= i < |cuts[1..]| && c in CandidatesAfter(t, cuts[1..][i]);
      assert cuts[i + 1] == cuts[1..][i];
    }
  }

  lemma CutsAreCuts(t: string, i: nat)
    requires i < |Cuts(t)|
    ensures IsCut(t, Cuts(t)[i])
  {
    var ps := Matches(t, TERMINATOR, 0);
    if ps != [] { assert At(t, TERMINATOR, ps[i]); }
  }

  lemma {:induction false} DedupKeeps(t: string, cs: seq<Slice>, c: Slice)
    requires c in Dedup(t, cs)
    ensures c in cs
    decreases |cs|
  {
    if |cs| > 1 {
      if TextOf(t, cs[0]) == TextOf(t, cs[1]) {
        DedupKeeps(t, [cs[0]] + cs[2..], c);
      } else if c != cs[0] {
        DedupKeeps(t, cs[1..], c);
      }
    }
  }

  /** Every candidate is the leading object of the whole answer, or it ends behind
      the last terminator and stands directly at a cut or a fence: JSON inside the
      discarded scratchpad can never be taken for the summary. */
  lemma CandidatesAvoidScratchpad(t: string, c: Slice)
    requires c in JsonCandidates(t)
    ensures LeadingObject(t, 0) == Some(c)
         || (AfterLastTerminator(t, c)
             && exists marker: nat :: IsObjectAt(t, marker, c) && (IsCut(t, marker) || IsFenceEnd(t, marker)))
  {
    hide LeadingObject, CandidatesAfter, CandidatesAfterAll, IsObjectAt, AfterLastTerminator;
    var cuts := Reversed(Cuts(t));
    var afterCuts := CandidatesAfterAll(t, cuts);
    var whole := LeadingObject(t, 0);
    DedupKeeps(t, afterCuts + if whole.Some? then [whole.value] else [], c);
    if c in afterCuts {
      CandidatesAfterSomeCut(t, cuts, c);
      var i :| 0 <= i < |cuts| && c in CandidatesAfter(t, cuts[i]);
      CutsAreCuts(t, |cuts| - 1 - i);
      CandidateAfterCut(t, cuts[i], c);
    }
  }
}
